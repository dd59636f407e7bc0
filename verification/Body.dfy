/**
 * Parsed product bodies: the values the row collection, the summary and the
 * filters all read, and the orders in which each of them reads.
 */
module Body {
  import opened Prelude
  import opened Geo
  import opened UgcSection

  datatype VtecCode = VtecCode(status: char, action: string, office: string, phenomena: string, significance: char,
                               etn: nat, begin: Option<int>, end: Option<int>)

  datatype Location = Location(placeName: string, at: Point)

  datatype HvtecCode = HvtecCode(nwslid: string, location: Option<Location>, severity: string, cause: string,
                                 record: string, begin: Option<int>, crest: Option<int>, end: Option<int>)

  datatype Polygon = Polygon(points: seq<Point>, wkt: string)

  datatype TimeMotLoc = TimeMotLoc(time: int, directionDegrees: nat, speedKt: nat, points: seq<Point>, wkt: string)

  datatype WindHail = WindHail(kind: string, numericValue: Option<real>, units: Option<string>,
                               comparison: Option<string>)

  datatype Segment = Segment(index: nat, vtec: seq<VtecCode>, ugcSections: seq<Section>, hvtec: seq<HvtecCode>,
                             polygons: seq<Polygon>, timeMotLoc: seq<TimeMotLoc>, windHail: seq<WindHail>)

  datatype ProductBody =
    | VtecEvent(segments: seq<Segment>)
    | Generic(ugc: Option<seq<Section>>, latlon: Option<seq<Polygon>>,
              entries: Option<seq<TimeMotLoc>>, hail: Option<seq<WindHail>>)

  function BucketOf(s: Section, kind: Kind): Bucket {
    match kind
    case Counties => s.counties
    case Zones => s.zones
    case FireZones => s.fireZones
    case MarineZones => s.marineZones
  }

  // ---------- counting ----------

  function Sum<A, B>(select: A -> seq<B>, s: seq<A>): nat {
    if s == [] then 0 else Sum(select, s[..|s| - 1]) + |select(s[|s| - 1])|
  }

  lemma {:induction false} FlattenLength<A, B>(select: A -> seq<B>, s: seq<A>)
    ensures |Flatten(select, s)| == Sum(select, s)
  {
    if s != [] {
      FlattenLength(select, s[..|s| - 1]);
    }
  }

  lemma {:induction false} FlattenMember<A, B>(select: A -> seq<B>, s: seq<A>, b: B)
    ensures b in Flatten(select, s) <==> exists a :: a in s && b in select(a)
  {
    if s != [] {
      FlattenMember(select, s[..|s| - 1], b);
      assert s == s[..|s| - 1] + [s[|s| - 1]];
    }
  }

  function OrEmpty<T>(o: Option<seq<T>>): seq<T> {
    if o.Some? then o.value else []
  }

  function VtecOf(s: Segment): seq<VtecCode> { s.vtec }
  function UgcOf(s: Segment): seq<Section> { s.ugcSections }
  function HvtecOf(s: Segment): seq<HvtecCode> { s.hvtec }
  function PolygonsOf(s: Segment): seq<Polygon> { s.polygons }
  function TimeMotLocOf(s: Segment): seq<TimeMotLoc> { s.timeMotLoc }
  function WindHailOf(s: Segment): seq<WindHail> { s.windHail }

  function UgcSections(body: ProductBody): seq<Section> {
    if body.VtecEvent? then Flatten(UgcOf, body.segments) else OrEmpty(body.ugc)
  }

  // ---------- counts ----------

  datatype Counts = Counts(vtec: nat, ugc: nat, hvtec: nat, latlon: nat, timeMotLoc: nat, windHail: nat)

  /** The facet counts of the product summary. */
  function SummaryCounts(body: ProductBody): Counts {
    match body
    case VtecEvent(segments) =>
      Counts(|Flatten(VtecOf, segments)|, Sum(UgcOf, segments), |Flatten(HvtecOf, segments)|,
             Sum(PolygonsOf, segments), Sum(TimeMotLocOf, segments), |Flatten(WindHailOf, segments)|)
    case Generic(ugc, latlon, entries, hail) =>
      Counts(0, |OrEmpty(ugc)|, 0, |OrEmpty(latlon)|, |OrEmpty(entries)|, |OrEmpty(hail)|)
  }

  /** The lengths the presence filters look at. */
  function FilterLengths(body: ProductBody): Counts {
    match body
    case VtecEvent(segments) =>
      Counts(Sum(VtecOf, segments), Sum(UgcOf, segments), Sum(HvtecOf, segments),
             Sum(PolygonsOf, segments), Sum(TimeMotLocOf, segments), Sum(WindHailOf, segments))
    case Generic(ugc, latlon, entries, hail) =>
      Counts(0, |OrEmpty(ugc)|, 0, |OrEmpty(latlon)|, |OrEmpty(entries)|, |OrEmpty(hail)|)
  }

  lemma CountsAgree(body: ProductBody)
    ensures SummaryCounts(body) == FilterLengths(body)
    ensures FilterLengths(body).ugc == |UgcSections(body)|
  {
    if body.VtecEvent? {
      FlattenLength(VtecOf, body.segments);
      FlattenLength(HvtecOf, body.segments);
      FlattenLength(WindHailOf, body.segments);
      FlattenLength(UgcOf, body.segments);
    }
  }

  // ---------- location points, in iterator order ----------

  function AreaPoints(areas: seq<Area>): seq<Point> {
    if areas == [] then []
    else (
      var a := areas[|areas| - 1];
      AreaPoints(areas[..|areas| - 1]) + (if a.lat.Some? && a.lon.Some? then [Point(a.lat.value, a.lon.value)] else [])
    )
  }

  function EntryPoints(e: (string, seq<Area>)): seq<Point> { AreaPoints(e.1) }

  function SectionPoints(s: Section): seq<Point> {
    Flatten(EntryPoints, s.counties) + Flatten(EntryPoints, s.zones)
    + Flatten(EntryPoints, s.fireZones) + Flatten(EntryPoints, s.marineZones)
  }

  function PathPoints(t: TimeMotLoc): seq<Point> { t.points }

  function GaugePoint(h: HvtecCode): seq<Point> {
    if h.location.Some? then [h.location.value.at] else []
  }

  function SegmentPoints(s: Segment): seq<Point> {
    Flatten(PathPoints, s.timeMotLoc) + Flatten(SectionPoints, s.ugcSections) + Flatten(GaugePoint, s.hvtec)
  }

  function LocationPoints(body: ProductBody): seq<Point> {
    match body
    case VtecEvent(segments) => Flatten(SegmentPoints, segments)
    case Generic(ugc, _, entries, _) =>
      Flatten(PathPoints, OrEmpty(entries)) + Flatten(SectionPoints, OrEmpty(ugc))
  }
}
