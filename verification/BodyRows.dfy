/**
 * The relational rows collected from a parsed body before it is stored.
 */
module BodyRows {
  import opened Prelude
  import opened Geo
  import opened UgcSection
  import opened IncidentUpdates
  import opened Body

  const I32_MAX := 0x7FFF_FFFF
  const I64_MAX := 0x7FFF_FFFF_FFFF_FFFF

  datatype ProductVtecRow = ProductVtecRow(segmentIndex: Option<int>, code: VtecRow)

  datatype HvtecRow = HvtecRow(segmentIndex: Option<int>, hvtecIndex: int, nwslid: string, locationName: Option<string>,
                               severity: string, cause: string, record: string,
                               begin: Option<int>, crest: Option<int>, end: Option<int>,
                               latitude: Option<real>, longitude: Option<real>)

  datatype PolygonRow = PolygonRow(segmentIndex: Option<int>, polygonIndex: int, wkt: string)

  datatype TimeMotLocRow = TimeMotLocRow(segmentIndex: Option<int>, entryIndex: int, time: int,
                                         directionDegrees: int, speedKt: int, wkt: string)

  datatype WindHailRow = WindHailRow(segmentIndex: Option<int>, entryIndex: int, kind: string,
                                     numericValue: Option<real>, units: Option<string>, comparison: Option<string>)

  datatype UgcAreaRow = UgcAreaRow(segmentIndex: Option<int>, sectionIndex: int, kind: Kind, state: string,
                                   code: string, name: Option<string>, expires: int,
                                   latitude: Option<real>, longitude: Option<real>)

  datatype PointSource = FromArea(kind: Kind) | FromHvtec | FromTimeMotLoc

  datatype SearchPointRow = SearchPointRow(source: PointSource, sourceIndex: int, at: Point)

  datatype Rows = Rows(vtec: seq<ProductVtecRow>, hvtec: seq<HvtecRow>, polygons: seq<PolygonRow>,
                       timeMotLoc: seq<TimeMotLocRow>, windHail: seq<WindHailRow>,
                       ugcAreas: seq<UgcAreaRow>, searchPoints: seq<SearchPointRow>)

  const NOTHING := Rows([], [], [], [], [], [], [])

  function Plus(a: Rows, b: Rows): Rows {
    Rows(a.vtec + b.vtec, a.hvtec + b.hvtec, a.polygons + b.polygons, a.timeMotLoc + b.timeMotLoc,
         a.windHail + b.windHail, a.ugcAreas + b.ugcAreas, a.searchPoints + b.searchPoints)
  }

  lemma PlusNothing(a: Rows)
    ensures Plus(a, NOTHING) == a && Plus(NOTHING, a) == a
  {
    assert a.vtec + [] == a.vtec && a.hvtec + [] == a.hvtec && a.polygons + [] == a.polygons;
    assert a.timeMotLoc + [] == a.timeMotLoc && a.windHail + [] == a.windHail;
    assert a.ugcAreas + [] == a.ugcAreas && a.searchPoints + [] == a.searchPoints;
  }

  lemma PlusAssociates(a: Rows, b: Rows, c: Rows)
    ensures Plus(Plus(a, b), c) == Plus(a, Plus(b, c))
  {
    assert (a.vtec + b.vtec) + c.vtec == a.vtec + (b.vtec + c.vtec);
    assert (a.hvtec + b.hvtec) + c.hvtec == a.hvtec + (b.hvtec + c.hvtec);
    assert (a.polygons + b.polygons) + c.polygons == a.polygons + (b.polygons + c.polygons);
    assert (a.timeMotLoc + b.timeMotLoc) + c.timeMotLoc == a.timeMotLoc + (b.timeMotLoc + c.timeMotLoc);
    assert (a.windHail + b.windHail) + c.windHail == a.windHail + (b.windHail + c.windHail);
    assert (a.ugcAreas + b.ugcAreas) + c.ugcAreas == a.ugcAreas + (b.ugcAreas + c.ugcAreas);
    assert (a.searchPoints + b.searchPoints) + c.searchPoints == a.searchPoints + (b.searchPoints + c.searchPoints);
  }

  // ---------- the rows of each part ----------

  function CodeRow(c: VtecCode): VtecRow {
    VtecRow([c.status], c.action, Key(c.office, c.phenomena, [c.significance], c.etn), c.begin, c.end)
  }

  function VtecPart(seg: Option<int>, c: VtecCode): Rows {
    NOTHING.(vtec := [ProductVtecRow(seg, CodeRow(c))])
  }

  function HvtecPart(seg: Option<int>, i: int, h: HvtecCode): Rows {
    match h.location
    case None =>
      NOTHING.(hvtec := [HvtecRow(seg, i, h.nwslid, None, h.severity, h.cause, h.record,
                                  h.begin, h.crest, h.end, None, None)])
    case Some(l) =>
      NOTHING.(hvtec := [HvtecRow(seg, i, h.nwslid, Some(l.placeName), h.severity, h.cause, h.record,
                                  h.begin, h.crest, h.end, Some(l.at.lat), Some(l.at.lon))],
               searchPoints := [SearchPointRow(FromHvtec, i, l.at)])
  }

  function PolygonPart(seg: Option<int>, i: int, p: Polygon): Rows {
    NOTHING.(polygons := [PolygonRow(seg, i, p.wkt)])
  }

  function PathRows(i: int, points: seq<Point>): seq<SearchPointRow> {
    seq(|points|, k requires 0 <= k < |points| => SearchPointRow(FromTimeMotLoc, i, points[k]))
  }

  function TimeMotLocPart(seg: Option<int>, i: int, t: TimeMotLoc): Rows {
    NOTHING.(timeMotLoc := [TimeMotLocRow(seg, i, t.time, t.directionDegrees, t.speedKt, t.wkt)],
             searchPoints := PathRows(i, t.points))
  }

  function WindHailPart(seg: Option<int>, i: int, w: WindHail): Rows {
    NOTHING.(windHail := [WindHailRow(seg, i, w.kind, w.numericValue, w.units, w.comparison)])
  }

  /** The class letter of stored codes. */
  function StoredLetter(kind: Kind): char {
    match kind
    case Counties => 'C'
    case Zones => 'Z'
    case FireZones => 'F'
    case MarineZones => 'M'
  }

  function CodeText(state: string, letter: char, id: nat): string {
    state + [letter] + Padded(id)
  }

  /** Where a bucket is in the body. */
  datatype Place = Place(seg: Option<int>, section: int, kind: Kind, expires: int)

  function AreaPart(at: Place, state: string, a: Area): Rows {
    NOTHING.(ugcAreas := [UgcAreaRow(at.seg, at.section, at.kind, state, CodeText(state, StoredLetter(at.kind), a.id),
                                     a.name, at.expires, a.lat, a.lon)],
             searchPoints := if a.lat.Some? && a.lon.Some?
                             then [SearchPointRow(FromArea(at.kind), at.section, Point(a.lat.value, a.lon.value))]
                             else [])
  }

  // ---------- lists of parts ----------

  function VtecRows(seg: Option<int>, s: seq<VtecCode>): Rows {
    if s == [] then NOTHING else Plus(VtecRows(seg, s[..|s| - 1]), VtecPart(seg, s[|s| - 1]))
  }

  function HvtecRows(seg: Option<int>, s: seq<HvtecCode>): Rows {
    if s == [] then NOTHING else Plus(HvtecRows(seg, s[..|s| - 1]), HvtecPart(seg, |s| - 1, s[|s| - 1]))
  }

  function PolygonRows(seg: Option<int>, s: seq<Polygon>): Rows {
    if s == [] then NOTHING else Plus(PolygonRows(seg, s[..|s| - 1]), PolygonPart(seg, |s| - 1, s[|s| - 1]))
  }

  function TimeMotLocRows(seg: Option<int>, s: seq<TimeMotLoc>): Rows {
    if s == [] then NOTHING else Plus(TimeMotLocRows(seg, s[..|s| - 1]), TimeMotLocPart(seg, |s| - 1, s[|s| - 1]))
  }

  function WindHailRows(seg: Option<int>, s: seq<WindHail>): Rows {
    if s == [] then NOTHING else Plus(WindHailRows(seg, s[..|s| - 1]), WindHailPart(seg, |s| - 1, s[|s| - 1]))
  }

  function AreaRows(at: Place, state: string, s: seq<Area>): Rows {
    if s == [] then NOTHING else Plus(AreaRows(at, state, s[..|s| - 1]), AreaPart(at, state, s[|s| - 1]))
  }

  function BucketRows(at: Place, b: Bucket): Rows {
    if b == [] then NOTHING else Plus(BucketRows(at, b[..|b| - 1]), AreaRows(at, b[|b| - 1].0, b[|b| - 1].1))
  }

  function KindRows(seg: Option<int>, i: int, s: Section, kind: Kind): Rows {
    BucketRows(Place(seg, i, kind, s.expires), BucketOf(s, kind))
  }

  const KINDS := [Counties, Zones, FireZones, MarineZones]

  function KindsRows(seg: Option<int>, i: int, s: Section, kinds: seq<Kind>): Rows {
    if kinds == [] then NOTHING
    else Plus(KindsRows(seg, i, s, kinds[..|kinds| - 1]), KindRows(seg, i, s, kinds[|kinds| - 1]))
  }

  function SectionRows(seg: Option<int>, i: int, s: Section): Rows {
    KindsRows(seg, i, s, KINDS)
  }

  function UgcRows(seg: Option<int>, s: seq<Section>): Rows {
    if s == [] then NOTHING else Plus(UgcRows(seg, s[..|s| - 1]), SectionRows(seg, |s| - 1, s[|s| - 1]))
  }

  function SegmentRows(s: Segment): Rows {
    var seg := Some(s.index);
    Plus(Plus(Plus(Plus(Plus(VtecRows(seg, s.vtec), HvtecRows(seg, s.hvtec)), PolygonRows(seg, s.polygons)),
                   TimeMotLocRows(seg, s.timeMotLoc)), WindHailRows(seg, s.windHail)), UgcRows(seg, s.ugcSections))
  }

  function SegmentsRows(s: seq<Segment>): Rows {
    if s == [] then NOTHING else Plus(SegmentsRows(s[..|s| - 1]), SegmentRows(s[|s| - 1]))
  }

  function RowsOfBody(body: ProductBody): Rows {
    match body
    case VtecEvent(segments) => SegmentsRows(segments)
    case Generic(ugc, latlon, entries, hail) =>
      Plus(Plus(Plus(UgcRows(None, OrEmpty(ugc)), PolygonRows(None, OrEmpty(latlon))),
                TimeMotLocRows(None, OrEmpty(entries))), WindHailRows(None, OrEmpty(hail)))
  }

  // ---------- index conversions ----------

  /** Every index of the list is a 32-bit signed value. */
  predicate Indexable<T>(s: seq<T>) {
    |s| <= I32_MAX + 1
  }

  predicate SegmentFits(s: Segment) {
    && s.index <= I32_MAX && Indexable(s.hvtec) && Indexable(s.polygons) && Indexable(s.timeMotLoc)
    && Indexable(s.windHail) && Indexable(s.ugcSections)
  }

  predicate AllFit(s: seq<Segment>) {
    s == [] || (AllFit(s[..|s| - 1]) && SegmentFits(s[|s| - 1]))
  }

  predicate BodyFits(body: ProductBody) {
    match body
    case VtecEvent(segments) => AllFit(segments)
    case Generic(ugc, latlon, entries, hail) =>
      Indexable(OrEmpty(ugc)) && Indexable(OrEmpty(latlon)) && Indexable(OrEmpty(entries)) && Indexable(OrEmpty(hail))
  }

  lemma {:induction false} AllFitAt(s: seq<Segment>, i: nat)
    requires i < |s|
    ensures AllFit(s[..i + 1]) == (AllFit(s[..i]) && SegmentFits(s[i]))
    ensures AllFit(s) ==> SegmentFits(s[i])
  {
    assert s[..i + 1][..i] == s[..i];
    if i < |s| - 1 {
      AllFitAt(s[..|s| - 1], i);
    }
  }

  lemma {:induction false} UgcStep(seg: Option<int>, start: Rows, s: seq<Section>, i: nat, before: Rows, after: Rows)
    requires i < |s| && before == Plus(start, UgcRows(seg, s[..i])) && after == Plus(before, SectionRows(seg, i, s[i]))
    ensures after == Plus(start, UgcRows(seg, s[..i + 1]))
  {
    assert s[..i + 1][..i] == s[..i];
    PlusAssociates(start, UgcRows(seg, s[..i]), SectionRows(seg, i, s[i]));
  }

  lemma SegmentsStep(start: Rows, s: seq<Segment>, i: nat, before: Rows, after: Rows)
    requires i < |s| && before == Plus(start, SegmentsRows(s[..i])) && after == Plus(before, SegmentRows(s[i]))
    ensures after == Plus(start, SegmentsRows(s[..i + 1]))
  {
    assert s[..i + 1][..i] == s[..i];
    PlusAssociates(start, SegmentsRows(s[..i]), SegmentRows(s[i]));
  }

  // ---------- the collection ----------

  class PreparedProduct {
    var vtec: seq<ProductVtecRow>
    var hvtec: seq<HvtecRow>
    var polygons: seq<PolygonRow>
    var timeMotLoc: seq<TimeMotLocRow>
    var windHail: seq<WindHailRow>
    var ugcAreas: seq<UgcAreaRow>
    var searchPoints: seq<SearchPointRow>

    ghost function Contents(): Rows
      reads this
    {
      Rows(vtec, hvtec, polygons, timeMotLoc, windHail, ugcAreas, searchPoints)
    }

    constructor ()
      ensures Contents() == NOTHING
    {
      vtec, hvtec, polygons, timeMotLoc := [], [], [], [];
      windHail, ugcAreas, searchPoints := [], [], [];
    }

    method PushVtecRow(seg: Option<int>, c: VtecCode)
      modifies this
      ensures Contents() == Plus(old(Contents()), VtecPart(seg, c))
    {
      PlusNothing(Contents());
      vtec := vtec + [ProductVtecRow(seg, CodeRow(c))];
    }

    method PushHvtecRow(seg: Option<int>, i: int, h: HvtecCode)
      modifies this
      ensures Contents() == Plus(old(Contents()), HvtecPart(seg, i, h))
    {
      PlusNothing(Contents());
      var name := if h.location.Some? then Some(h.location.value.placeName) else None;
      var latitude := if h.location.Some? then Some(h.location.value.at.lat) else None;
      var longitude := if h.location.Some? then Some(h.location.value.at.lon) else None;
      hvtec := hvtec + [HvtecRow(seg, i, h.nwslid, name, h.severity, h.cause, h.record, h.begin, h.crest, h.end,
                                 latitude, longitude)];
      if latitude.Some? && longitude.Some? {
        searchPoints := searchPoints + [SearchPointRow(FromHvtec, i, Point(latitude.value, longitude.value))];
      }
    }

    method PushTimeMotLocRow(seg: Option<int>, i: int, t: TimeMotLoc)
      modifies this
      ensures Contents() == Plus(old(Contents()), TimeMotLocPart(seg, i, t))
    {
      PlusNothing(Contents());
      timeMotLoc := timeMotLoc + [TimeMotLocRow(seg, i, t.time, t.directionDegrees, t.speedKt, t.wkt)];
      ghost var before := Contents();
      ghost var path := PathRows(i, t.points);
      assert before.searchPoints + path[..0] == before.searchPoints;
      for k := 0 to |t.points|
        invariant Contents() == before.(searchPoints := before.searchPoints + path[..k])
      {
        searchPoints := searchPoints + [SearchPointRow(FromTimeMotLoc, i, t.points[k])];
        assert path[..k + 1] == path[..k] + [path[k]];
        assert before.searchPoints + path[..k + 1] == before.searchPoints + path[..k] + [path[k]];
      }
      assert path[..|t.points|] == path;
    }

    method PushWindHailRow(seg: Option<int>, i: int, w: WindHail)
      modifies this
      ensures Contents() == Plus(old(Contents()), WindHailPart(seg, i, w))
    {
      PlusNothing(Contents());
      windHail := windHail + [WindHailRow(seg, i, w.kind, w.numericValue, w.units, w.comparison)];
    }

    method PushPolygonRow(seg: Option<int>, i: int, p: Polygon)
      modifies this
      ensures Contents() == Plus(old(Contents()), PolygonPart(seg, i, p))
    {
      PlusNothing(Contents());
      polygons := polygons + [PolygonRow(seg, i, p.wkt)];
    }

    method PushAreaRow(at: Place, state: string, a: Area)
      modifies this
      ensures Contents() == Plus(old(Contents()), AreaPart(at, state, a))
    {
      PlusNothing(Contents());
      var code := CodeText(state, StoredLetter(at.kind), a.id);
      ugcAreas := ugcAreas
                  + [UgcAreaRow(at.seg, at.section, at.kind, state, code, a.name, at.expires, a.lat, a.lon)];
      if a.lat.Some? && a.lon.Some? {
        searchPoints := searchPoints + [SearchPointRow(FromArea(at.kind), at.section, Point(a.lat.value, a.lon.value))];
      }
    }

    method PushAreas(at: Place, state: string, areas: seq<Area>)
      modifies this
      ensures Contents() == Plus(old(Contents()), AreaRows(at, state, areas))
    {
      PlusNothing(Contents());
      ghost var start := Contents();
      for i := 0 to |areas|
        invariant Contents() == Plus(start, AreaRows(at, state, areas[..i]))
      {
        PushAreaRow(at, state, areas[i]);
        assert areas[..i + 1][..i] == areas[..i];
        PlusAssociates(start, AreaRows(at, state, areas[..i]), AreaPart(at, state, areas[i]));
      }
      assert areas[..|areas|] == areas;
    }

    method PushUgcBucket(seg: Option<int>, section: int, s: Section, kind: Kind)
      modifies this
      ensures Contents() == Plus(old(Contents()), KindRows(seg, section, s, kind))
    {
      PlusNothing(Contents());
      ghost var start := Contents();
      var b := BucketOf(s, kind);
      var at := Place(seg, section, kind, s.expires);
      for i := 0 to |b|
        invariant Contents() == Plus(start, BucketRows(at, b[..i]))
      {
        PushAreas(at, b[i].0, b[i].1);
        assert b[..i + 1][..i] == b[..i];
        PlusAssociates(start, BucketRows(at, b[..i]), AreaRows(at, b[i].0, b[i].1));
      }
      assert b[..|b|] == b;
    }

    method PushSection(seg: Option<int>, section: int, s: Section, kinds: seq<Kind>)
      modifies this
      ensures Contents() == Plus(old(Contents()), KindsRows(seg, section, s, kinds))
    {
      PlusNothing(Contents());
      ghost var start := Contents();
      for i := 0 to |kinds|
        invariant Contents() == Plus(start, KindsRows(seg, section, s, kinds[..i]))
      {
        PushUgcBucket(seg, section, s, kinds[i]);
        assert kinds[..i + 1][..i] == kinds[..i];
        PlusAssociates(start, KindsRows(seg, section, s, kinds[..i]), KindRows(seg, section, s, kinds[i]));
      }
      assert kinds[..|kinds|] == kinds;
    }

    method CollectUgcRows(seg: Option<int>, sections: seq<Section>) returns (ok: bool)
      modifies this
      ensures ok == Indexable(sections)
      ensures ok ==> Contents() == Plus(old(Contents()), UgcRows(seg, sections))
    {
      PlusNothing(Contents());
      ghost var start := Contents();
      for i := 0 to |sections|
        invariant i <= I32_MAX + 1
        invariant Contents() == Plus(start, UgcRows(seg, sections[..i]))
      {
        if i > I32_MAX {
          return false;
        }
        ghost var before := Contents();
        PushSection(seg, i, sections[i], KINDS);
        UgcStep(seg, start, sections, i, before, Contents());
      }
      assert sections[..|sections|] == sections;
      return true;
    }

    method CollectVtecRows(seg: Option<int>, codes: seq<VtecCode>)
      modifies this
      ensures Contents() == Plus(old(Contents()), VtecRows(seg, codes))
    {
      PlusNothing(Contents());
      ghost var start := Contents();
      for i := 0 to |codes|
        invariant Contents() == Plus(start, VtecRows(seg, codes[..i]))
      {
        PushVtecRow(seg, codes[i]);
        assert codes[..i + 1][..i] == codes[..i];
        PlusAssociates(start, VtecRows(seg, codes[..i]), VtecPart(seg, codes[i]));
      }
      assert codes[..|codes|] == codes;
    }

    method CollectHvtecRows(seg: Option<int>, codes: seq<HvtecCode>) returns (ok: bool)
      modifies this
      ensures ok == Indexable(codes)
      ensures ok ==> Contents() == Plus(old(Contents()), HvtecRows(seg, codes))
    {
      PlusNothing(Contents());
      ghost var start := Contents();
      for i := 0 to |codes|
        invariant i <= I32_MAX + 1
        invariant Contents() == Plus(start, HvtecRows(seg, codes[..i]))
      {
        if i > I32_MAX {
          return false;
        }
        PushHvtecRow(seg, i, codes[i]);
        assert codes[..i + 1][..i] == codes[..i];
        PlusAssociates(start, HvtecRows(seg, codes[..i]), HvtecPart(seg, i, codes[i]));
      }
      assert codes[..|codes|] == codes;
      return true;
    }

    method CollectPolygonRows(seg: Option<int>, shapes: seq<Polygon>) returns (ok: bool)
      modifies this
      ensures ok == Indexable(shapes)
      ensures ok ==> Contents() == Plus(old(Contents()), PolygonRows(seg, shapes))
    {
      PlusNothing(Contents());
      ghost var start := Contents();
      for i := 0 to |shapes|
        invariant i <= I32_MAX + 1
        invariant Contents() == Plus(start, PolygonRows(seg, shapes[..i]))
      {
        if i > I32_MAX {
          return false;
        }
        PushPolygonRow(seg, i, shapes[i]);
        assert shapes[..i + 1][..i] == shapes[..i];
        PlusAssociates(start, PolygonRows(seg, shapes[..i]), PolygonPart(seg, i, shapes[i]));
      }
      assert shapes[..|shapes|] == shapes;
      return true;
    }

    method CollectTimeMotLocRows(seg: Option<int>, entries: seq<TimeMotLoc>) returns (ok: bool)
      modifies this
      ensures ok == Indexable(entries)
      ensures ok ==> Contents() == Plus(old(Contents()), TimeMotLocRows(seg, entries))
    {
      PlusNothing(Contents());
      ghost var start := Contents();
      for i := 0 to |entries|
        invariant i <= I32_MAX + 1
        invariant Contents() == Plus(start, TimeMotLocRows(seg, entries[..i]))
      {
        if i > I32_MAX {
          return false;
        }
        PushTimeMotLocRow(seg, i, entries[i]);
        assert entries[..i + 1][..i] == entries[..i];
        PlusAssociates(start, TimeMotLocRows(seg, entries[..i]), TimeMotLocPart(seg, i, entries[i]));
      }
      assert entries[..|entries|] == entries;
      return true;
    }

    method CollectWindHailRows(seg: Option<int>, entries: seq<WindHail>) returns (ok: bool)
      modifies this
      ensures ok == Indexable(entries)
      ensures ok ==> Contents() == Plus(old(Contents()), WindHailRows(seg, entries))
    {
      PlusNothing(Contents());
      ghost var start := Contents();
      for i := 0 to |entries|
        invariant i <= I32_MAX + 1
        invariant Contents() == Plus(start, WindHailRows(seg, entries[..i]))
      {
        if i > I32_MAX {
          return false;
        }
        PushWindHailRow(seg, i, entries[i]);
        assert entries[..i + 1][..i] == entries[..i];
        PlusAssociates(start, WindHailRows(seg, entries[..i]), WindHailPart(seg, i, entries[i]));
      }
      assert entries[..|entries|] == entries;
      return true;
    }

    method CollectSegmentRows(s: Segment) returns (ok: bool)
      modifies this
      ensures ok == SegmentFits(s)
      ensures ok ==> Contents() == Plus(old(Contents()), SegmentRows(s))
    {
      if s.index > I32_MAX {
        return false;
      }
      var seg := Some(s.index);
      ghost var start := Contents();
      CollectVtecRows(seg, s.vtec);
      ghost var done := VtecRows(seg, s.vtec);
      var fits := CollectHvtecRows(seg, s.hvtec);
      if !fits { return false; }
      PlusAssociates(start, done, HvtecRows(seg, s.hvtec));
      done := Plus(done, HvtecRows(seg, s.hvtec));
      fits := CollectPolygonRows(seg, s.polygons);
      if !fits { return false; }
      PlusAssociates(start, done, PolygonRows(seg, s.polygons));
      done := Plus(done, PolygonRows(seg, s.polygons));
      fits := CollectTimeMotLocRows(seg, s.timeMotLoc);
      if !fits { return false; }
      PlusAssociates(start, done, TimeMotLocRows(seg, s.timeMotLoc));
      done := Plus(done, TimeMotLocRows(seg, s.timeMotLoc));
      fits := CollectWindHailRows(seg, s.windHail);
      if !fits { return false; }
      PlusAssociates(start, done, WindHailRows(seg, s.windHail));
      done := Plus(done, WindHailRows(seg, s.windHail));
      ok := CollectUgcRows(seg, s.ugcSections);
      PlusAssociates(start, done, UgcRows(seg, s.ugcSections));
    }

    method CollectVtecEventRows(segments: seq<Segment>) returns (ok: bool)
      modifies this
      ensures ok == AllFit(segments)
      ensures ok ==> Contents() == Plus(old(Contents()), SegmentsRows(segments))
    {
      PlusNothing(Contents());
      ghost var start := Contents();
      for i := 0 to |segments|
        invariant AllFit(segments[..i])
        invariant Contents() == Plus(start, SegmentsRows(segments[..i]))
      {
        ghost var before := Contents();
        var fits := CollectSegmentRows(segments[i]);
        AllFitAt(segments, i);
        if !fits {
          return false;
        }
        SegmentsStep(start, segments, i, before, Contents());
      }
      assert segments[..|segments|] == segments;
      return true;
    }

    /** An absent list has no rows. */
    method CollectGenericRows(ugc: Option<seq<Section>>, latlon: Option<seq<Polygon>>,
                              entries: Option<seq<TimeMotLoc>>, hail: Option<seq<WindHail>>) returns (ok: bool)
      modifies this
      ensures ok == BodyFits(Generic(ugc, latlon, entries, hail))
      ensures ok ==> Contents() == Plus(old(Contents()), RowsOfBody(Generic(ugc, latlon, entries, hail)))
    {
      ghost var start := Contents();
      ok := CollectUgcRows(None, OrEmpty(ugc));
      if !ok { return; }
      ghost var done := UgcRows(None, OrEmpty(ugc));
      ok := CollectPolygonRows(None, OrEmpty(latlon));
      if !ok { return; }
      PlusAssociates(start, done, PolygonRows(None, OrEmpty(latlon)));
      done := Plus(done, PolygonRows(None, OrEmpty(latlon)));
      ok := CollectTimeMotLocRows(None, OrEmpty(entries));
      if !ok { return; }
      PlusAssociates(start, done, TimeMotLocRows(None, OrEmpty(entries)));
      done := Plus(done, TimeMotLocRows(None, OrEmpty(entries)));
      ok := CollectWindHailRows(None, OrEmpty(hail));
      PlusAssociates(start, done, WindHailRows(None, OrEmpty(hail)));
    }

    /** Adds the rows of a body; fails exactly when an index does not fit. */
    method CollectBodyRows(body: ProductBody) returns (ok: bool)
      modifies this
      ensures ok == BodyFits(body)
      ensures ok ==> Contents() == Plus(old(Contents()), RowsOfBody(body))
    {
      match body {
        case VtecEvent(segments) => ok := CollectVtecEventRows(segments);
        case Generic(ugc, latlon, entries, hail) => ok := CollectGenericRows(ugc, latlon, entries, hail);
      }
    }
  }
}
