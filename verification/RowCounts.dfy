/**
 * Collected rows against the in-memory body: the same points, the same counts
 * and the same VTEC codes, although the two sides read in different orders.
 */
module RowCounts {
  import opened Prelude
  import opened Geo
  import opened UgcSection
  import opened IncidentUpdates
  import opened Body
  import opened BodyRows

  // ---------- counting occurrences ----------

  /** How often a point occurs. */
  function Times(s: seq<Point>, p: Point): nat {
    if s == [] then 0 else Times(s[..|s| - 1], p) + (if s[|s| - 1] == p then 1 else 0)
  }

  function Occurs(s: seq<SearchPointRow>, p: Point): nat {
    if s == [] then 0 else Occurs(s[..|s| - 1], p) + (if s[|s| - 1].at == p then 1 else 0)
  }

  lemma {:induction false} TimesAppend(a: seq<Point>, b: seq<Point>, p: Point)
    ensures Times(a + b, p) == Times(a, p) + Times(b, p)
  {
    if b == [] {
      assert a + b == a;
    } else {
      assert (a + b)[..|a + b| - 1] == a + b[..|b| - 1];
      TimesAppend(a, b[..|b| - 1], p);
    }
  }

  lemma {:induction false} OccursAppend(a: seq<SearchPointRow>, b: seq<SearchPointRow>, p: Point)
    ensures Occurs(a + b, p) == Occurs(a, p) + Occurs(b, p)
  {
    if b == [] {
      assert a + b == a;
    } else {
      assert (a + b)[..|a + b| - 1] == a + b[..|b| - 1];
      OccursAppend(a, b[..|b| - 1], p);
    }
  }

  /** The coordinates of search points, with multiplicity. */
  function Coordinates(s: seq<SearchPointRow>): multiset<Point> {
    if s == [] then multiset{} else Coordinates(s[..|s| - 1]) + multiset{s[|s| - 1].at}
  }

  lemma {:induction false} CoordinatesOccur(s: seq<SearchPointRow>, p: Point)
    ensures Coordinates(s)[p] == Occurs(s, p)
  {
    if s != [] {
      CoordinatesOccur(s[..|s| - 1], p);
    }
  }

  lemma {:induction false} MultisetTimes(s: seq<Point>, p: Point)
    ensures multiset(s)[p] == Times(s, p)
  {
    if s != [] {
      MultisetTimes(s[..|s| - 1], p);
      assert s == s[..|s| - 1] + [s[|s| - 1]];
    }
  }

  /** Row counts, and how often one point occurs among the search points. */
  datatype Tally = Tally(point: nat, vtec: nat, hvtec: nat, polygons: nat, timeMotLoc: nat, windHail: nat, areas: nat)

  const ZERO := Tally(0, 0, 0, 0, 0, 0, 0)

  function TallyOf(r: Rows, p: Point): Tally {
    Tally(Occurs(r.searchPoints, p), |r.vtec|, |r.hvtec|, |r.polygons|, |r.timeMotLoc|, |r.windHail|, |r.ugcAreas|)
  }

  function Add(a: Tally, b: Tally): Tally {
    Tally(a.point + b.point, a.vtec + b.vtec, a.hvtec + b.hvtec, a.polygons + b.polygons,
          a.timeMotLoc + b.timeMotLoc, a.windHail + b.windHail, a.areas + b.areas)
  }

  lemma TallyPlus(a: Rows, b: Rows, p: Point)
    ensures TallyOf(Plus(a, b), p) == Add(TallyOf(a, p), TallyOf(b, p))
  {
    OccursAppend(a.searchPoints, b.searchPoints, p);
  }

  lemma {:induction false} OccursOne(row: SearchPointRow, p: Point)
    ensures Occurs([row], p) == if row.at == p then 1 else 0
  {
    assert [row][..0] == [];
  }

  lemma {:induction false} TimesOne(q: Point, p: Point)
    ensures Times([q], p) == if q == p then 1 else 0
  {
    assert [q][..0] == [];
  }

  lemma {:induction false} PathOccurs(i: int, points: seq<Point>, p: Point)
    ensures Occurs(PathRows(i, points), p) == Times(points, p)
  {
    if points != [] {
      var n := |points| - 1;
      PathOccurs(i, points[..n], p);
      assert PathRows(i, points)[..n] == PathRows(i, points[..n]);
    }
  }

  // ---------- part by part ----------

  lemma {:induction false} VtecTally(seg: Option<int>, s: seq<VtecCode>, p: Point)
    ensures TallyOf(VtecRows(seg, s), p) == ZERO.(vtec := |s|)
  {
    if s != [] {
      VtecTally(seg, s[..|s| - 1], p);
      TallyPlus(VtecRows(seg, s[..|s| - 1]), VtecPart(seg, s[|s| - 1]), p);
    }
  }

  lemma {:induction false} HvtecTally(seg: Option<int>, s: seq<HvtecCode>, p: Point)
    ensures TallyOf(HvtecRows(seg, s), p) == ZERO.(point := Times(Flatten(GaugePoint, s), p), hvtec := |s|)
  {
    if s != [] {
      var last := s[|s| - 1];
      HvtecTally(seg, s[..|s| - 1], p);
      TallyPlus(HvtecRows(seg, s[..|s| - 1]), HvtecPart(seg, |s| - 1, last), p);
      TimesAppend(Flatten(GaugePoint, s[..|s| - 1]), GaugePoint(last), p);
      if last.location.Some? {
        OccursOne(SearchPointRow(FromHvtec, |s| - 1, last.location.value.at), p);
        TimesOne(last.location.value.at, p);
      }
    }
  }

  lemma {:induction false} PolygonTally(seg: Option<int>, s: seq<Polygon>, p: Point)
    ensures TallyOf(PolygonRows(seg, s), p) == ZERO.(polygons := |s|)
  {
    if s != [] {
      PolygonTally(seg, s[..|s| - 1], p);
      TallyPlus(PolygonRows(seg, s[..|s| - 1]), PolygonPart(seg, |s| - 1, s[|s| - 1]), p);
    }
  }

  lemma {:induction false} TimeMotLocTally(seg: Option<int>, s: seq<TimeMotLoc>, p: Point)
    ensures TallyOf(TimeMotLocRows(seg, s), p) == ZERO.(point := Times(Flatten(PathPoints, s), p), timeMotLoc := |s|)
  {
    if s != [] {
      var last := s[|s| - 1];
      TimeMotLocTally(seg, s[..|s| - 1], p);
      TallyPlus(TimeMotLocRows(seg, s[..|s| - 1]), TimeMotLocPart(seg, |s| - 1, last), p);
      TimesAppend(Flatten(PathPoints, s[..|s| - 1]), last.points, p);
      PathOccurs(|s| - 1, last.points, p);
    }
  }

  lemma {:induction false} WindHailTally(seg: Option<int>, s: seq<WindHail>, p: Point)
    ensures TallyOf(WindHailRows(seg, s), p) == ZERO.(windHail := |s|)
  {
    if s != [] {
      WindHailTally(seg, s[..|s| - 1], p);
      TallyPlus(WindHailRows(seg, s[..|s| - 1]), WindHailPart(seg, |s| - 1, s[|s| - 1]), p);
    }
  }

  lemma {:induction false} AreaTally(at: Place, state: string, s: seq<Area>, p: Point)
    ensures TallyOf(AreaRows(at, state, s), p) == ZERO.(point := Times(AreaPoints(s), p), areas := |s|)
  {
    if s != [] {
      var last := s[|s| - 1];
      AreaTally(at, state, s[..|s| - 1], p);
      TallyPlus(AreaRows(at, state, s[..|s| - 1]), AreaPart(at, state, last), p);
      if last.lat.Some? && last.lon.Some? {
        var q := Point(last.lat.value, last.lon.value);
        OccursOne(SearchPointRow(FromArea(at.kind), at.section, q), p);
        TimesOne(q, p);
        TimesAppend(AreaPoints(s[..|s| - 1]), [q], p);
      } else {
        assert AreaPoints(s[..|s| - 1]) + [] == AreaPoints(s[..|s| - 1]);
      }
    }
  }

  function EntryAreas(e: (string, seq<Area>)): seq<Area> { e.1 }

  lemma {:induction false} BucketTally(at: Place, b: Bucket, p: Point)
    ensures TallyOf(BucketRows(at, b), p)
         == ZERO.(point := Times(Flatten(EntryPoints, b), p), areas := Sum(EntryAreas, b))
  {
    if b != [] {
      var last := b[|b| - 1];
      BucketTally(at, b[..|b| - 1], p);
      AreaTally(at, last.0, last.1, p);
      TallyPlus(BucketRows(at, b[..|b| - 1]), AreaRows(at, last.0, last.1), p);
      TimesAppend(Flatten(EntryPoints, b[..|b| - 1]), AreaPoints(last.1), p);
    }
  }

  function KindPoints(s: Section, kinds: seq<Kind>): seq<Point> {
    if kinds == [] then []
    else KindPoints(s, kinds[..|kinds| - 1]) + Flatten(EntryPoints, BucketOf(s, kinds[|kinds| - 1]))
  }

  function KindAreas(s: Section, kinds: seq<Kind>): nat {
    if kinds == [] then 0
    else KindAreas(s, kinds[..|kinds| - 1]) + Sum(EntryAreas, BucketOf(s, kinds[|kinds| - 1]))
  }

  lemma {:induction false} KindsTally(seg: Option<int>, i: int, s: Section, kinds: seq<Kind>, p: Point)
    ensures TallyOf(KindsRows(seg, i, s, kinds), p)
         == ZERO.(point := Times(KindPoints(s, kinds), p), areas := KindAreas(s, kinds))
  {
    if kinds != [] {
      var kind := kinds[|kinds| - 1];
      KindsTally(seg, i, s, kinds[..|kinds| - 1], p);
      BucketTally(Place(seg, i, kind, s.expires), BucketOf(s, kind), p);
      TallyPlus(KindsRows(seg, i, s, kinds[..|kinds| - 1]), KindRows(seg, i, s, kind), p);
      TimesAppend(KindPoints(s, kinds[..|kinds| - 1]), Flatten(EntryPoints, BucketOf(s, kind)), p);
    }
  }

  lemma {:induction false} FourKinds(s: Section)
    ensures KindPoints(s, KINDS) == SectionPoints(s)
  {
    assert KINDS[..3] == [Counties, Zones, FireZones];
    assert [Counties, Zones, FireZones][..2] == [Counties, Zones];
    assert [Counties, Zones][..1] == [Counties];
    assert [Counties][..0] == [];
    assert KindPoints(s, []) == [];
    assert KindPoints(s, [Counties]) == Flatten(EntryPoints, s.counties);
    assert KindPoints(s, [Counties, Zones]) == Flatten(EntryPoints, s.counties) + Flatten(EntryPoints, s.zones);
    assert KindPoints(s, [Counties, Zones, FireZones])
        == Flatten(EntryPoints, s.counties) + Flatten(EntryPoints, s.zones) + Flatten(EntryPoints, s.fireZones);
  }

  function SectionsAreas(s: seq<Section>): nat {
    if s == [] then 0 else SectionsAreas(s[..|s| - 1]) + KindAreas(s[|s| - 1], KINDS)
  }

  lemma {:induction false} SectionTally(seg: Option<int>, i: int, s: Section, p: Point)
    ensures TallyOf(SectionRows(seg, i, s), p)
         == ZERO.(point := Times(SectionPoints(s), p), areas := KindAreas(s, KINDS))
  {
    KindsTally(seg, i, s, KINDS, p);
    FourKinds(s);
  }

  /** A list of row collections, one after the other. */
  function Concat<A>(part: (A, nat) -> Rows, s: seq<A>): Rows {
    if s == [] then NOTHING else Plus(Concat(part, s[..|s| - 1]), part(s[|s| - 1], |s| - 1))
  }

  function Weight<A>(weigh: A -> Tally, s: seq<A>): Tally {
    if s == [] then ZERO else Add(Weight(weigh, s[..|s| - 1]), weigh(s[|s| - 1]))
  }

  /** What holds of the points and counts of each part holds of them all. */
  lemma {:induction false} ConcatTally<A(!new)>(part: (A, nat) -> Rows, weigh: A -> Tally, points: A -> seq<Point>,
                                                s: seq<A>, p: Point)
    requires forall x, i :: TallyOf(part(x, i), p) == weigh(x)
    requires forall x :: weigh(x).point == Times(points(x), p)
    ensures TallyOf(Concat(part, s), p) == Weight(weigh, s)
    ensures Weight(weigh, s).point == Times(Flatten(points, s), p)
  {
    if s != [] {
      var last := s[|s| - 1];
      ConcatTally(part, weigh, points, s[..|s| - 1], p);
      TallyPlus(Concat(part, s[..|s| - 1]), part(last, |s| - 1), p);
      TimesAppend(Flatten(points, s[..|s| - 1]), points(last), p);
      assert TallyOf(part(last, |s| - 1), p) == weigh(last);
    }
  }

  function SectionPart(seg: Option<int>): (Section, nat) -> Rows {
    (s, i) => SectionRows(seg, i, s)
  }

  function SectionWeight(p: Point): Section -> Tally {
    s => ZERO.(point := Times(SectionPoints(s), p), areas := KindAreas(s, KINDS))
  }

  lemma {:induction false} UgcIsConcat(seg: Option<int>, s: seq<Section>)
    ensures UgcRows(seg, s) == Concat(SectionPart(seg), s)
  {
    if s != [] {
      UgcIsConcat(seg, s[..|s| - 1]);
    }
  }

  lemma {:induction false} UgcTotal(s: seq<Section>, p: Point)
    ensures Weight(SectionWeight(p), s) == ZERO.(point := Weight(SectionWeight(p), s).point, areas := SectionsAreas(s))
  {
    if s != [] {
      UgcTotal(s[..|s| - 1], p);
    }
  }

  lemma {:induction false} UgcTally(seg: Option<int>, s: seq<Section>, p: Point)
    ensures TallyOf(UgcRows(seg, s), p)
         == ZERO.(point := Times(Flatten(SectionPoints, s), p), areas := SectionsAreas(s))
  {
    forall x, i: nat ensures TallyOf(SectionPart(seg)(x, i), p) == SectionWeight(p)(x) {
      SectionTally(seg, i, x, p);
    }
    ConcatTally(SectionPart(seg), SectionWeight(p), SectionPoints, s, p);
    UgcIsConcat(seg, s);
    UgcTotal(s, p);
  }

  /** What the segment holds, counted without regard to order. */
  function SegmentCounts(s: Segment, p: Point): Tally {
    Tally(Times(SegmentPoints(s), p), |s.vtec|, |s.hvtec|, |s.polygons|, |s.timeMotLoc|, |s.windHail|,
          SectionsAreas(s.ugcSections))
  }

  lemma SegmentTally(s: Segment, p: Point)
    ensures TallyOf(SegmentRows(s), p) == SegmentCounts(s, p)
  {
    var seg := Some(s.index);
    var a, b, c := VtecRows(seg, s.vtec), HvtecRows(seg, s.hvtec), PolygonRows(seg, s.polygons);
    var d, e, f := TimeMotLocRows(seg, s.timeMotLoc), WindHailRows(seg, s.windHail), UgcRows(seg, s.ugcSections);
    TallyPlus(a, b, p);
    TallyPlus(Plus(a, b), c, p);
    TallyPlus(Plus(Plus(a, b), c), d, p);
    TallyPlus(Plus(Plus(Plus(a, b), c), d), e, p);
    TallyPlus(Plus(Plus(Plus(Plus(a, b), c), d), e), f, p);
    VtecTally(seg, s.vtec, p);
    HvtecTally(seg, s.hvtec, p);
    PolygonTally(seg, s.polygons, p);
    TimeMotLocTally(seg, s.timeMotLoc, p);
    WindHailTally(seg, s.windHail, p);
    UgcTally(seg, s.ugcSections, p);
    SegmentTimes(s, p);
  }

  lemma {:induction false} SegmentTimes(s: Segment, p: Point)
    ensures Times(SegmentPoints(s), p)
         == Times(Flatten(GaugePoint, s.hvtec), p) + Times(Flatten(PathPoints, s.timeMotLoc), p)
             + Times(Flatten(SectionPoints, s.ugcSections), p)
  {
    TimesAppend(Flatten(PathPoints, s.timeMotLoc), Flatten(SectionPoints, s.ugcSections), p);
    TimesAppend(Flatten(PathPoints, s.timeMotLoc) + Flatten(SectionPoints, s.ugcSections), Flatten(GaugePoint, s.hvtec),
                p);
  }

  function SegmentsAreas(s: seq<Segment>): nat {
    if s == [] then 0 else SegmentsAreas(s[..|s| - 1]) + SectionsAreas(s[|s| - 1].ugcSections)
  }

  function FromCounts(points: seq<Point>, c: Counts, areas: nat, p: Point): Tally {
    Tally(Times(points, p), c.vtec, c.hvtec, c.latlon, c.timeMotLoc, c.windHail, areas)
  }

  function SegmentPart(): (Segment, nat) -> Rows {
    (s, i) => SegmentRows(s)
  }

  function SegmentWeight(p: Point): Segment -> Tally {
    s => SegmentCounts(s, p)
  }

  lemma {:induction false} SegmentsIsConcat(s: seq<Segment>)
    ensures SegmentsRows(s) == Concat(SegmentPart(), s)
  {
    if s != [] {
      SegmentsIsConcat(s[..|s| - 1]);
    }
  }

  lemma {:induction false} SegmentsTotal(s: seq<Segment>, p: Point)
    ensures var t, c := Weight(SegmentWeight(p), s), FilterLengths(VtecEvent(s));
      t == Tally(t.point, c.vtec, c.hvtec, c.latlon, c.timeMotLoc, c.windHail, SegmentsAreas(s))
  {
    if s != [] {
      SegmentsTotal(s[..|s| - 1], p);
    }
  }

  lemma {:induction false} SegmentsTally(s: seq<Segment>, p: Point)
    ensures TallyOf(SegmentsRows(s), p)
         == FromCounts(Flatten(SegmentPoints, s), FilterLengths(VtecEvent(s)), SegmentsAreas(s), p)
  {
    forall x, i: nat ensures TallyOf(SegmentPart()(x, i), p) == SegmentWeight(p)(x) {
      SegmentTally(x, p);
    }
    ConcatTally(SegmentPart(), SegmentWeight(p), SegmentPoints, s, p);
    SegmentsIsConcat(s);
    SegmentsTotal(s, p);
  }

  function BodyAreas(body: ProductBody): nat {
    if body.VtecEvent? then SegmentsAreas(body.segments) else SectionsAreas(OrEmpty(body.ugc))
  }

  lemma RowsTally(body: ProductBody, p: Point)
    ensures TallyOf(RowsOfBody(body), p) == FromCounts(LocationPoints(body), FilterLengths(body), BodyAreas(body), p)
  {
    match body
    case VtecEvent(segments) => SegmentsTally(segments, p);
    case Generic(ugc, latlon, entries, hail) =>
      var a, b := UgcRows(None, OrEmpty(ugc)), PolygonRows(None, OrEmpty(latlon));
      var c, d := TimeMotLocRows(None, OrEmpty(entries)), WindHailRows(None, OrEmpty(hail));
      TallyPlus(a, b, p);
      TallyPlus(Plus(a, b), c, p);
      TallyPlus(Plus(Plus(a, b), c), d, p);
      UgcTally(None, OrEmpty(ugc), p);
      PolygonTally(None, OrEmpty(latlon), p);
      TimeMotLocTally(None, OrEmpty(entries), p);
      WindHailTally(None, OrEmpty(hail), p);
      TimesAppend(Flatten(PathPoints, OrEmpty(entries)), Flatten(SectionPoints, OrEmpty(ugc)), p);
  }

  /** Search points are the location points, in some order; row counts are the summary's facet counts. */
  lemma RowsMatchBody(body: ProductBody)
    ensures var r, c := RowsOfBody(body), SummaryCounts(body);
      && Coordinates(r.searchPoints) == multiset(LocationPoints(body))
      && |r.vtec| == c.vtec && |r.hvtec| == c.hvtec && |r.polygons| == c.latlon
      && |r.timeMotLoc| == c.timeMotLoc && |r.windHail| == c.windHail && |r.ugcAreas| == BodyAreas(body)
  {
    CountsAgree(body);
    var r := RowsOfBody(body);
    forall p ensures Coordinates(r.searchPoints)[p] == multiset(LocationPoints(body))[p] {
      RowsTally(body, p);
      CoordinatesOccur(r.searchPoints, p);
      MultisetTimes(LocationPoints(body), p);
    }
    RowsTally(body, Point(0.0, 0.0));
  }

  // ---------- VTEC codes ----------

  function CodesOf(rows: seq<ProductVtecRow>): seq<VtecRow> {
    if rows == [] then [] else CodesOf(rows[..|rows| - 1]) + [rows[|rows| - 1].code]
  }

  function CodeRows(codes: seq<VtecCode>): seq<VtecRow> {
    if codes == [] then [] else CodeRows(codes[..|codes| - 1]) + [CodeRow(codes[|codes| - 1])]
  }

  function BodyCodes(body: ProductBody): seq<VtecCode> {
    if body.VtecEvent? then Flatten(VtecOf, body.segments) else []
  }

  lemma {:induction false} CodesOfAppend(a: seq<ProductVtecRow>, b: seq<ProductVtecRow>)
    ensures CodesOf(a + b) == CodesOf(a) + CodesOf(b)
  {
    if b == [] {
      assert a + b == a;
    } else {
      assert (a + b)[..|a + b| - 1] == a + b[..|b| - 1];
      CodesOfAppend(a, b[..|b| - 1]);
    }
  }

  lemma {:induction false} CodeRowsAppend(a: seq<VtecCode>, b: seq<VtecCode>)
    ensures CodeRows(a + b) == CodeRows(a) + CodeRows(b)
  {
    if b == [] {
      assert a + b == a;
    } else {
      assert (a + b)[..|a + b| - 1] == a + b[..|b| - 1];
      CodeRowsAppend(a, b[..|b| - 1]);
    }
  }

  lemma {:induction false} VtecPartCodes(seg: Option<int>, s: seq<VtecCode>)
    ensures CodesOf(VtecRows(seg, s).vtec) == CodeRows(s)
  {
    if s != [] {
      VtecPartCodes(seg, s[..|s| - 1]);
      var rows := VtecRows(seg, s[..|s| - 1]).vtec;
      CodesOfAppend(rows, [ProductVtecRow(seg, CodeRow(s[|s| - 1]))]);
      assert [ProductVtecRow(seg, CodeRow(s[|s| - 1]))][..0] == [];
    }
  }

  lemma NoOtherCodes(s: Segment)
    ensures SegmentRows(s).vtec == VtecRows(Some(s.index), s.vtec).vtec
  {
    var seg, p := Some(s.index), Point(0.0, 0.0);
    HvtecTally(seg, s.hvtec, p);
    PolygonTally(seg, s.polygons, p);
    TimeMotLocTally(seg, s.timeMotLoc, p);
    WindHailTally(seg, s.windHail, p);
    UgcTally(seg, s.ugcSections, p);
    var own := VtecRows(seg, s.vtec).vtec;
    assert own + [] == own;
  }

  lemma {:induction false} SegmentsCodes(s: seq<Segment>)
    ensures CodesOf(SegmentsRows(s).vtec) == CodeRows(Flatten(VtecOf, s))
  {
    if s != [] {
      var last := s[|s| - 1];
      SegmentsCodes(s[..|s| - 1]);
      NoOtherCodes(last);
      VtecPartCodes(Some(last.index), last.vtec);
      CodesOfAppend(SegmentsRows(s[..|s| - 1]).vtec, SegmentRows(last).vtec);
      CodeRowsAppend(Flatten(VtecOf, s[..|s| - 1]), last.vtec);
    }
  }

  /** The VTEC rows are the codes of the body, in source order. */
  lemma VtecRowsInOrder(body: ProductBody)
    ensures CodesOf(RowsOfBody(body).vtec) == CodeRows(BodyCodes(body))
  {
    match body
    case VtecEvent(segments) => SegmentsCodes(segments);
    case Generic(_, _, _, _) =>
      RowsMatchBody(body);
      assert |RowsOfBody(body).vtec| == 0;
  }

  // ---------- preparing a product ----------

  predicate CountsFit(c: Counts) {
    && c.vtec <= I32_MAX && c.ugc <= I32_MAX && c.hvtec <= I32_MAX && c.latlon <= I32_MAX
    && c.timeMotLoc <= I32_MAX && c.windHail <= I32_MAX
  }

  predicate IndexesFit(s: seq<Segment>) {
    s == [] || (IndexesFit(s[..|s| - 1]) && s[|s| - 1].index <= I32_MAX)
  }

  lemma {:induction false} FittingSegments(s: seq<Segment>)
    requires CountsFit(FilterLengths(VtecEvent(s)))
    ensures AllFit(s) == IndexesFit(s)
  {
    if s != [] {
      FittingSegments(s[..|s| - 1]);
    }
  }

  /** Once the counts fit, only a segment index can still fail to fit. */
  lemma CountsBoundIndexes(body: ProductBody)
    requires CountsFit(SummaryCounts(body))
    ensures BodyFits(body) <==> (body.VtecEvent? ==> IndexesFit(body.segments))
  {
    CountsAgree(body);
    if body.VtecEvent? {
      FittingSegments(body.segments);
    }
  }

  const NO_COUNTS := Counts(0, 0, 0, 0, 0, 0)

  /** The role of a stored blob; a product needs its payload stored. */
  datatype BlobRole = Payload | MetadataSidecar

  predicate Preparable(body: Option<ProductBody>, blobs: seq<BlobRole>, timestamp: nat, size: nat, issueCount: nat,
                       issuedAt: Option<int>)
  {
    && Payload in blobs
    && timestamp <= I64_MAX && size <= I64_MAX && issueCount <= I32_MAX && issuedAt.Some?
    && CountsFit(if body.Some? then SummaryCounts(body.value) else NO_COUNTS)
    && (body.Some? && body.value.VtecEvent? ==> IndexesFit(body.value.segments))
  }

  method CodesOfRows(rows: seq<ProductVtecRow>) returns (codes: seq<VtecRow>)
    ensures codes == CodesOf(rows)
  {
    codes := [];
    for i := 0 to |rows|
      invariant codes == CodesOf(rows[..i])
    {
      codes := codes + [rows[i].code];
      assert rows[..i + 1][..i] == rows[..i];
    }
    assert rows[..|rows|] == rows;
  }

  /** Rows and incident updates of one product; `issuedAt` is its timestamp as an instant, absent when out of range. */
  method Prepare(body: Option<ProductBody>, blobs: seq<BlobRole>, timestamp: nat, size: nat, issueCount: nat,
                 issuedAt: Option<int>)
    returns (r: Result<seq<Update>, ()>, prepared: PreparedProduct)
    ensures fresh(prepared)
    ensures r.Ok? <==> Preparable(body, blobs, timestamp, size, issueCount, issuedAt)
    ensures r.Ok? ==> prepared.Contents() == if body.Some? then RowsOfBody(body.value) else NOTHING
    ensures r.Ok? ==> IsSummaryOf(r.value, if body.Some? then CodeRows(BodyCodes(body.value)) else [], issuedAt.value)
  {
    prepared := new PreparedProduct();
    if Payload !in blobs || timestamp > I64_MAX || size > I64_MAX {
      return Err(()), prepared;
    }
    var counts := if body.Some? then SummaryCounts(body.value) else NO_COUNTS;
    if !CountsFit(counts) || issueCount > I32_MAX {
      return Err(()), prepared;
    }
    if body.Some? {
      CountsBoundIndexes(body.value);
      PlusNothing(RowsOfBody(body.value));
      var ok := prepared.CollectBodyRows(body.value);
      if !ok {
        return Err(()), prepared;
      }
      VtecRowsInOrder(body.value);
    }
    var codes := CodesOfRows(prepared.vtec);
    r := PrepareIncidentUpdates(issuedAt, codes);
  }
}
