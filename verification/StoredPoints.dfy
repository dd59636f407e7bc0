/**
 * Where the search points of a product come from: every located area, every
 * gauge with a place and every point of a path, and nothing else.
 */
module StoredPoints {
  import opened Prelude
  import opened Geo
  import opened UgcSection
  import opened Body
  import opened BodyRows
  import opened StoredRows

  predicate OfArea(r: SearchPointRow, l: LocatedArea) {
    && l.area.lat == Some(r.at.lat) && l.area.lon == Some(r.at.lon)
    && r.source == FromArea(l.kind) && r.sourceIndex == l.section
  }

  predicate OfGauge(r: SearchPointRow, l: Located<HvtecCode>) {
    && l.part.location.Some? && r.at == l.part.location.value.at
    && r.source == FromHvtec && r.sourceIndex == l.index
  }

  predicate OfPath(r: SearchPointRow, l: Located<TimeMotLoc>) {
    r.at in l.part.points && r.source == FromTimeMotLoc && r.sourceIndex == l.index
  }

  /** The parts that may give points. */
  datatype Sources = Sources(areas: seq<LocatedArea>, gauges: seq<Located<HvtecCode>>, paths: seq<Located<TimeMotLoc>>)

  ghost predicate FromSources(r: SearchPointRow, s: Sources) {
    || (exists l :: l in s.areas && OfArea(r, l))
    || (exists l :: l in s.gauges && OfGauge(r, l))
    || (exists l :: l in s.paths && OfPath(r, l))
  }

  ghost predicate PointsAre(points: seq<SearchPointRow>, s: Sources) {
    forall r :: r in points <==> FromSources(r, s)
  }

  function Both(s: Sources, t: Sources): Sources {
    Sources(s.areas + t.areas, s.gauges + t.gauges, s.paths + t.paths)
  }

  lemma FromBoth(r: SearchPointRow, s: Sources, t: Sources)
    ensures FromSources(r, Both(s, t)) <==> FromSources(r, s) || FromSources(r, t)
  {
    var b := Both(s, t);
    if l :| l in s.areas && OfArea(r, l) {
      assert l in b.areas;
    }
    if l :| l in s.gauges && OfGauge(r, l) {
      assert l in b.gauges;
    }
    if l :| l in s.paths && OfPath(r, l) {
      assert l in b.paths;
    }
    if l :| l in t.areas && OfArea(r, l) {
      assert l in b.areas;
    }
    if l :| l in t.gauges && OfGauge(r, l) {
      assert l in b.gauges;
    }
    if l :| l in t.paths && OfPath(r, l) {
      assert l in b.paths;
    }
  }

  lemma PointsAppend(a: seq<SearchPointRow>, b: seq<SearchPointRow>, s: Sources, t: Sources)
    requires PointsAre(a, s) && PointsAre(b, t)
    ensures PointsAre(a + b, Both(s, t))
  {
    forall r ensures r in a + b <==> FromSources(r, Both(s, t)) {
      FromBoth(r, s, t);
    }
  }

  const NO_SOURCES := Sources([], [], [])

  lemma NoPoints()
    ensures PointsAre([], NO_SOURCES)
  {
  }

  // ---------- gauges and paths ----------

  lemma GaugePartPoints(seg: Option<int>, i: int, h: HvtecCode)
    ensures PointsAre(HvtecPart(seg, i, h).searchPoints, Sources([], [Located(seg, i, h)], []))
  {
    var l, s := Located(seg, i, h), Sources([], [Located(seg, i, h)], []);
    assert l in s.gauges;
    forall r ensures r in HvtecPart(seg, i, h).searchPoints <==> FromSources(r, s) {
      if r in HvtecPart(seg, i, h).searchPoints {
        assert OfGauge(r, l);
      }
    }
  }

  lemma {:induction false} GaugePoints(seg: Option<int>, s: seq<HvtecCode>)
    ensures PointsAre(HvtecRows(seg, s).searchPoints, Sources([], Numbered(seg, s), []))
  {
    if s == [] {
      NoPoints();
    } else {
      var n := |s| - 1;
      GaugePoints(seg, s[..n]);
      GaugePartPoints(seg, n, s[n]);
      NumberedPush(seg, s);
      var a, b := Sources([], Numbered(seg, s[..n]), []), Sources([], [Located(seg, n, s[n])], []);
      PointsAppend(HvtecRows(seg, s[..n]).searchPoints, HvtecPart(seg, n, s[n]).searchPoints, a, b);
      assert Both(a, b) == Sources([], Numbered(seg, s), []);
    }
  }

  lemma PathPartPoints(seg: Option<int>, i: int, t: TimeMotLoc)
    ensures PointsAre(TimeMotLocPart(seg, i, t).searchPoints, Sources([], [], [Located(seg, i, t)]))
  {
    var l, s := Located(seg, i, t), Sources([], [], [Located(seg, i, t)]);
    var rows := PathRows(i, t.points);
    assert l in s.paths;
    forall r ensures r in rows <==> FromSources(r, s) {
      if r in rows {
        assert OfPath(r, l);
      }
      if OfPath(r, l) {
        var k :| 0 <= k < |t.points| && t.points[k] == r.at;
        assert rows[k] == r;
      }
    }
  }

  lemma {:induction false} PathPointsAre(seg: Option<int>, s: seq<TimeMotLoc>)
    ensures PointsAre(TimeMotLocRows(seg, s).searchPoints, Sources([], [], Numbered(seg, s)))
  {
    if s == [] {
      NoPoints();
    } else {
      var n := |s| - 1;
      PathPointsAre(seg, s[..n]);
      PathPartPoints(seg, n, s[n]);
      NumberedPush(seg, s);
      var a, b := Sources([], [], Numbered(seg, s[..n])), Sources([], [], [Located(seg, n, s[n])]);
      PointsAppend(TimeMotLocRows(seg, s[..n]).searchPoints, TimeMotLocPart(seg, n, s[n]).searchPoints, a, b);
      assert Both(a, b) == Sources([], [], Numbered(seg, s));
    }
  }

  // ---------- areas ----------

  function OnlyFrom(areas: seq<LocatedArea>): Sources {
    Sources(areas, [], [])
  }

  lemma OnlyAppend(a: seq<SearchPointRow>, b: seq<SearchPointRow>, p: seq<LocatedArea>, q: seq<LocatedArea>)
    requires PointsAre(a, OnlyFrom(p)) && PointsAre(b, OnlyFrom(q))
    ensures PointsAre(a + b, OnlyFrom(p + q))
  {
    PointsAppend(a, b, OnlyFrom(p), OnlyFrom(q));
  }

  lemma AreaPartPoints(at: Place, state: string, a: Area)
    ensures PointsAre(AreaPart(at, state, a).searchPoints,
                      OnlyFrom([LocatedArea(at.seg, at.section, at.kind, state, at.expires, a)]))
  {
    var l := LocatedArea(at.seg, at.section, at.kind, state, at.expires, a);
    assert l in [l];
    forall r ensures r in AreaPart(at, state, a).searchPoints <==> FromSources(r, OnlyFrom([l])) {
      if r in AreaPart(at, state, a).searchPoints {
        assert OfArea(r, l);
      }
    }
  }

  lemma {:induction false} AreaRowsPoints(at: Place, state: string, s: seq<Area>)
    ensures PointsAre(AreaRows(at, state, s).searchPoints, OnlyFrom(AreasAt(at, state, s)))
  {
    if s == [] {
      NoPoints();
    } else {
      var last, t := s[|s| - 1], s[..|s| - 1];
      AreaRowsPoints(at, state, t);
      AreaPartPoints(at, state, last);
      var l := LocatedArea(at.seg, at.section, at.kind, state, at.expires, last);
      OnlyAppend(AreaRows(at, state, t).searchPoints, AreaPart(at, state, last).searchPoints, AreasAt(at, state, t),
                 [l]);
      assert AreasAt(at, state, s) == AreasAt(at, state, t) + [l];
    }
  }

  lemma {:induction false} BucketPoints(at: Place, b: Bucket)
    ensures PointsAre(BucketRows(at, b).searchPoints, OnlyFrom(AreasInBucket(at, b)))
  {
    if b == [] {
      NoPoints();
    } else {
      var last, c := b[|b| - 1], b[..|b| - 1];
      BucketPoints(at, c);
      AreaRowsPoints(at, last.0, last.1);
      OnlyAppend(BucketRows(at, c).searchPoints, AreaRows(at, last.0, last.1).searchPoints,
                 AreasInBucket(at, c), AreasAt(at, last.0, last.1));
    }
  }

  lemma SectionPointsAre(seg: Option<int>, i: int, s: Section)
    ensures PointsAre(SectionRows(seg, i, s).searchPoints, OnlyFrom(AreasInSection(seg, i, s)))
  {
    FourBuckets(seg, i, s);
    var c, z := Place(seg, i, Counties, s.expires), Place(seg, i, Zones, s.expires);
    var f, m := Place(seg, i, FireZones, s.expires), Place(seg, i, MarineZones, s.expires);
    BucketPoints(c, s.counties);
    BucketPoints(z, s.zones);
    BucketPoints(f, s.fireZones);
    BucketPoints(m, s.marineZones);
    var a, b := BucketRows(c, s.counties).searchPoints, BucketRows(z, s.zones).searchPoints;
    var p, q := AreasInBucket(c, s.counties), AreasInBucket(z, s.zones);
    OnlyAppend(a, b, p, q);
    OnlyAppend(a + b, BucketRows(f, s.fireZones).searchPoints, p + q, AreasInBucket(f, s.fireZones));
    OnlyAppend(a + b + BucketRows(f, s.fireZones).searchPoints, BucketRows(m, s.marineZones).searchPoints,
               p + q + AreasInBucket(f, s.fireZones), AreasInBucket(m, s.marineZones));
  }

  lemma {:induction false} SectionsPointsAre(seg: Option<int>, s: seq<Section>)
    ensures PointsAre(UgcRows(seg, s).searchPoints, OnlyFrom(AreasInSections(seg, s)))
  {
    if s == [] {
      NoPoints();
    } else {
      var n := |s| - 1;
      SectionsPointsAre(seg, s[..n]);
      SectionPointsAre(seg, n, s[n]);
      OnlyAppend(UgcRows(seg, s[..n]).searchPoints, SectionRows(seg, n, s[n]).searchPoints,
                 AreasInSections(seg, s[..n]), AreasInSection(seg, n, s[n]));
    }
  }

  // ---------- bodies ----------

  function SegmentSources(s: seq<Segment>): Sources {
    Sources(AreasInSegments(s), InSegments(HvtecOf, s), InSegments(TimeMotLocOf, s))
  }

  function BodySources(body: ProductBody): Sources {
    match body
    case VtecEvent(segments) => SegmentSources(segments)
    case Generic(ugc, latlon, entries, hail) =>
      Sources(AreasInSections(None, OrEmpty(ugc)), [], Numbered(None, OrEmpty(entries)))
  }

  /** A segment's points come gauge by gauge, then path by path, then area by area. */
  lemma OneSegmentPoints(s: Segment)
    ensures var seg := Some(s.index);
      PointsAre(SegmentRows(s).searchPoints,
                Sources(AreasInSections(seg, s.ugcSections), Numbered(seg, s.hvtec), Numbered(seg, s.timeMotLoc)))
  {
    var seg := Some(s.index);
    VtecRowsStored(seg, s.vtec);
    PolygonRowsStored(seg, s.polygons);
    WindHailRowsStored(seg, s.windHail);
    GaugePoints(seg, s.hvtec);
    PathPointsAre(seg, s.timeMotLoc);
    SectionsPointsAre(seg, s.ugcSections);
    ThreeSources(HvtecRows(seg, s.hvtec).searchPoints, TimeMotLocRows(seg, s.timeMotLoc).searchPoints,
                 UgcRows(seg, s.ugcSections).searchPoints, Numbered(seg, s.hvtec), Numbered(seg, s.timeMotLoc),
                 AreasInSections(seg, s.ugcSections));
    PointsOfSix(VtecRows(seg, s.vtec), HvtecRows(seg, s.hvtec), PolygonRows(seg, s.polygons),
                TimeMotLocRows(seg, s.timeMotLoc), WindHailRows(seg, s.windHail), UgcRows(seg, s.ugcSections));
  }

  lemma ThreeSources(h: seq<SearchPointRow>, t: seq<SearchPointRow>, u: seq<SearchPointRow>,
                     gauges: seq<Located<HvtecCode>>, paths: seq<Located<TimeMotLoc>>, areas: seq<LocatedArea>)
    requires PointsAre(h, Sources([], gauges, [])) && PointsAre(t, Sources([], [], paths))
        && PointsAre(u, OnlyFrom(areas))
    ensures PointsAre(h + t + u, Sources(areas, gauges, paths))
  {
    PointsAppend(h, t, Sources([], gauges, []), Sources([], [], paths));
    assert Both(Sources([], gauges, []), Sources([], [], paths)) == Sources([], gauges, paths);
    PointsAppend(h + t, u, Sources([], gauges, paths), OnlyFrom(areas));
    assert Both(Sources([], gauges, paths), OnlyFrom(areas)) == Sources(areas, gauges, paths);
  }

  lemma TwoSources(u: seq<SearchPointRow>, t: seq<SearchPointRow>, areas: seq<LocatedArea>,
                   paths: seq<Located<TimeMotLoc>>)
    requires PointsAre(u, OnlyFrom(areas)) && PointsAre(t, Sources([], [], paths))
    ensures PointsAre(u + t, Sources(areas, [], paths))
  {
    PointsAppend(u, t, OnlyFrom(areas), Sources([], [], paths));
    assert Both(OnlyFrom(areas), Sources([], [], paths)) == Sources(areas, [], paths);
  }

  lemma PointsOfFour(u: Rows, p: Rows, t: Rows, w: Rows)
    requires p.searchPoints == [] && w.searchPoints == []
    ensures Plus(Plus(Plus(u, p), t), w).searchPoints == u.searchPoints + t.searchPoints
  {
  }

  lemma PointsOfSix(v: Rows, h: Rows, p: Rows, t: Rows, w: Rows, u: Rows)
    requires v.searchPoints == [] && p.searchPoints == [] && w.searchPoints == []
    ensures Plus(Plus(Plus(Plus(Plus(v, h), p), t), w), u).searchPoints
         == h.searchPoints + t.searchPoints + u.searchPoints
  {
  }

  lemma {:induction false} SegmentsPoints(s: seq<Segment>)
    ensures PointsAre(SegmentsRows(s).searchPoints, SegmentSources(s))
  {
    if s == [] {
      NoPoints();
    } else {
      var last, t := s[|s| - 1], s[..|s| - 1];
      SegmentsPoints(t);
      OneSegmentPoints(last);
      var seg := Some(last.index);
      PointsAppend(SegmentsRows(t).searchPoints, SegmentRows(last).searchPoints, SegmentSources(t),
                   Sources(AreasInSections(seg, last.ugcSections), Numbered(seg, last.hvtec),
                           Numbered(seg, last.timeMotLoc)));
    }
  }

  /** A search point is stored exactly for the located areas, placed gauges and path points of the body. */
  lemma PointsOfBody(body: ProductBody)
    ensures PointsAre(RowsOfBody(body).searchPoints, BodySources(body))
  {
    match body
    case VtecEvent(segments) => SegmentsPoints(segments);
    case Generic(ugc, latlon, entries, hail) =>
      SectionsPointsAre(None, OrEmpty(ugc));
      PathPointsAre(None, OrEmpty(entries));
      PolygonRowsStored(None, OrEmpty(latlon));
      WindHailRowsStored(None, OrEmpty(hail));
      TwoSources(UgcRows(None, OrEmpty(ugc)).searchPoints, TimeMotLocRows(None, OrEmpty(entries)).searchPoints,
                 AreasInSections(None, OrEmpty(ugc)), Numbered(None, OrEmpty(entries)));
      PointsOfFour(UgcRows(None, OrEmpty(ugc)), PolygonRows(None, OrEmpty(latlon)),
                   TimeMotLocRows(None, OrEmpty(entries)), WindHailRows(None, OrEmpty(hail)));
  }
}
