/**
 * What the stored rows of a product hold, field by field and in order, said of
 * the parts of its body and where they stand in it.
 */
module StoredRows {
  import opened Prelude
  import opened Geo
  import opened UgcSection
  import opened IncidentUpdates
  import opened Body
  import opened BodyRows
  import opened RowCounts
  import opened UpdatesOfCodes

  /** A part of the body: the index of its segment, if it is in one, and its place in its list. */
  datatype Located<T> = Located(seg: Option<int>, index: int, part: T)

  function Numbered<T>(seg: Option<int>, s: seq<T>): seq<Located<T>> {
    seq(|s|, i requires 0 <= i < |s| => Located(seg, i, s[i]))
  }

  /** The parts that `select` finds in the segments, in order. */
  function InSegments<T>(select: Segment -> seq<T>, s: seq<Segment>): seq<Located<T>> {
    if s == [] then []
    else InSegments(select, s[..|s| - 1]) + Numbered(Some(s[|s| - 1].index), select(s[|s| - 1]))
  }

  /** One row for each part, in order, each as `stored` asks. */
  ghost predicate AllStored<R(!new), T(!new)>(stored: (R, Located<T>) -> bool, rows: seq<R>, parts: seq<Located<T>>) {
    |rows| == |parts| && forall i :: 0 <= i < |rows| ==> stored(rows[i], parts[i])
  }

  // ---------- what each row holds ----------

  predicate VtecStored(r: ProductVtecRow, l: Located<VtecCode>) {
    && r.segmentIndex == l.seg
    && r.code.status == [l.part.status] && r.code.action == l.part.action
    && r.code.key.office == l.part.office && r.code.key.phenomena == l.part.phenomena
    && r.code.key.significance == [l.part.significance] && r.code.key.etn == l.part.etn
    && r.code.begin == l.part.begin && r.code.end == l.part.end
  }

  predicate HvtecStored(r: HvtecRow, l: Located<HvtecCode>) {
    && r.segmentIndex == l.seg && r.hvtecIndex == l.index
    && r.nwslid == l.part.nwslid && r.severity == l.part.severity && r.cause == l.part.cause
    && r.record == l.part.record && r.begin == l.part.begin && r.crest == l.part.crest && r.end == l.part.end
    && (l.part.location.None? ==> r.locationName.None? && r.latitude.None? && r.longitude.None?)
    && (l.part.location.Some? ==>
          && r.locationName == Some(l.part.location.value.placeName)
          && r.latitude == Some(l.part.location.value.at.lat) && r.longitude == Some(l.part.location.value.at.lon))
  }

  predicate PolygonStored(r: PolygonRow, l: Located<Polygon>) {
    r.segmentIndex == l.seg && r.polygonIndex == l.index && r.wkt == l.part.wkt
  }

  predicate PathStored(r: TimeMotLocRow, l: Located<TimeMotLoc>) {
    && r.segmentIndex == l.seg && r.entryIndex == l.index && r.time == l.part.time
    && r.directionDegrees == l.part.directionDegrees && r.speedKt == l.part.speedKt && r.wkt == l.part.wkt
  }

  predicate WindHailStored(r: WindHailRow, l: Located<WindHail>) {
    && r.segmentIndex == l.seg && r.entryIndex == l.index && r.kind == l.part.kind
    && r.numericValue == l.part.numericValue && r.units == l.part.units && r.comparison == l.part.comparison
  }

  // ---------- lists of rows ----------

  lemma StoredAppend<R(!new), T(!new)>(stored: (R, Located<T>) -> bool, a: seq<R>, b: seq<R>,
                                       p: seq<Located<T>>, q: seq<Located<T>>)
    requires AllStored(stored, a, p) && AllStored(stored, b, q)
    ensures AllStored(stored, a + b, p + q)
  {
  }

  lemma NumberedPush<T>(seg: Option<int>, s: seq<T>)
    requires s != []
    ensures Numbered(seg, s) == Numbered(seg, s[..|s| - 1]) + [Located(seg, |s| - 1, s[|s| - 1])]
  {
  }

  /** The VTEC rows of a list, which holds nothing else. */
  lemma {:induction false} VtecRowsStored(seg: Option<int>, s: seq<VtecCode>)
    ensures VtecRows(seg, s) == NOTHING.(vtec := VtecRows(seg, s).vtec)
    ensures AllStored(VtecStored, VtecRows(seg, s).vtec, Numbered(seg, s))
  {
    if s != [] {
      VtecRowsStored(seg, s[..|s| - 1]);
      NumberedPush(seg, s);
      var last := s[|s| - 1];
      StoredAppend(VtecStored, VtecRows(seg, s[..|s| - 1]).vtec, VtecPart(seg, last).vtec,
                   Numbered(seg, s[..|s| - 1]), [Located(seg, |s| - 1, last)]);
    }
  }

  lemma {:induction false} HvtecRowsStored(seg: Option<int>, s: seq<HvtecCode>)
    ensures var rows := HvtecRows(seg, s); rows == NOTHING.(hvtec := rows.hvtec, searchPoints := rows.searchPoints)
    ensures AllStored(HvtecStored, HvtecRows(seg, s).hvtec, Numbered(seg, s))
  {
    if s != [] {
      HvtecRowsStored(seg, s[..|s| - 1]);
      NumberedPush(seg, s);
      var last := s[|s| - 1];
      StoredAppend(HvtecStored, HvtecRows(seg, s[..|s| - 1]).hvtec, HvtecPart(seg, |s| - 1, last).hvtec,
                   Numbered(seg, s[..|s| - 1]), [Located(seg, |s| - 1, last)]);
    }
  }

  lemma {:induction false} PolygonRowsStored(seg: Option<int>, s: seq<Polygon>)
    ensures PolygonRows(seg, s) == NOTHING.(polygons := PolygonRows(seg, s).polygons)
    ensures AllStored(PolygonStored, PolygonRows(seg, s).polygons, Numbered(seg, s))
  {
    if s != [] {
      PolygonRowsStored(seg, s[..|s| - 1]);
      NumberedPush(seg, s);
      var last := s[|s| - 1];
      StoredAppend(PolygonStored, PolygonRows(seg, s[..|s| - 1]).polygons, PolygonPart(seg, |s| - 1, last).polygons,
                   Numbered(seg, s[..|s| - 1]), [Located(seg, |s| - 1, last)]);
    }
  }

  lemma {:induction false} TimeMotLocRowsStored(seg: Option<int>, s: seq<TimeMotLoc>)
    ensures var rows := TimeMotLocRows(seg, s);
      rows == NOTHING.(timeMotLoc := rows.timeMotLoc, searchPoints := rows.searchPoints)
    ensures AllStored(PathStored, TimeMotLocRows(seg, s).timeMotLoc, Numbered(seg, s))
  {
    if s != [] {
      TimeMotLocRowsStored(seg, s[..|s| - 1]);
      NumberedPush(seg, s);
      var last := s[|s| - 1];
      StoredAppend(PathStored, TimeMotLocRows(seg, s[..|s| - 1]).timeMotLoc,
                   TimeMotLocPart(seg, |s| - 1, last).timeMotLoc,
                   Numbered(seg, s[..|s| - 1]), [Located(seg, |s| - 1, last)]);
    }
  }

  lemma {:induction false} WindHailRowsStored(seg: Option<int>, s: seq<WindHail>)
    ensures WindHailRows(seg, s) == NOTHING.(windHail := WindHailRows(seg, s).windHail)
    ensures AllStored(WindHailStored, WindHailRows(seg, s).windHail, Numbered(seg, s))
  {
    if s != [] {
      WindHailRowsStored(seg, s[..|s| - 1]);
      NumberedPush(seg, s);
      var last := s[|s| - 1];
      StoredAppend(WindHailStored, WindHailRows(seg, s[..|s| - 1]).windHail, WindHailPart(seg, |s| - 1, last).windHail,
                   Numbered(seg, s[..|s| - 1]), [Located(seg, |s| - 1, last)]);
    }
  }

  // ---------- areas ----------

  /** An area with the segment, section and bucket it stands in. */
  datatype LocatedArea = LocatedArea(seg: Option<int>, section: int, kind: Kind, state: string, expires: int,
                                     area: Area)

  function AreasAt(at: Place, state: string, s: seq<Area>): seq<LocatedArea> {
    seq(|s|, i requires 0 <= i < |s| => LocatedArea(at.seg, at.section, at.kind, state, at.expires, s[i]))
  }

  function AreasInBucket(at: Place, b: Bucket): seq<LocatedArea> {
    if b == [] then [] else AreasInBucket(at, b[..|b| - 1]) + AreasAt(at, b[|b| - 1].0, b[|b| - 1].1)
  }

  /** Counties first, then zones, fire zones and marine zones. */
  function AreasInSection(seg: Option<int>, i: int, s: Section): seq<LocatedArea> {
    AreasInBucket(Place(seg, i, Counties, s.expires), s.counties)
    + AreasInBucket(Place(seg, i, Zones, s.expires), s.zones)
    + AreasInBucket(Place(seg, i, FireZones, s.expires), s.fireZones)
    + AreasInBucket(Place(seg, i, MarineZones, s.expires), s.marineZones)
  }

  function AreasInSections(seg: Option<int>, s: seq<Section>): seq<LocatedArea> {
    if s == [] then [] else AreasInSections(seg, s[..|s| - 1]) + AreasInSection(seg, |s| - 1, s[|s| - 1])
  }

  function AreasInSegments(s: seq<Segment>): seq<LocatedArea> {
    if s == [] then []
    else AreasInSegments(s[..|s| - 1]) + AreasInSections(Some(s[|s| - 1].index), s[|s| - 1].ugcSections)
  }

  /** The letter of the class behind a stored code, one for each kind of area. */
  predicate LetterFor(kind: Kind, letter: char) {
    && (kind.Counties? ==> letter == 'C') && (kind.Zones? ==> letter == 'Z')
    && (kind.FireZones? ==> letter == 'F') && (kind.MarineZones? ==> letter == 'M')
  }

  ghost predicate AreaStored(r: UgcAreaRow, l: LocatedArea) {
    && r.segmentIndex == l.seg && r.sectionIndex == l.section && r.kind == l.kind && r.state == l.state
    && r.name == l.area.name && r.expires == l.expires && r.latitude == l.area.lat && r.longitude == l.area.lon
    && exists letter, digits ::
         LetterFor(l.kind, letter) && Decimal(digits, l.area.id) && r.code == l.state + [letter] + digits
  }

  ghost predicate AllAreasStored(rows: seq<UgcAreaRow>, areas: seq<LocatedArea>) {
    |rows| == |areas| && forall i :: 0 <= i < |rows| ==> AreaStored(rows[i], areas[i])
  }

  lemma AreasAppend(a: seq<UgcAreaRow>, b: seq<UgcAreaRow>, p: seq<LocatedArea>, q: seq<LocatedArea>)
    requires AllAreasStored(a, p) && AllAreasStored(b, q)
    ensures AllAreasStored(a + b, p + q)
  {
  }

  lemma CodeTextIs(state: string, kind: Kind, id: nat)
    ensures exists letter, digits ::
      LetterFor(kind, letter) && Decimal(digits, id)
          && CodeText(state, StoredLetter(kind), id) == state + [letter] + digits
  {
    PaddedIsDecimal(id);
    assert LetterFor(kind, StoredLetter(kind)) && Decimal(Padded(id), id);
  }

  /** Rows that hold areas and their points only. */
  ghost predicate OnlyAreas(rows: Rows) {
    rows == NOTHING.(ugcAreas := rows.ugcAreas, searchPoints := rows.searchPoints)
  }

  lemma AreaPartStored(at: Place, state: string, a: Area)
    ensures OnlyAreas(AreaPart(at, state, a))
    ensures AllAreasStored(AreaPart(at, state, a).ugcAreas,
                           [LocatedArea(at.seg, at.section, at.kind, state, at.expires, a)])
  {
    CodeTextIs(state, at.kind, a.id);
  }

  lemma {:induction false} AreaRowsStored(at: Place, state: string, s: seq<Area>)
    ensures OnlyAreas(AreaRows(at, state, s))
    ensures AllAreasStored(AreaRows(at, state, s).ugcAreas, AreasAt(at, state, s))
  {
    if s != [] {
      var last, t := s[|s| - 1], s[..|s| - 1];
      AreaRowsStored(at, state, t);
      AreaPartStored(at, state, last);
      var l := LocatedArea(at.seg, at.section, at.kind, state, at.expires, last);
      AreasAppend(AreaRows(at, state, t).ugcAreas, AreaPart(at, state, last).ugcAreas, AreasAt(at, state, t), [l]);
      assert AreasAt(at, state, s) == AreasAt(at, state, t) + [l];
    }
  }

  lemma {:induction false} BucketRowsStored(at: Place, b: Bucket)
    ensures OnlyAreas(BucketRows(at, b))
    ensures AllAreasStored(BucketRows(at, b).ugcAreas, AreasInBucket(at, b))
  {
    if b != [] {
      var last, c := b[|b| - 1], b[..|b| - 1];
      BucketRowsStored(at, c);
      AreaRowsStored(at, last.0, last.1);
      AreasAppend(BucketRows(at, c).ugcAreas, AreaRows(at, last.0, last.1).ugcAreas,
                  AreasInBucket(at, c), AreasAt(at, last.0, last.1));
    }
  }

  lemma {:induction false} FourBuckets(seg: Option<int>, i: int, s: Section)
    ensures SectionRows(seg, i, s)
         == Plus(Plus(Plus(BucketRows(Place(seg, i, Counties, s.expires), s.counties),
                           BucketRows(Place(seg, i, Zones, s.expires), s.zones)),
                      BucketRows(Place(seg, i, FireZones, s.expires), s.fireZones)),
                 BucketRows(Place(seg, i, MarineZones, s.expires), s.marineZones))
  {
    var none: seq<Kind> := [];
    KindsPush(seg, i, s, none, Counties);
    KindsPush(seg, i, s, [Counties], Zones);
    KindsPush(seg, i, s, [Counties, Zones], FireZones);
    KindsPush(seg, i, s, [Counties, Zones, FireZones], MarineZones);
    PlusNothing(KindRows(seg, i, s, Counties));
    assert none + [Counties] == [Counties] && [Counties] + [Zones] == [Counties, Zones];
    assert [Counties, Zones] + [FireZones] == [Counties, Zones, FireZones];
    assert [Counties, Zones, FireZones] + [MarineZones] == KINDS;
  }

  lemma KindsPush(seg: Option<int>, i: int, s: Section, kinds: seq<Kind>, kind: Kind)
    ensures KindsRows(seg, i, s, kinds + [kind]) == Plus(KindsRows(seg, i, s, kinds), KindRows(seg, i, s, kind))
  {
    assert (kinds + [kind])[..|kinds|] == kinds;
  }

  lemma SectionRowsStored(seg: Option<int>, i: int, s: Section)
    ensures OnlyAreas(SectionRows(seg, i, s))
    ensures AllAreasStored(SectionRows(seg, i, s).ugcAreas, AreasInSection(seg, i, s))
  {
    FourBuckets(seg, i, s);
    var c, z := Place(seg, i, Counties, s.expires), Place(seg, i, Zones, s.expires);
    var f, m := Place(seg, i, FireZones, s.expires), Place(seg, i, MarineZones, s.expires);
    BucketRowsStored(c, s.counties);
    BucketRowsStored(z, s.zones);
    BucketRowsStored(f, s.fireZones);
    BucketRowsStored(m, s.marineZones);
    var a, b := BucketRows(c, s.counties).ugcAreas, BucketRows(z, s.zones).ugcAreas;
    var p, q := AreasInBucket(c, s.counties), AreasInBucket(z, s.zones);
    AreasAppend(a, b, p, q);
    AreasAppend(a + b, BucketRows(f, s.fireZones).ugcAreas, p + q, AreasInBucket(f, s.fireZones));
    AreasAppend(a + b + BucketRows(f, s.fireZones).ugcAreas, BucketRows(m, s.marineZones).ugcAreas,
                p + q + AreasInBucket(f, s.fireZones), AreasInBucket(m, s.marineZones));
  }

  lemma {:induction false} UgcRowsStored(seg: Option<int>, s: seq<Section>)
    ensures OnlyAreas(UgcRows(seg, s))
    ensures AllAreasStored(UgcRows(seg, s).ugcAreas, AreasInSections(seg, s))
  {
    if s != [] {
      var n := |s| - 1;
      UgcRowsStored(seg, s[..n]);
      SectionRowsStored(seg, n, s[n]);
      AreasAppend(UgcRows(seg, s[..n]).ugcAreas, SectionRows(seg, n, s[n]).ugcAreas,
                  AreasInSections(seg, s[..n]), AreasInSection(seg, n, s[n]));
    }
  }

  // ---------- the rows of a body ----------

  ghost predicate SegmentsStored(rows: Rows, s: seq<Segment>) {
    && AllStored(VtecStored, rows.vtec, InSegments(VtecOf, s))
    && AllStored(HvtecStored, rows.hvtec, InSegments(HvtecOf, s))
    && AllStored(PolygonStored, rows.polygons, InSegments(PolygonsOf, s))
    && AllStored(PathStored, rows.timeMotLoc, InSegments(TimeMotLocOf, s))
    && AllStored(WindHailStored, rows.windHail, InSegments(WindHailOf, s))
    && AllAreasStored(rows.ugcAreas, AreasInSegments(s))
  }

  /** Each list of rows holds its parts of the body, one row each, in order; a generic body has no segments. */
  ghost predicate BodyStored(rows: Rows, body: ProductBody) {
    match body
    case VtecEvent(segments) => SegmentsStored(rows, segments)
    case Generic(ugc, latlon, entries, hail) =>
      && rows.vtec == [] && rows.hvtec == []
      && AllStored(PolygonStored, rows.polygons, Numbered(None, OrEmpty(latlon)))
      && AllStored(PathStored, rows.timeMotLoc, Numbered(None, OrEmpty(entries)))
      && AllStored(WindHailStored, rows.windHail, Numbered(None, OrEmpty(hail)))
      && AllAreasStored(rows.ugcAreas, AreasInSections(None, OrEmpty(ugc)))
  }

  lemma OneSegmentStored(s: Segment)
    ensures var rows, seg := SegmentRows(s), Some(s.index);
      && AllStored(VtecStored, rows.vtec, Numbered(seg, s.vtec))
      && AllStored(HvtecStored, rows.hvtec, Numbered(seg, s.hvtec))
      && AllStored(PolygonStored, rows.polygons, Numbered(seg, s.polygons))
      && AllStored(PathStored, rows.timeMotLoc, Numbered(seg, s.timeMotLoc))
      && AllStored(WindHailStored, rows.windHail, Numbered(seg, s.windHail))
      && AllAreasStored(rows.ugcAreas, AreasInSections(seg, s.ugcSections))
  {
    var seg, rows := Some(s.index), SegmentRows(s);
    VtecRowsStored(seg, s.vtec);
    HvtecRowsStored(seg, s.hvtec);
    PolygonRowsStored(seg, s.polygons);
    TimeMotLocRowsStored(seg, s.timeMotLoc);
    WindHailRowsStored(seg, s.windHail);
    UgcRowsStored(seg, s.ugcSections);
    SixParts(VtecRows(seg, s.vtec), HvtecRows(seg, s.hvtec), PolygonRows(seg, s.polygons),
             TimeMotLocRows(seg, s.timeMotLoc), WindHailRows(seg, s.windHail), UgcRows(seg, s.ugcSections));
  }

  /** Rows of six kinds, each in its own list. */
  lemma SixParts(v: Rows, h: Rows, p: Rows, t: Rows, w: Rows, u: Rows)
    requires v == NOTHING.(vtec := v.vtec) && h == NOTHING.(hvtec := h.hvtec, searchPoints := h.searchPoints)
    requires p == NOTHING.(polygons := p.polygons) && w == NOTHING.(windHail := w.windHail)
    requires t == NOTHING.(timeMotLoc := t.timeMotLoc, searchPoints := t.searchPoints) && OnlyAreas(u)
    ensures var all := Plus(Plus(Plus(Plus(Plus(v, h), p), t), w), u);
      && all.vtec == v.vtec && all.hvtec == h.hvtec && all.polygons == p.polygons
      && all.timeMotLoc == t.timeMotLoc && all.windHail == w.windHail && all.ugcAreas == u.ugcAreas
  {
  }

  lemma {:induction false} SegmentsRowsStored(s: seq<Segment>)
    ensures SegmentsStored(SegmentsRows(s), s)
  {
    if s != [] {
      var last, t := s[|s| - 1], s[..|s| - 1];
      SegmentsRowsStored(t);
      OneSegmentStored(last);
      var a, b, seg := SegmentsRows(t), SegmentRows(last), Some(last.index);
      StoredAppend(VtecStored, a.vtec, b.vtec, InSegments(VtecOf, t), Numbered(seg, last.vtec));
      StoredAppend(HvtecStored, a.hvtec, b.hvtec, InSegments(HvtecOf, t), Numbered(seg, last.hvtec));
      StoredAppend(PolygonStored, a.polygons, b.polygons, InSegments(PolygonsOf, t), Numbered(seg, last.polygons));
      StoredAppend(PathStored, a.timeMotLoc, b.timeMotLoc, InSegments(TimeMotLocOf, t), Numbered(seg, last.timeMotLoc));
      StoredAppend(WindHailStored, a.windHail, b.windHail, InSegments(WindHailOf, t), Numbered(seg, last.windHail));
      AreasAppend(a.ugcAreas, b.ugcAreas, AreasInSegments(t), AreasInSections(seg, last.ugcSections));
    }
  }

  /** The rows of a body hold its parts. */
  lemma RowsHoldBody(body: ProductBody)
    ensures BodyStored(RowsOfBody(body), body)
  {
    match body
    case VtecEvent(segments) => SegmentsRowsStored(segments);
    case Generic(ugc, latlon, entries, hail) =>
      UgcRowsStored(None, OrEmpty(ugc));
      PolygonRowsStored(None, OrEmpty(latlon));
      TimeMotLocRowsStored(None, OrEmpty(entries));
      WindHailRowsStored(None, OrEmpty(hail));
      FourParts(UgcRows(None, OrEmpty(ugc)), PolygonRows(None, OrEmpty(latlon)),
                TimeMotLocRows(None, OrEmpty(entries)), WindHailRows(None, OrEmpty(hail)));
  }

  lemma FourParts(u: Rows, p: Rows, t: Rows, w: Rows)
    requires p == NOTHING.(polygons := p.polygons) && w == NOTHING.(windHail := w.windHail)
    requires t == NOTHING.(timeMotLoc := t.timeMotLoc, searchPoints := t.searchPoints) && OnlyAreas(u)
    ensures var all := Plus(Plus(Plus(u, p), t), w);
      && all.vtec == [] && all.hvtec == [] && all.polygons == p.polygons
      && all.timeMotLoc == t.timeMotLoc && all.windHail == w.windHail && all.ugcAreas == u.ugcAreas
  {
  }

  // ---------- preparing a product ----------

  /** All VTEC codes of the body, in order. */
  function Codes(body: Option<ProductBody>): seq<VtecCode> {
    if body.Some? then BodyCodes(body.value) else []
  }

  predicate Fits(c: Counts) {
    && c.vtec < 0x8000_0000 && c.ugc < 0x8000_0000 && c.hvtec < 0x8000_0000
    && c.latlon < 0x8000_0000 && c.timeMotLoc < 0x8000_0000 && c.windHail < 0x8000_0000
  }

  lemma {:induction false} IndexesFitIff(s: seq<Segment>)
    ensures IndexesFit(s) <==> forall i :: 0 <= i < |s| ==> s[i].index < 0x8000_0000
  {
    if s != [] {
      var n := |s| - 1;
      IndexesFitIff(s[..n]);
      assert forall i :: 0 <= i < n ==> s[..n][i] == s[i];
    }
  }

  /** One product prepared: rows that hold its parts and updates that speak for its codes. */
  method PrepareProduct(body: Option<ProductBody>, blobs: seq<BlobRole>, timestamp: nat, size: nat, issueCount: nat,
                        issuedAt: Option<int>)
    returns (r: Result<seq<Update>, ()>, prepared: PreparedProduct)
    ensures fresh(prepared)
    ensures r.Ok? <==>
      && Payload in blobs && issuedAt.Some?
      && timestamp < 0x8000_0000_0000_0000 && size < 0x8000_0000_0000_0000 && issueCount < 0x8000_0000
      && (body.Some? ==> Fits(SummaryCounts(body.value)))
      && (body.Some? && body.value.VtecEvent? ==>
            forall i :: 0 <= i < |body.value.segments| ==> body.value.segments[i].index < 0x8000_0000)
    ensures r.Ok? ==> if body.Some? then BodyStored(prepared.Contents(), body.value) else prepared.Contents() == NOTHING
    ensures r.Ok? ==> UpdatesFor(r.value, Codes(body), issuedAt.value)
  {
    r, prepared := Prepare(body, blobs, timestamp, size, issueCount, issuedAt);
    if body.Some? {
      RowsHoldBody(body.value);
      if body.value.VtecEvent? {
        IndexesFitIff(body.value.segments);
      }
    }
    if r.Ok? {
      UpdatesSpeak(r.value, Codes(body), issuedAt.value);
    }
  }
}
