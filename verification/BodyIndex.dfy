/**
 * Codes and states of a body as three readers see them: the summary keys, the
 * geography filters and the stored area rows.
 */
module BodyIndex {
  import opened Prelude
  import opened Geo
  import opened UgcSection
  import opened Digits
  import opened Body
  import opened BodyRows
  import opened RowCounts

  // ---------- the filter ----------

  datatype GeoFilter = GeoFilter(states: Option<set<string>>, counties: Option<set<string>>, zones: Option<set<string>>,
                                 fireZones: Option<set<string>>, marineZones: Option<set<string>>)
  {
    predicate HasConstraints() {
      states.Some? || counties.Some? || zones.Some? || fireZones.Some? || marineZones.Some?
    }

    predicate Matches(body: Option<ProductBody>) {
      if !HasConstraints() then true
      else if body.None? then false
      else (
        var sections := UgcSections(body.value);
        && sections != []
        && MatchesStates(states, sections)
        && MatchesCodes(counties, sections, Counties)
        && MatchesCodes(zones, sections, Zones)
        && MatchesCodes(fireZones, sections, FireZones)
        && MatchesCodes(marineZones, sections, MarineZones)
      )
    }
  }

  const ANYWHERE := GeoFilter(None, None, None, None, None)

  /** The class letter of published codes: marine zones are published as zones. */
  function PublishedLetter(kind: Kind): char {
    match kind
    case Counties => 'C'
    case Zones => 'Z'
    case FireZones => 'F'
    case MarineZones => 'Z'
  }

  predicate AnyState(b: Bucket, allowed: set<string>) {
    exists e :: e in b && e.0 in allowed
  }

  predicate SectionInStates(s: Section, allowed: set<string>) {
    || AnyState(s.counties, allowed)
    || AnyState(s.zones, allowed)
    || AnyState(s.fireZones, allowed)
    || AnyState(s.marineZones, allowed)
  }

  predicate MatchesStates(allowed: Option<set<string>>, sections: seq<Section>) {
    allowed.None? || exists s :: s in sections && SectionInStates(s, allowed.value)
  }

  predicate AnyCode(b: Bucket, letter: char, allowed: set<string>) {
    exists e :: e in b && exists a :: a in e.1 && CodeText(e.0, letter, a.id) in allowed
  }

  predicate MatchesCodes(allowed: Option<set<string>>, sections: seq<Section>, kind: Kind) {
    allowed.None? || exists s :: s in sections && AnyCode(BucketOf(s, kind), PublishedLetter(kind), allowed.value)
  }

  // ---------- the summary keys ----------

  /** Some area of the bucket has this code. */
  predicate Mentions(b: Bucket, letter: char, code: string) {
    exists e :: e in b && EntryMentions(e, letter, code)
  }

  predicate EntryMentions(e: (string, seq<Area>), letter: char, code: string) {
    exists a :: a in e.1 && CodeText(e.0, letter, a.id) == code
  }

  lemma MentionsPush(b: Bucket, last: (string, seq<Area>), letter: char, code: string)
    ensures Mentions(b + [last], letter, code) <==> Mentions(b, letter, code) || EntryMentions(last, letter, code)
  {
    assert forall e :: e in b + [last] <==> e in b || e == last;
  }

  predicate MentionsState(b: Bucket, state: string) {
    exists e :: e in b && e.0 == state
  }

  predicate SectionMentions(s: Section, code: string) {
    || Mentions(s.counties, 'C', code)
    || Mentions(s.zones, 'Z', code)
    || Mentions(s.fireZones, 'F', code)
    || Mentions(s.marineZones, 'Z', code)
  }

  predicate SectionMentionsState(s: Section, state: string) {
    || MentionsState(s.counties, state)
    || MentionsState(s.zones, state)
    || MentionsState(s.fireZones, state)
    || MentionsState(s.marineZones, state)
  }

  predicate Summarized(body: Option<ProductBody>, code: string) {
    body.Some? && exists s :: s in UgcSections(body.value) && SectionMentions(s, code)
  }

  predicate StateSummarized(body: Option<ProductBody>, state: string) {
    body.Some? && exists s :: s in UgcSections(body.value) && SectionMentionsState(s, state)
  }

  method CollectUgcCodes(states: set<string>, codes: set<string>, b: Bucket, letter: char)
    returns (states': set<string>, codes': set<string>)
    ensures forall c :: c in codes' <==> c in codes || Mentions(b, letter, c)
    ensures forall st :: st in states' <==> st in states || MentionsState(b, st)
  {
    states', codes' := states, codes;
    for i := 0 to |b|
      invariant forall c :: c in codes' <==> c in codes || Mentions(b[..i], letter, c)
      invariant forall st :: st in states' <==> st in states || MentionsState(b[..i], st)
    {
      ghost var before := codes';
      states' := states' + {b[i].0};
      var areas := b[i].1;
      for j := 0 to |areas|
        invariant forall c ::
          c in codes' <==> c in before || exists a :: a in areas[..j] && CodeText(b[i].0, letter, a.id) == c
      {
        codes' := codes' + {CodeText(b[i].0, letter, areas[j].id)};
        assert areas[..j + 1] == areas[..j] + [areas[j]];
      }
      assert areas[..|areas|] == areas;
      assert b[..i + 1] == b[..i] + [b[i]];
      forall c ensures c in codes' <==> c in codes || Mentions(b[..i + 1], letter, c) {
        MentionsPush(b[..i], b[i], letter, c);
        assert EntryMentions(b[i], letter, c) <==> exists a :: a in areas && CodeText(b[i].0, letter, a.id) == c;
      }
    }
    assert b[..|b|] == b;
  }

  method CollectSection(states: set<string>, codes: set<string>, s: Section)
    returns (states': set<string>, codes': set<string>)
    ensures forall c :: c in codes' <==> c in codes || SectionMentions(s, c)
    ensures forall st :: st in states' <==> st in states || SectionMentionsState(s, st)
  {
    states', codes' := CollectUgcCodes(states, codes, s.counties, 'C');
    states', codes' := CollectUgcCodes(states', codes', s.zones, 'Z');
    states', codes' := CollectUgcCodes(states', codes', s.fireZones, 'F');
    states', codes' := CollectUgcCodes(states', codes', s.marineZones, 'Z');
  }

  /** The states and codes of a product summary. */
  method SummaryKeys(body: Option<ProductBody>) returns (states: set<string>, codes: set<string>)
    ensures forall c :: c in codes <==> Summarized(body, c)
    ensures forall st :: st in states <==> StateSummarized(body, st)
  {
    states, codes := {}, {};
    if body.None? {
      return;
    }
    var sections := UgcSections(body.value);
    for i := 0 to |sections|
      invariant forall c :: c in codes <==> exists s :: s in sections[..i] && SectionMentions(s, c)
      invariant forall st :: st in states <==> exists s :: s in sections[..i] && SectionMentionsState(s, st)
    {
      states, codes := CollectSection(states, codes, sections[i]);
      assert sections[..i + 1] == sections[..i] + [sections[i]];
    }
    assert sections[..|sections|] == sections;
  }

  // ---------- summary against filter ----------

  lemma SingleCode(sections: seq<Section>, kind: Kind, code: string)
    ensures MatchesCodes(Some({code}), sections, kind)
       <==> exists s :: s in sections && Mentions(BucketOf(s, kind), PublishedLetter(kind), code)
  {
    forall s | s in sections
      ensures AnyCode(BucketOf(s, kind), PublishedLetter(kind), {code})
         <==> Mentions(BucketOf(s, kind), PublishedLetter(kind), code) {
    }
  }

  /** A code is a summary key exactly when a filter on it alone, in one of the four kinds, accepts the body. */
  lemma CodeKeysAreFilters(body: Option<ProductBody>, code: string)
    ensures Summarized(body, code)
       <==> (|| ANYWHERE.(counties := Some({code})).Matches(body)
             || ANYWHERE.(zones := Some({code})).Matches(body)
             || ANYWHERE.(fireZones := Some({code})).Matches(body)
             || ANYWHERE.(marineZones := Some({code})).Matches(body))
  {
    if body.Some? {
      var sections := UgcSections(body.value);
      SingleCode(sections, Counties, code);
      SingleCode(sections, Zones, code);
      SingleCode(sections, FireZones, code);
      SingleCode(sections, MarineZones, code);
      var filters := MatchesCodes(Some({code}), sections, Counties) || MatchesCodes(Some({code}), sections, Zones)
        || MatchesCodes(Some({code}), sections, FireZones) || MatchesCodes(Some({code}), sections, MarineZones);
      assert filters ==> sections != [];
      assert Summarized(body, code) ==> filters;
    }
  }

  lemma StateKeysAreFilters(body: Option<ProductBody>, state: string)
    ensures StateSummarized(body, state) <==> ANYWHERE.(states := Some({state})).Matches(body)
  {
    if body.Some? {
      var sections := UgcSections(body.value);
      forall s | s in sections
        ensures SectionMentionsState(s, state) <==> SectionInStates(s, {state}) {
      }
    }
  }

  // ---------- summary against stored rows ----------

  /** A stored area row carries this code. */
  ghost predicate Stored(r: Rows, code: string) {
    exists i :: 0 <= i < |r.ugcAreas| && r.ugcAreas[i].code == code
  }

  lemma StoredPlus(a: Rows, b: Rows, code: string)
    ensures Stored(Plus(a, b), code) <==> Stored(a, code) || Stored(b, code)
  {
    var all := Plus(a, b).ugcAreas;
    assert forall i :: 0 <= i < |a.ugcAreas| ==> all[i] == a.ugcAreas[i];
    assert forall i :: 0 <= i < |b.ugcAreas| ==> all[|a.ugcAreas| + i] == b.ugcAreas[i];
    if i :| 0 <= i < |all| && all[i].code == code {
      assert i < |a.ugcAreas| || all[i] == b.ugcAreas[i - |a.ugcAreas|];
    }
  }

  lemma {:induction false} AreaStored(at: Place, state: string, s: seq<Area>, code: string)
    ensures Stored(AreaRows(at, state, s), code) <==> EntryMentions((state, s), StoredLetter(at.kind), code)
  {
    if s != [] {
      var last := s[|s| - 1];
      AreaStored(at, state, s[..|s| - 1], code);
      StoredPlus(AreaRows(at, state, s[..|s| - 1]), AreaPart(at, state, last), code);
      assert s == s[..|s| - 1] + [last];
      assert AreaPart(at, state, last).ugcAreas[0].code == CodeText(state, StoredLetter(at.kind), last.id);
    }
  }

  lemma {:induction false} BucketStored(at: Place, b: Bucket, code: string)
    ensures Stored(BucketRows(at, b), code) <==> Mentions(b, StoredLetter(at.kind), code)
  {
    if b != [] {
      var last := b[|b| - 1];
      BucketStored(at, b[..|b| - 1], code);
      AreaStored(at, last.0, last.1, code);
      StoredPlus(BucketRows(at, b[..|b| - 1]), AreaRows(at, last.0, last.1), code);
      MentionsPush(b[..|b| - 1], last, StoredLetter(at.kind), code);
      assert b == b[..|b| - 1] + [last] && last == (last.0, last.1);
    }
  }

  lemma {:induction false} KindsStored(seg: Option<int>, i: int, s: Section, kinds: seq<Kind>, code: string)
    ensures Stored(KindsRows(seg, i, s, kinds), code)
       <==> exists kind :: kind in kinds && Mentions(BucketOf(s, kind), StoredLetter(kind), code)
  {
    if kinds != [] {
      var kind := kinds[|kinds| - 1];
      KindsStored(seg, i, s, kinds[..|kinds| - 1], code);
      BucketStored(Place(seg, i, kind, s.expires), BucketOf(s, kind), code);
      StoredPlus(KindsRows(seg, i, s, kinds[..|kinds| - 1]), KindRows(seg, i, s, kind), code);
      assert kinds == kinds[..|kinds| - 1] + [kind];
    }
  }

  /** Some area of the section is stored under this code. */
  predicate SectionStores(s: Section, code: string) {
    || Mentions(s.counties, 'C', code)
    || Mentions(s.zones, 'Z', code)
    || Mentions(s.fireZones, 'F', code)
    || Mentions(s.marineZones, 'M', code)
  }

  lemma SectionStored(seg: Option<int>, i: int, s: Section, code: string)
    ensures Stored(SectionRows(seg, i, s), code) <==> SectionStores(s, code)
  {
    KindsStored(seg, i, s, KINDS, code);
    assert Counties in KINDS && Zones in KINDS && FireZones in KINDS && MarineZones in KINDS by {
      assert KINDS[0] == Counties && KINDS[1] == Zones && KINDS[2] == FireZones && KINDS[3] == MarineZones;
    }
  }

  lemma {:induction false} ConcatStored<A(!new)>(part: (A, nat) -> Rows, holds: A -> bool, s: seq<A>, code: string)
    requires forall x, i :: Stored(part(x, i), code) == holds(x)
    ensures Stored(Concat(part, s), code) <==> exists x :: x in s && holds(x)
  {
    if s != [] {
      var last := s[|s| - 1];
      ConcatStored(part, holds, s[..|s| - 1], code);
      StoredPlus(Concat(part, s[..|s| - 1]), part(last, |s| - 1), code);
      assert s == s[..|s| - 1] + [last];
      assert Stored(part(last, |s| - 1), code) == holds(last);
    }
  }

  lemma {:induction false} UgcStored(seg: Option<int>, s: seq<Section>, code: string)
    ensures Stored(UgcRows(seg, s), code) <==> exists x :: x in s && SectionStores(x, code)
  {
    var holds := (x: Section) => SectionStores(x, code);
    forall x, i: nat ensures Stored(SectionPart(seg)(x, i), code) == holds(x) {
      SectionStored(seg, i, x, code);
    }
    ConcatStored(SectionPart(seg), holds, s, code);
    UgcIsConcat(seg, s);
  }

  predicate SegmentStores(s: Segment, code: string) {
    exists x :: x in s.ugcSections && SectionStores(x, code)
  }

  lemma {:induction false} NoAreas(seg: Option<int>, s: Segment)
    ensures VtecRows(seg, s.vtec).ugcAreas == [] && HvtecRows(seg, s.hvtec).ugcAreas == []
    ensures PolygonRows(seg, s.polygons).ugcAreas == [] && TimeMotLocRows(seg, s.timeMotLoc).ugcAreas == []
    ensures WindHailRows(seg, s.windHail).ugcAreas == []
  {
    var p := Point(0.0, 0.0);
    VtecTally(seg, s.vtec, p);
    HvtecTally(seg, s.hvtec, p);
    PolygonTally(seg, s.polygons, p);
    TimeMotLocTally(seg, s.timeMotLoc, p);
    WindHailTally(seg, s.windHail, p);
  }

  lemma SegmentAreas(s: Segment)
    ensures SegmentRows(s).ugcAreas == UgcRows(Some(s.index), s.ugcSections).ugcAreas
  {
    NoAreas(Some(s.index), s);
  }

  lemma SameStored(a: Rows, b: Rows, code: string)
    requires a.ugcAreas == b.ugcAreas
    ensures Stored(a, code) == Stored(b, code)
  {
  }

  lemma SegmentStored(s: Segment, code: string)
    ensures Stored(SegmentRows(s), code) <==> SegmentStores(s, code)
  {
    SegmentAreas(s);
    SameStored(SegmentRows(s), UgcRows(Some(s.index), s.ugcSections), code);
    UgcStored(Some(s.index), s.ugcSections, code);
  }

  lemma {:induction false} SegmentsStored(s: seq<Segment>, code: string)
    ensures Stored(SegmentsRows(s), code) <==> exists x :: x in Flatten(UgcOf, s) && SectionStores(x, code)
  {
    var holds := (x: Segment) => SegmentStores(x, code);
    forall x, i: nat ensures Stored(SegmentPart()(x, i), code) == holds(x) {
      SegmentStored(x, code);
    }
    ConcatStored(SegmentPart(), holds, s, code);
    SegmentsIsConcat(s);
    forall x ensures x in Flatten(UgcOf, s) <==> exists y :: y in s && x in y.ugcSections {
      FlattenMember(UgcOf, s, x);
      forall y | y in s ensures x in UgcOf(y) <==> x in y.ugcSections {}
    }
  }

  lemma GenericAreas(body: ProductBody)
    requires body.Generic?
    ensures RowsOfBody(body).ugcAreas == UgcRows(None, OrEmpty(body.ugc)).ugcAreas
  {
    var p := Point(0.0, 0.0);
    PolygonTally(None, OrEmpty(body.latlon), p);
    TimeMotLocTally(None, OrEmpty(body.entries), p);
    WindHailTally(None, OrEmpty(body.hail), p);
  }

  /** The stored codes are those of the areas, lettered by kind. */
  lemma StoredCodes(body: ProductBody, code: string)
    ensures Stored(RowsOfBody(body), code) <==> exists s :: s in UgcSections(body) && SectionStores(s, code)
  {
    match body
    case VtecEvent(segments) => SegmentsStored(segments, code);
    case Generic(ugc, _, _, _) =>
      GenericAreas(body);
      SameStored(RowsOfBody(body), UgcRows(None, OrEmpty(ugc)), code);
      UgcStored(None, OrEmpty(ugc), code);
  }

  lemma {:induction false} PaddedIsDigits(n: nat)
    ensures AllDigits(Padded(n))
  {
    if n >= 1000 {
      PaddedIsDigits(n / 10);
    }
  }

  lemma DigitsAfterLetter(text: string, state: string, letter: char, id: nat, k: nat)
    requires text == CodeText(state, letter, id) && |state| < k < |text|
    ensures IsDigit(text[k])
  {
    PaddedIsDigits(id);
    assert text[k] == Padded(id)[k - |state| - 1];
  }

  /** The class letter can be read back from a code, whatever the state's spelling. */
  lemma LetterIsReadable(state: string, letter: char, id: nat, state': string, letter': char, id': nat)
    requires !IsDigit(letter) && !IsDigit(letter')
    requires CodeText(state, letter, id) == CodeText(state', letter', id')
    ensures letter == letter'
  {
    var text := CodeText(state, letter, id);
    assert text[|state|] == letter && CodeText(state', letter', id')[|state'|] == letter';
    if |state| < |state'| {
      DigitsAfterLetter(text, state, letter, id, |state'|);
    } else if |state'| < |state| {
      DigitsAfterLetter(text, state', letter', id', |state|);
    }
  }

  /** No marine zone has an area. */
  predicate NoMarineAreas(body: ProductBody) {
    forall s :: s in UgcSections(body) ==> forall e :: e in s.marineZones ==> e.1 == []
  }

  lemma MarineIsNotPublished(body: ProductBody, state: string, id: nat)
    ensures !Summarized(Some(body), CodeText(state, 'M', id))
  {
    var code := CodeText(state, 'M', id);
    forall b: Bucket, letter | letter in {'C', 'Z', 'F'} ensures !Mentions(b, letter, code) {
      forall e, a | e in b && a in e.1 ensures CodeText(e.0, letter, a.id) != code {
        if CodeText(e.0, letter, a.id) == code {
          LetterIsReadable(e.0, letter, a.id, state, 'M', id);
          assert false;
        }
      }
    }
  }

  /** Stored codes and summary codes are the same set exactly when the body has no marine areas. */
  lemma StoredIsSummarizedIff(body: ProductBody)
    ensures (forall code :: Stored(RowsOfBody(body), code) <==> Summarized(Some(body), code)) <==> NoMarineAreas(body)
  {
    if NoMarineAreas(body) {
      forall code ensures Stored(RowsOfBody(body), code) <==> Summarized(Some(body), code) {
        StoredCodes(body, code);
        forall s | s in UgcSections(body) ensures SectionStores(s, code) <==> SectionMentions(s, code) {
        }
      }
    } else {
      var s :| s in UgcSections(body) && !(forall e :: e in s.marineZones ==> e.1 == []);
      var e :| e in s.marineZones && e.1 != [];
      var code := CodeText(e.0, 'M', e.1[0].id);
      assert Mentions(s.marineZones, 'M', code);
      StoredCodes(body, code);
      MarineIsNotPublished(body, e.0, e.1[0].id);
      assert Stored(RowsOfBody(body), code) && !Summarized(Some(body), code);
    }
  }

  /** One marine zone: its stored code is no summary key. */
  lemma MarineZoneDiffers()
    ensures var area := Area(335, None, None, None);
      var body := Generic(Some([Section([], [], [], [("AN", [area])], 0)]), None, None, None);
      Stored(RowsOfBody(body), CodeText("AN", 'M', 335)) && !Summarized(Some(body), CodeText("AN", 'M', 335))
  {
    var area := Area(335, None, None, None);
    var section := Section([], [], [], [("AN", [area])], 0);
    var body := Generic(Some([section]), None, None, None);
    var code := CodeText("AN", 'M', 335);
    assert section.marineZones[0] == ("AN", [area]) && [area][0] == area;
    assert EntryMentions(("AN", [area]), 'M', code);
    assert Mentions(section.marineZones, 'M', code);
    assert UgcSections(body)[0] == section;
    assert SectionStores(section, code);
    StoredCodes(body, code);
    MarineIsNotPublished(body, "AN", 335);
  }
}
