/**
 * A parsed UGC section: codes sorted into county, zone, fire-zone and marine
 * buckets, each grouped by state.
 */
module UgcSection {
  import opened Prelude
  import opened OrderedMap
  import opened Digits
  import opened Ugc

  /** An area with the coordinates of its catalog entry, when it has one. */
  datatype Area = Area(id: nat, name: Option<string>, lat: Option<real>, lon: Option<real>)

  /** Areas by state, in state order. */
  type Bucket = seq<(string, seq<Area>)>

  datatype Section = Section(counties: Bucket, zones: Bucket, fireZones: Bucket, marineZones: Bucket, expires: int)

  datatype Entry = Entry(name: string, latitude: real, longitude: real)

  /** The generated catalogs, by canonical code. */
  datatype Catalogs = Catalogs(county: string -> Option<Entry>, zone: string -> Option<Entry>)

  datatype Kind = Counties | Zones | FireZones | MarineZones

  predicate IsMarineState(state: string) {
    state in {"AM", "AN", "GM", "LC", "LE", "LH", "LM", "LO", "LS", "PH", "PK", "PM", "PS", "PZ", "SL"}
  }

  /** The one bucket a code belongs to. */
  function KindOf(c: Code): Kind {
    match c.geoclass
    case County => Counties
    case Zone => if IsMarineState(c.state) then MarineZones else Zones
    case Unknown => if IsMarineState(c.state) then MarineZones else Zones
    case FireZone => FireZones
    case Marine => MarineZones
  }

  function DigitChar(n: nat): char {
    ('0' as int + n % 10) as char
  }

  /** Decimal digits, at least three of them. */
  function Padded(n: nat): string {
    if n < 1000 then [DigitChar(n / 100), DigitChar(n / 10), DigitChar(n)] else Padded(n / 10) + [DigitChar(n)]
  }

  /** The digits write the number, at least three of them and no more than it takes. */
  ghost predicate Decimal(digits: string, n: nat) {
    && |digits| >= 3 && (|digits| > 3 ==> digits[0] != '0')
    && AllDigits(digits) && Value(digits) == n
  }

  lemma ValuePush(s: string, c: char)
    requires AllDigits(s) && IsDigit(c)
    ensures AllDigits(s + [c]) && Value(s + [c]) == 10 * Value(s) + (c as int - 48)
  {
    assert (s + [c])[..|s|] == s;
  }

  lemma ValueOfOne(a: char)
    requires IsDigit(a)
    ensures AllDigits([a]) && Value([a]) == a as int - 48
  {
    ValuePush("", a);
    assert "" + [a] == [a];
  }

  lemma ValueOfTwo(a: char, b: char)
    requires IsDigit(a) && IsDigit(b)
    ensures AllDigits([a, b]) && Value([a, b]) == 10 * (a as int - 48) + (b as int - 48)
  {
    ValueOfOne(a);
    ValuePush([a], b);
    assert [a] + [b] == [a, b];
  }

  lemma ValueOfThree(a: char, b: char, c: char)
    requires IsDigit(a) && IsDigit(b) && IsDigit(c)
    ensures AllDigits([a, b, c]) && Value([a, b, c]) == 100 * (a as int - 48) + 10 * (b as int - 48) + (c as int - 48)
  {
    ValueOfTwo(a, b);
    ValuePush([a, b], c);
    assert [a, b] + [c] == [a, b, c];
  }

  lemma DigitsAddUp(n: nat)
    requires n < 1000
    ensures 100 * (n / 100 % 10) + 10 * (n / 10 % 10) + n % 10 == n
  {
    assert n / 100 == n / 10 / 10;
  }

  lemma ThreeDigitsOf(n: nat)
    requires n < 1000
    ensures Decimal([DigitChar(n / 100), DigitChar(n / 10), DigitChar(n)], n)
  {
    ValueOfThree(DigitChar(n / 100), DigitChar(n / 10), DigitChar(n));
    DigitsAddUp(n);
  }

  lemma {:induction false} PaddedIsDecimal(n: nat)
    ensures Decimal(Padded(n), n)
  {
    if n < 1000 {
      ThreeDigitsOf(n);
    } else {
      PaddedIsDecimal(n / 10);
      LeadingDigit(n / 10);
      OneMoreDigit(Padded(n / 10), n);
    }
  }

  lemma OneMoreDigit(init: string, n: nat)
    requires Decimal(init, n / 10) && init[0] != '0'
    ensures Decimal(init + [DigitChar(n)], n)
  {
    var s, c := init + [DigitChar(n)], DigitChar(n);
    assert s[..|init|] == init && s[|init|] == c;
    assert Value(s) == 10 * Value(init) + n % 10;
  }

  lemma {:induction false} LeadingDigit(n: nat)
    requires n >= 100
    ensures Padded(n)[0] != '0'
  {
    if n >= 1000 {
      LeadingDigit(n / 10);
    }
  }

  function Canonical(c: Code): string {
    c.state + [ClassLetter(c.geoclass)] + Padded(c.number)
  }

  /** County and zone codes are looked up; fire-zone and marine codes are not. */
  function BuildArea(c: Code, catalogs: Catalogs): Area {
    var entry := match c.geoclass
                 case County => catalogs.county(Canonical(c))
                 case Zone => catalogs.zone(Canonical(c))
                 case Unknown => catalogs.zone(Canonical(c))
                 case _ => None;
    match entry
    case None => Area(c.number, None, None, None)
    case Some(e) => Area(c.number, Some(e.name), Some(e.latitude), Some(e.longitude))
  }

  /** The areas of one bucket and state, in code order. */
  function AreasOf(codes: seq<Code>, catalogs: Catalogs, kind: Kind, state: string): seq<Area> {
    if codes == [] then []
    else (
      var last := codes[|codes| - 1];
      AreasOf(codes[..|codes| - 1], catalogs, kind, state)
      + (if KindOf(last) == kind && last.state == state then [BuildArea(last, catalogs)] else [])
    )
  }

  /** The bucket lists exactly the areas of its kind in one state, or does not mention the state. */
  ghost predicate HoldsAt(b: Bucket, codes: seq<Code>, catalogs: Catalogs, kind: Kind, state: string) {
    var areas := AreasOf(codes, catalogs, kind, state);
    Lookup(b, state) == if areas == [] then None else Some(areas)
  }

  /** Every state once, in order, with exactly its areas. */
  ghost predicate Holds(b: Bucket, codes: seq<Code>, catalogs: Catalogs, kind: Kind) {
    Sorted(StringLess, b) && forall state :: HoldsAt(b, codes, catalogs, kind, state)
  }

  function Push(b: Bucket, state: string, area: Area): Bucket {
    var was := Lookup(b, state);
    Put(StringLess, b, state, (if was.Some? then was.value else []) + [area])
  }

  lemma {:induction false} AreasPush(codes: seq<Code>, catalogs: Catalogs, kind: Kind, c: Code, state: string)
    ensures AreasOf(codes + [c], catalogs, kind, state)
         == if KindOf(c) == kind && c.state == state
            then AreasOf(codes, catalogs, kind, state) + [BuildArea(c, catalogs)]
            else AreasOf(codes, catalogs, kind, state)
  {
    assert (codes + [c])[..|codes|] == codes;
    assert AreasOf(codes, catalogs, kind, state) + [] == AreasOf(codes, catalogs, kind, state);
  }

  lemma PushHoldsAt(b: Bucket, codes: seq<Code>, catalogs: Catalogs, kind: Kind, c: Code, state: string)
    requires Sorted(StringLess, b) && HoldsAt(b, codes, catalogs, kind, c.state)
    requires HoldsAt(b, codes, catalogs, kind, state)
    ensures HoldsAt(if KindOf(c) == kind then Push(b, c.state, BuildArea(c, catalogs)) else b, codes + [c], catalogs,
                    kind, state)
  {
    StringOrder();
    AreasPush(codes, catalogs, kind, c, state);
    var was := Lookup(b, c.state);
    LookupPut(StringLess, b, c.state, (if was.Some? then was.value else []) + [BuildArea(c, catalogs)], state);
  }

  lemma PushHolds(b: Bucket, codes: seq<Code>, catalogs: Catalogs, kind: Kind, c: Code)
    requires Holds(b, codes, catalogs, kind)
    ensures Holds(if KindOf(c) == kind then Push(b, c.state, BuildArea(c, catalogs)) else b, codes + [c], catalogs,
                  kind)
  {
    var after := if KindOf(c) == kind then Push(b, c.state, BuildArea(c, catalogs)) else b;
    forall state ensures HoldsAt(after, codes + [c], catalogs, kind, state) {
      PushHoldsAt(b, codes, catalogs, kind, c, state);
    }
    StringOrder();
    var was := Lookup(b, c.state);
    PutKeepsOrder(StringLess, b, c.state, (if was.Some? then was.value else []) + [BuildArea(c, catalogs)]);
  }

  /** How many areas a bucket holds. */
  function Total(b: Bucket): nat {
    if b == [] then 0 else |b[0].1| + Total(b[1..])
  }

  lemma {:induction false} PutTotal(b: Bucket, state: string, areas: seq<Area>)
    requires Sorted(StringLess, b)
    ensures Total(Put(StringLess, b, state, areas)) + (if Lookup(b, state).Some? then |Lookup(b, state).value| else 0)
         == Total(b) + |areas|
  {
    if b != [] {
      if b[0].0 == state {
        assert ([(state, areas)] + b[1..])[1..] == b[1..];
      } else if StringLess(state, b[0].0) {
        assert ([(state, areas)] + b)[1..] == b;
        LookupBeyond(b, state);
      } else {
        PutTotal(b[1..], state, areas);
        assert ([b[0]] + Put(StringLess, b[1..], state, areas))[1..] == Put(StringLess, b[1..], state, areas);
      }
    }
  }

  lemma {:induction false} PushTotal(b: Bucket, state: string, area: Area)
    requires Sorted(StringLess, b)
    ensures Total(Push(b, state, area)) == Total(b) + 1
  {
    var was := Lookup(b, state);
    PutTotal(b, state, (if was.Some? then was.value else []) + [area]);
  }

  lemma {:induction false} LookupBeyond(b: Bucket, state: string)
    requires Sorted(StringLess, b) && b != [] && StringLess(state, b[0].0)
    ensures Lookup(b, state).None?
  {
    LookupMember(b, state);
    StringOrder();
  }

  /** The buckets with one more code in the bucket of its kind. */
  function PushCode(s: Section, c: Code, area: Area): Section {
    match KindOf(c)
    case Counties => s.(counties := Push(s.counties, c.state, area))
    case Zones => s.(zones := Push(s.zones, c.state, area))
    case FireZones => s.(fireZones := Push(s.fireZones, c.state, area))
    case MarineZones => s.(marineZones := Push(s.marineZones, c.state, area))
  }

  /** Every bucket lists exactly the areas of its kind, and together they hold as many as there are codes. */
  ghost predicate Sorts(s: Section, codes: seq<Code>, catalogs: Catalogs) {
    && Holds(s.counties, codes, catalogs, Counties) && Holds(s.zones, codes, catalogs, Zones)
    && Holds(s.fireZones, codes, catalogs, FireZones) && Holds(s.marineZones, codes, catalogs, MarineZones)
    && Total(s.counties) + Total(s.zones) + Total(s.fireZones) + Total(s.marineZones) == |codes|
  }

  lemma PushCodeSorts(s: Section, codes: seq<Code>, catalogs: Catalogs, c: Code)
    requires Sorts(s, codes, catalogs)
    ensures Sorts(PushCode(s, c, BuildArea(c, catalogs)), codes + [c], catalogs)
  {
    var area := BuildArea(c, catalogs);
    PushHolds(s.counties, codes, catalogs, Counties, c);
    PushHolds(s.zones, codes, catalogs, Zones, c);
    PushHolds(s.fireZones, codes, catalogs, FireZones, c);
    PushHolds(s.marineZones, codes, catalogs, MarineZones, c);
    match KindOf(c)
    case Counties => PushTotal(s.counties, c.state, area);
    case Zones => PushTotal(s.zones, c.state, area);
    case FireZones => PushTotal(s.fireZones, c.state, area);
    case MarineZones => PushTotal(s.marineZones, c.state, area);
  }

  /** Sorting a code list into buckets loses nothing, duplicates nothing and keeps per-state order. */
  method FromCodes(codes: seq<Code>, expires: int, catalogs: Catalogs) returns (s: Section)
    ensures Sorts(s, codes, catalogs) && s.expires == expires
  {
    var counties: Bucket, zones: Bucket, fireZones: Bucket, marineZones: Bucket := [], [], [], [];
    assert codes[..0] == [];
    for i := 0 to |codes|
      invariant Sorts(Section(counties, zones, fireZones, marineZones, expires), codes[..i], catalogs)
    {
      var c := codes[i];
      assert codes[..i + 1] == codes[..i] + [c];
      var area := BuildArea(c, catalogs);
      ghost var before := Section(counties, zones, fireZones, marineZones, expires);
      match c.geoclass {
        case County => counties := Push(counties, c.state, area);
        case FireZone => fireZones := Push(fireZones, c.state, area);
        case Marine => marineZones := Push(marineZones, c.state, area);
        case _ =>
          if IsMarineState(c.state) {
            marineZones := Push(marineZones, c.state, area);
          } else {
            zones := Push(zones, c.state, area);
          }
      }
      assert Section(counties, zones, fireZones, marineZones, expires) == PushCode(before, c, area);
      PushCodeSorts(before, codes[..i], catalogs, c);
    }
    assert codes[..|codes|] == codes;
    return Section(counties, zones, fireZones, marineZones, expires);
  }
}
