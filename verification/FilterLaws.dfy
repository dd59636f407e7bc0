/**
 * What the geography filters accept, said of the areas of a body and of codes
 * as they are written; and the order of keys, said of their first difference.
 */
module FilterLaws {
  import opened Prelude
  import opened Digits
  import opened UgcSection
  import opened OrderedMap
  import opened Body
  import opened BodyRows
  import opened BodyIndex
  import opened IncidentUpdates

  // ---------- codes as written ----------

  lemma {:induction false} DecimalUnique(digits: string, n: nat)
    requires Decimal(digits, n)
    ensures digits == Padded(n)
    decreases |digits|
  {
    var k := |digits| - 1;
    var init := digits[..k];
    if k == 2 {
      ThreeDigits(digits, n);
    } else {
      assert Value(digits) == 10 * Value(init) + (digits[k] as int - 48);
      assert Decimal(init, n / 10);
      DecimalUnique(init, n / 10);
      LeadingValue(init);
      assert digits == init + [digits[k]];
    }
  }

  lemma {:induction false} ThreeDigits(digits: string, n: nat)
    requires |digits| == 3 && AllDigits(digits) && Value(digits) == n
    ensures digits == Padded(n)
  {
    var a, b, c := digits[0], digits[1], digits[2];
    assert digits == [a, b, c];
    ValueOfThree(a, b, c);
    Places(a as int - 48, b as int - 48, c as int - 48);
    assert DigitChar(n / 100) == a && DigitChar(n / 10) == b && DigitChar(n) == c;
  }

  lemma Places(x: nat, y: nat, z: nat)
    requires x < 10 && y < 10 && z < 10
    ensures var n := 100 * x + 10 * y + z; n / 100 == x && n / 10 % 10 == y && n % 10 == z
  {
    assert (100 * x + 10 * y + z) / 10 == 10 * x + y;
  }

  /** Three digits or more without a leading zero, or just three, reach a hundred or stay three wide. */
  lemma {:induction false} LeadingValue(s: string)
    requires |s| >= 3 && AllDigits(s) && s[0] != '0'
    ensures Value(s) >= 100
  {
    if |s| == 3 {
      assert s == [s[0], s[1], s[2]];
      ValueOfThree(s[0], s[1], s[2]);
    } else {
      LeadingValue(s[..|s| - 1]);
    }
  }

  /** Some area of the kind is written so and allowed. */
  ghost predicate Carries(sections: seq<Section>, kind: Kind, letter: char, allowed: set<string>) {
    exists s, e, a, digits :: CarriedBy(sections, kind, letter, allowed, s, e, a, digits)
  }

  ghost predicate CarriedBy(sections: seq<Section>, kind: Kind, letter: char, allowed: set<string>,
                            s: Section, e: (string, seq<Area>), a: Area, digits: string) {
    && s in sections && e in BucketOf(s, kind) && a in e.1
    && Decimal(digits, a.id) && e.0 + [letter] + digits in allowed
  }

  lemma CarriesIs(sections: seq<Section>, kind: Kind, allowed: set<string>)
    ensures MatchesCodes(Some(allowed), sections, kind) <==> Carries(sections, kind, PublishedLetter(kind), allowed)
  {
    var letter := PublishedLetter(kind);
    if MatchesCodes(Some(allowed), sections, kind) {
      var s :| s in sections && AnyCode(BucketOf(s, kind), letter, allowed);
      var e :| e in BucketOf(s, kind) && exists a :: a in e.1 && CodeText(e.0, letter, a.id) in allowed;
      var a :| a in e.1 && CodeText(e.0, letter, a.id) in allowed;
      PaddedIsDecimal(a.id);
      assert CarriedBy(sections, kind, letter, allowed, s, e, a, Padded(a.id));
    }
    if s, e, a, digits :| CarriedBy(sections, kind, letter, allowed, s, e, a, digits) {
      DecimalUnique(digits, a.id);
      assert CodeText(e.0, letter, a.id) in allowed;
      assert AnyCode(BucketOf(s, kind), letter, allowed);
    }
  }

  /** Some area or area list of the sections is of an allowed state. */
  ghost predicate InStates(sections: seq<Section>, allowed: set<string>) {
    exists s, kind, e :: s in sections && e in BucketOf(s, kind) && e.0 in allowed
  }

  lemma InStatesIs(sections: seq<Section>, allowed: set<string>)
    ensures MatchesStates(Some(allowed), sections) <==> InStates(sections, allowed)
  {
    if s, kind, e :| s in sections && e in BucketOf(s, kind) && e.0 in allowed {
      assert SectionInStates(s, allowed);
    }
    if MatchesStates(Some(allowed), sections) {
      var s :| s in sections && SectionInStates(s, allowed);
      var kind := if AnyState(s.counties, allowed) then Counties else if AnyState(s.zones, allowed) then Zones
                  else if AnyState(s.fireZones, allowed) then FireZones else MarineZones;
      var e :| e in BucketOf(s, kind) && e.0 in allowed;
    }
  }

  /**
   * A filter without constraints accepts everything. Any other asks for a body
   * with sections, and for each set it gives, for one state or one written code of
   * that set; marine codes are written as zones.
   */
  lemma FilterLaw(f: GeoFilter, body: Option<ProductBody>)
    ensures f.Matches(body) <==>
      || (f.states.None? && f.counties.None? && f.zones.None? && f.fireZones.None? && f.marineZones.None?)
      || (body.Some? && UgcSections(body.value) != []
          && (f.states.Some? ==> InStates(UgcSections(body.value), f.states.value))
          && (f.counties.Some? ==> Carries(UgcSections(body.value), Counties, 'C', f.counties.value))
          && (f.zones.Some? ==> Carries(UgcSections(body.value), Zones, 'Z', f.zones.value))
          && (f.fireZones.Some? ==> Carries(UgcSections(body.value), FireZones, 'F', f.fireZones.value))
          && (f.marineZones.Some? ==> Carries(UgcSections(body.value), MarineZones, 'Z', f.marineZones.value)))
  {
    if body.Some? {
      var sections := UgcSections(body.value);
      if f.states.Some? {
        InStatesIs(sections, f.states.value);
      }
      if f.counties.Some? {
        CarriesIs(sections, Counties, f.counties.value);
      }
      if f.zones.Some? {
        CarriesIs(sections, Zones, f.zones.value);
      }
      if f.fireZones.Some? {
        CarriesIs(sections, FireZones, f.fireZones.value);
      }
      if f.marineZones.Some? {
        CarriesIs(sections, MarineZones, f.marineZones.value);
      }
    }
  }

  // ---------- the order of keys ----------

  /** Equal up to `k`, where the first ends or has the smaller character. */
  ghost predicate FirstDifference(a: string, b: string, k: nat) {
    && k <= |a| && k < |b| && a[..k] == b[..k]
    && (k < |a| ==> a[k] < b[k])
  }

  lemma HeadsOf(a: string, b: string, k: nat)
    requires k <= |a| && k <= |b|
    ensures k > 0 && a[..k] == b[..k] ==> a[0] == b[0]
  {
    assert k > 0 ==> a[..k][0] == a[0] && b[..k][0] == b[0];
  }

  lemma {:induction false} StringLessIs(a: string, b: string)
    ensures StringLess(a, b) <==> exists k: nat :: FirstDifference(a, b, k)
  {
    if b != "" {
      if a == "" {
        assert FirstDifference(a, b, 0);
      } else if a[0] != b[0] {
        assert a[0] < b[0] ==> FirstDifference(a, b, 0);
        forall k: nat | FirstDifference(a, b, k) ensures k == 0 {
          HeadsOf(a, b, k);
        }
      } else {
        StringLessIs(a[1..], b[1..]);
        if k: nat :| FirstDifference(a[1..], b[1..], k) {
          assert a[..k + 1] == [a[0]] + a[1..][..k] && b[..k + 1] == [b[0]] + b[1..][..k];
          assert FirstDifference(a, b, k + 1);
        }
        if k: nat :| FirstDifference(a, b, k) {
          assert k > 0;
          assert a[1..][..k - 1] == a[..k][1..] && b[1..][..k - 1] == b[..k][1..];
          assert FirstDifference(a[1..], b[1..], k - 1);
        }
      }
    }
  }

  /** Incidents are ordered by office, then phenomena, then significance, then number. */
  lemma KeyOrderLaw(a: Key, b: Key)
    ensures KeyLess(a, b) <==>
      || StringLess(a.office, b.office)
      || (a.office == b.office && StringLess(a.phenomena, b.phenomena))
      || (a.office == b.office && a.phenomena == b.phenomena && StringLess(a.significance, b.significance))
      || (a.office == b.office && a.phenomena == b.phenomena && a.significance == b.significance && a.etn < b.etn)
  {
    StringOrder();
  }
}
