/**
 * What one product, or one sweep, leaves in the incident table, said of the
 * product's VTEC codes and the row that was there.
 */
module IncidentOfProduct {
  import opened Prelude
  import opened Body
  import opened IncidentUpdates
  import opened IncidentTable
  import opened UpdatesOfCodes

  /** The row holds what the incident's codes say, under the product that brought them. */
  ghost predicate HoldsCodes(row: Incident, cs: seq<VtecCode>, product: int, issuedAt: int) {
    && cs != [] && row.action == cs[|cs| - 1].action && LeastBegin(row.start, cs) && GreatestEnd(row.end, cs)
    && row.issuedAt == issuedAt && row.latestTimestamp == issuedAt && row.latestProduct == product
  }

  /** The row a product leaves behind for an incident with the codes `cs`; `was` is the row before. */
  ghost predicate Leaves(was: Option<Incident>, after: Option<Incident>, cs: seq<VtecCode>, product: int,
                         issuedAt: int) {
    if was.Some? && issuedAt < was.value.latestTimestamp then after == was
    else exists status ::
      && LastStatus(status, cs)
      && (status.None? && was.None? ==> after.None?)
      && (status.Some? || was.Some? ==>
            && after.Some? && HoldsCodes(after.value, cs, product, issuedAt)
            && after.value.status == (if status.Some? then status else was.value.status)
            && after.value.firstProduct == (if was.Some? then was.value.firstProduct else product))
  }

  lemma KeysDiffer(updates: seq<Update>)
    requires forall i, j :: 0 <= i < j < |updates| ==> KeyLess(updates[i].key, updates[j].key)
    ensures DistinctKeys(updates)
  {
    KeyOrder();
  }

  /** A product speaks of the incidents its codes are of, and of those only. */
  lemma {:induction false} ProductLeaves(t: Table, product: int, updates: seq<Update>, codes: seq<VtecCode>,
                                         issuedAt: int, k: Key)
    requires UpdatesFor(updates, codes, issuedAt)
    requires forall key :: key in t ==> t[key].status.Some?
    ensures var after := Find(Run(t, Arrivals(product, updates)), k);
      if CodesOn(codes, k) == [] then after == Find(t, k)
      else Leaves(Find(t, k), after, CodesOn(codes, k), product, issuedAt)
  {
    KeysDiffer(updates);
    RowsAreIndependent(t, Arrivals(product, updates), k);
    if i :| 0 <= i < |updates| && updates[i].key == k {
      OwnUpdate(Find(t, k), product, updates, i);
      assert SpeaksFor(updates[i], CodesOn(codes, k), issuedAt);
      UpdateLeaves(Find(t, k), product, updates[i], CodesOn(codes, k), issuedAt);
    } else {
      ForeignUpdates(Find(t, k), k, product, updates);
      KeyIsPresent(updates, codes, issuedAt, k);
    }
  }

  lemma {:induction false} KeyIsPresent(updates: seq<Update>, codes: seq<VtecCode>, issuedAt: int, k: Key)
    requires UpdatesFor(updates, codes, issuedAt)
    ensures CodesOn(codes, k) != [] ==> exists i :: 0 <= i < |updates| && updates[i].key == k
  {
    if CodesOn(codes, k) != [] {
      var c := CodesOn(codes, k)[0];
      assert c in CodesOn(codes, k);
      var i :| 0 <= i < |updates| && OfIncident(c, updates[i].key);
      assert updates[i].key == k;
    }
  }

  lemma UpdateLeaves(was: Option<Incident>, product: int, u: Update, cs: seq<VtecCode>, issuedAt: int)
    requires SpeaksFor(u, cs, issuedAt) && (was.Some? ==> was.value.status.Some?)
    ensures Leaves(was, UpsertRow(was, product, u), cs, product, issuedAt)
  {
    assert LastStatus(u.status, cs);
  }

  /** A sweep turns what is active and ended before `now` to expired, and touches nothing else. */
  lemma {:induction false} SweepLeaves(t: Table, now: int, k: Key)
    ensures var after := Find(Run(t, [Expiry(now)]), k);
      if k in t && t[k].status == Some("active") && t[k].end.Some? && t[k].end.value < now
      then after == Some(t[k].(status := Some("expired")))
      else after == Find(t, k)
  {
    assert [Expiry(now)][..0] == [];
    assert Run(t, []) == t;
  }
}
