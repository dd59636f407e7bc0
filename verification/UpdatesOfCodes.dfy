/**
 * The incident updates of a product, said of its VTEC codes as parsed: which
 * codes an update speaks for and what it takes from them.
 */
module UpdatesOfCodes {
  import opened Prelude
  import opened Body
  import opened BodyRows
  import opened IncidentUpdates
  import opened RowCounts

  /** The code is operational and belongs to the incident. */
  ghost predicate OfIncident(c: VtecCode, k: Key) {
    && c.status == 'O' && c.office == k.office && c.phenomena == k.phenomena && [c.significance] == k.significance
    && c.etn == k.etn
  }

  /** The codes of one incident, in order. */
  ghost function CodesOn(codes: seq<VtecCode>, k: Key): (r: seq<VtecCode>)
    ensures forall c :: c in r <==> c in codes && OfIncident(c, k)
  {
    if codes == [] then []
    else (
      var n := |codes| - 1;
      assert codes == codes[..n] + [codes[n]];
      CodesOn(codes[..n], k) + (if OfIncident(codes[n], k) then [codes[n]] else [])
    )
  }

  /** Which actions set which status: new, continued and extended incidents are active. */
  ghost predicate Sets(action: string, status: string) {
    || (status == "active"
        && (action == "NEW" || action == "CON" || action == "EXT" || action == "EXA" || action == "EXB"))
    || (status == "cancelled" && action == "CAN")
    || (status == "expired" && action == "EXP")
    || (status == "upgraded" && action == "UPG")
  }

  ghost predicate LeastBegin(start: Option<int>, cs: seq<VtecCode>) {
    && (start.Some? ==> exists c :: c in cs && c.begin == start)
    && forall c :: c in cs && c.begin.Some? ==> start.Some? && start.value <= c.begin.value
  }

  ghost predicate GreatestEnd(end: Option<int>, cs: seq<VtecCode>) {
    && (end.Some? ==> exists c :: c in cs && c.end == end)
    && forall c :: c in cs && c.end.Some? ==> end.Some? && c.end.value <= end.value
  }

  /** Set by the last code that sets one. */
  ghost predicate LastStatus(status: Option<string>, cs: seq<VtecCode>) {
    if status.Some? then
      exists i :: 0 <= i < |cs| && Sets(cs[i].action, status.value)
                  && forall j, s :: i < j < |cs| ==> !Sets(cs[j].action, s)
    else forall i, s :: 0 <= i < |cs| ==> !Sets(cs[i].action, s)
  }

  ghost predicate SpeaksFor(u: Update, cs: seq<VtecCode>, issuedAt: int) {
    && cs != [] && u.action == cs[|cs| - 1].action && LastStatus(u.status, cs)
    && LeastBegin(u.start, cs) && GreatestEnd(u.end, cs)
    && u.issuedAt == issuedAt && u.timestamp == issuedAt
  }

  /** One update for each incident with an operational code, in the order of their keys. */
  ghost predicate UpdatesFor(updates: seq<Update>, codes: seq<VtecCode>, issuedAt: int) {
    && (forall i, j :: 0 <= i < j < |updates| ==> KeyLess(updates[i].key, updates[j].key))
    && (forall c :: c in codes && c.status == 'O' ==>
          exists i :: 0 <= i < |updates| && OfIncident(c, updates[i].key))
    && (forall i :: 0 <= i < |updates| ==> SpeaksFor(updates[i], CodesOn(codes, updates[i].key), issuedAt))
  }

  // ---------- rows and codes ----------

  lemma CodeRowOf(c: VtecCode, k: Key)
    ensures (CodeRow(c).status == "O" && CodeRow(c).key == k) <==> OfIncident(c, k)
    ensures CodeRow(c).action == c.action && CodeRow(c).begin == c.begin && CodeRow(c).end == c.end
  {
    assert [c.status] == "O" <==> c.status == 'O';
  }

  lemma {:induction false} CodeRowsAt(cs: seq<VtecCode>)
    ensures |CodeRows(cs)| == |cs|
    ensures forall i :: 0 <= i < |cs| ==> CodeRows(cs)[i] == CodeRow(cs[i])
  {
    if cs != [] {
      CodeRowsAt(cs[..|cs| - 1]);
    }
  }

  lemma {:induction false} RowsOfCodes(codes: seq<VtecCode>, k: Key)
    ensures RowsOf(CodeRows(codes), k) == CodeRows(CodesOn(codes, k))
  {
    if codes != [] {
      var n := |codes| - 1;
      var c, before := codes[n], CodesOn(codes[..n], k);
      RowsOfCodes(codes[..n], k);
      RowsPush(CodeRows(codes[..n]), CodeRow(c), k);
      CodeRowOf(c, k);
      if OfIncident(c, k) {
        assert (before + [c])[..|before|] == before;
      } else {
        assert before + [] == before;
      }
    }
  }

  lemma MapsIff(action: string, status: string)
    ensures MapStatus(action) == Some(status) <==> Sets(action, status)
  {
  }

  lemma {:induction false} StatusIs(status: Option<string>, cs: seq<VtecCode>)
    requires IsStatus(status, CodeRows(cs))
    ensures LastStatus(status, cs)
  {
    CodeRowsAt(cs);
    var rs := CodeRows(cs);
    forall i, s | 0 <= i < |cs| ensures MapStatus(rs[i].action) == Some(s) <==> Sets(cs[i].action, s) {
      CodeRowOf(cs[i], CodeRow(cs[i]).key);
      MapsIff(cs[i].action, s);
    }
    if status.Some? {
      var i :| 0 <= i < |rs| && MapStatus(rs[i].action) == status
               && forall j :: i < j < |rs| ==> MapStatus(rs[j].action).None?;
      assert Sets(cs[i].action, status.value);
      forall j, s | i < j < |cs| ensures !Sets(cs[j].action, s) {
        assert MapStatus(rs[j].action).None?;
      }
    } else {
      forall i, s | 0 <= i < |cs| ensures !Sets(cs[i].action, s) {
        assert MapStatus(rs[i].action).None?;
      }
    }
  }

  lemma {:induction false} StartIs(start: Option<int>, cs: seq<VtecCode>)
    requires IsStart(start, CodeRows(cs))
    ensures LeastBegin(start, cs)
  {
    CodeRowsAt(cs);
    var rs := CodeRows(cs);
    forall i | 0 <= i < |cs| ensures rs[i].begin == cs[i].begin {
      CodeRowOf(cs[i], CodeRow(cs[i]).key);
    }
    if start.Some? {
      var i :| 0 <= i < |rs| && rs[i].begin == start;
      assert cs[i] in cs;
    }
    forall c | c in cs && c.begin.Some? ensures start.Some? && start.value <= c.begin.value {
      var i :| 0 <= i < |cs| && cs[i] == c;
      assert rs[i].begin == c.begin;
    }
  }

  lemma {:induction false} EndIs(end: Option<int>, cs: seq<VtecCode>)
    requires IsEnd(end, CodeRows(cs))
    ensures GreatestEnd(end, cs)
  {
    CodeRowsAt(cs);
    var rs := CodeRows(cs);
    forall i | 0 <= i < |cs| ensures rs[i].end == cs[i].end {
      CodeRowOf(cs[i], CodeRow(cs[i]).key);
    }
    if end.Some? {
      var i :| 0 <= i < |rs| && rs[i].end == end;
      assert cs[i] in cs;
    }
    forall c | c in cs && c.end.Some? ensures end.Some? && c.end.value <= end.value {
      var i :| 0 <= i < |cs| && cs[i] == c;
      assert rs[i].end == c.end;
    }
  }

  lemma {:induction false} OneSpeaksFor(u: Update, codes: seq<VtecCode>, issuedAt: int)
    requires Summarizes(Summary(u.status, u.action, u.start, u.end), RowsOf(CodeRows(codes), u.key))
    requires u.issuedAt == issuedAt && u.timestamp == issuedAt
    ensures SpeaksFor(u, CodesOn(codes, u.key), issuedAt)
  {
    var cs := CodesOn(codes, u.key);
    RowsOfCodes(codes, u.key);
    CodeRowsAt(cs);
    CodeRowOf(cs[|cs| - 1], u.key);
    StatusIs(u.status, cs);
    StartIs(u.start, cs);
    EndIs(u.end, cs);
  }

  /** What grouping the rows yields, said of the codes. */
  lemma {:induction false} UpdatesSpeak(updates: seq<Update>, codes: seq<VtecCode>, issuedAt: int)
    requires IsSummaryOf(updates, CodeRows(codes), issuedAt)
    ensures UpdatesFor(updates, codes, issuedAt)
  {
    forall i | 0 <= i < |updates| ensures SpeaksFor(updates[i], CodesOn(codes, updates[i].key), issuedAt) {
      OneSpeaksFor(updates[i], codes, issuedAt);
    }
    forall c | c in codes && c.status == 'O'
      ensures exists i :: 0 <= i < |updates| && OfIncident(c, updates[i].key)
    {
      var k := Key(c.office, c.phenomena, [c.significance], c.etn);
      RowsOfCodes(codes, k);
      CodeRowsAt(CodesOn(codes, k));
      assert c in CodesOn(codes, k);
      var i :| 0 <= i < |updates| && updates[i].key == k;
      assert OfIncident(c, updates[i].key);
    }
  }
}
