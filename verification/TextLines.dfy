/**
 * What the parsers look for at the start of a line, said of the line itself:
 * leading white space, capitals, digits, markers in any letter case.
 */
module TextLines {
  import opened Ascii
  import opened Digits
  import opened Ugc

  ghost predicate Blank(c: char) {
    c == ' ' || c == '\t' || c == '\n' || c == '\r' || c == 11 as char || c == 12 as char
  }

  ghost predicate Indented(line: string, w: nat) {
    w <= |line| && forall i :: 0 <= i < w ==> Blank(line[i])
  }

  /** The line without the white space at its end. */
  ghost predicate IsTrimmed(line: string, t: string) {
    && t <= line
    && (forall i :: |t| <= i < |line| ==> Blank(line[i]))
    && (t != "" ==> !Blank(t[|t| - 1]))
  }

  /** After white space the line begins with the marker, in any letter case. */
  ghost predicate Begins(line: string, marker: string) {
    exists w: nat :: BeginsAt(line, marker, w)
  }

  ghost predicate BeginsAt(line: string, marker: string, w: nat) {
    Indented(line, w) && w + |marker| <= |line| && SameText(line[w..w + |marker|], marker)
  }

  /** The line holds two dollar signs and nothing else. */
  ghost predicate EndMark(line: string) {
    exists w: nat :: EndMarkAt(line, w)
  }

  ghost predicate EndMarkAt(line: string, w: nat) {
    && Indented(line, w) && w + 2 <= |line| && line[w] == '$' && line[w + 1] == '$'
    && forall i :: w + 2 <= i < |line| ==> Blank(line[i])
  }

  ghost predicate Capital(c: char) {
    c in CAPITALS
  }

  ghost predicate Digit(c: char) {
    c in "0123456789"
  }

  /** Two capitals, a class letter and three digits, with nothing or a delimiter behind them. */
  ghost predicate UgcLine(line: string) {
    exists w: nat :: UgcLineAt(line, w)
  }

  ghost predicate UgcLineAt(line: string, w: nat) {
    && Indented(line, w) && w + 6 <= |line|
    && Capital(line[w]) && Capital(line[w + 1]) && line[w + 2] in "CZFM"
    && Digit(line[w + 3]) && Digit(line[w + 4]) && Digit(line[w + 5])
    && (w + 6 < |line| ==> line[w + 6] in "->, \t")
  }

  // ---------- the code's own tests ----------

  lemma WhiteIsBlank(c: char)
    ensures IsWhite(c) <==> Blank(c)
  {
  }

  lemma UpperIsCapital(c: char)
    ensures IsUpper(c) <==> Capital(c)
  {
    if IsUpper(c) {
      Alphabet(c as int - 65);
      assert c == CAPITALS[c as int - 65];
    } else if Capital(c) {
      var i :| 0 <= i < 26 && CAPITALS[i] == c;
      Alphabet(i);
    }
  }

  lemma DigitIsDigit(c: char)
    ensures IsDigit(c) <==> Digit(c)
  {
    if IsDigit(c) {
      assert c == "0123456789"[c as int - 48];
    }
  }

  lemma {:induction false} TrimStartAt(s: string) returns (w: nat)
    ensures Indented(s, w) && TrimStart(s) == s[w..] && (w < |s| ==> !Blank(s[w]))
  {
    if s != "" {
      WhiteIsBlank(s[0]);
    }
    if s != "" && IsWhite(s[0]) {
      var v := TrimStartAt(s[1..]);
      w := v + 1;
      assert s[1..][v..] == s[w..];
      forall i | 0 <= i < w ensures Blank(s[i]) {
        assert i > 0 ==> s[i] == s[1..][i - 1];
      }
    } else {
      w := 0;
    }
  }

  lemma {:induction false} TrimEndIs(s: string)
    ensures IsTrimmed(s, TrimEnd(s))
  {
    var n := |s| - 1;
    if s != "" {
      WhiteIsBlank(s[n]);
      if IsWhite(s[n]) {
        TrimEndIs(s[..n]);
        forall i | |TrimEnd(s)| <= i < |s| ensures Blank(s[i]) {
          assert i < n ==> s[..n][i] == s[i];
        }
      }
    }
  }

  lemma TrimmedUnique(line: string, t: string, u: string)
    requires IsTrimmed(line, t) && IsTrimmed(line, u)
    ensures t == u
  {
    assert t == line[..|t|] && u == line[..|u|];
  }

  lemma CapitalNotBlank(c: char)
    requires Capital(c)
    ensures !Blank(c)
  {
    UpperIsCapital(c);
  }

  lemma ClassIs(c: char)
    ensures IsClass(c) <==> c in "CZFM"
  {
  }

  lemma DelimiterIs(c: char)
    ensures c in "->, \t" <==> c == '-' || c == '>' || c == ',' || c == ' ' || c == 9 as char
  {
  }

  /** The six bytes of a header and the one behind them. */
  lemma HeaderIs(t: string)
    requires |t| >= 6
    ensures UgcLineAt(t, 0) <==>
      && IsUpper(t[0]) && IsUpper(t[1]) && IsClass(t[2]) && IsDigit(t[3]) && IsDigit(t[4]) && IsDigit(t[5])
      && (|t| > 6 ==> t[6] == '-' || t[6] == '>' || t[6] == ',' || t[6] == ' ' || t[6] == 9 as char)
  {
    UpperIsCapital(t[0]);
    UpperIsCapital(t[1]);
    ClassIs(t[2]);
    DigitIsDigit(t[3]);
    DigitIsDigit(t[4]);
    DigitIsDigit(t[5]);
    if |t| > 6 {
      DelimiterIs(t[6]);
    }
  }

  lemma HeaderBehind(line: string, w: nat)
    requires Indented(line, w)
    ensures UgcLineAt(line, w) <==> UgcLineAt(line[w..], 0)
  {
    var t := line[w..];
    if |t| >= 6 {
      assert t[0] == line[w] && t[1] == line[w + 1] && t[2] == line[w + 2];
      assert t[3] == line[w + 3] && t[4] == line[w + 4] && t[5] == line[w + 5];
      assert |t| > 6 ==> t[6] == line[w + 6];
    }
  }

  lemma HeaderPlace(line: string, v: nat, w: nat)
    requires UgcLineAt(line, v) && Indented(line, w) && (w < |line| ==> !Blank(line[w]))
    ensures v == w
  {
    var c := line[v];
    CapitalNotBlank(c);
  }

  /** The test for the start of a UGC block, for all lines. */
  lemma UgcStartIs(line: string)
    ensures IsUgcStart(line) <==> UgcLine(line)
  {
    var w := TrimStartAt(line);
    HeaderBehind(line, w);
    if |line[w..]| >= 6 {
      HeaderIs(line[w..]);
    }
    assert IsUgcStart(line) <==> UgcLineAt(line, w) by {
      assert TrimStart(line) == line[w..];
    }
    if UgcLine(line) {
      var v: nat :| UgcLineAt(line, v);
      HeaderPlace(line, v, w);
    }
  }

  lemma EndMarkIs(line: string)
    ensures Trim(line) == "$$" <==> EndMark(line)
  {
    var w := TrimStartAt(line);
    var t := line[w..];
    TrimEndIs(t);
    if Trim(line) == "$$" {
      assert "$$" <= t && t[0] == '$' && t[1] == '$';
      forall i | w + 2 <= i < |line| ensures Blank(line[i]) {
        assert t[i - w] == line[i];
      }
      assert EndMarkAt(line, w);
    }
    if EndMark(line) {
      var v: nat :| EndMarkAt(line, v);
      assert v == w;
      assert t[0] == '$' && t[1] == '$';
      assert IsTrimmed(t, "$$") by {
        assert t[..2] == "$$";
        forall i | 2 <= i < |t| ensures Blank(t[i]) {
          assert t[i] == line[w + i];
        }
      }
      TrimmedUnique(t, TrimEnd(t), "$$");
    }
  }
}
