/**
 * The repairing tokenizer of LAT...LON blocks: tokens split by stray
 * whitespace, packed latitude-longitude pairs and fused longitude-latitude
 * pairs all normalize to one list of coordinates.
 */
module LatLonTokens {
  import opened Prelude
  import opened Digits
  import opened Geo

  predicate Negative(s: string) {
    s != "" && s[0] == '-'
  }

  function TrimMinus(s: string): string {
    if Negative(s) then TrimMinus(s[1..]) else s
  }

  // ---------- one coordinate ----------

  /** Magnitude in degrees by the token's width; widths other than 4 to 8 are plain numbers. */
  function Magnitude(s: string): real
    requires s != "" && AllDigits(s)
  {
    var n := |s|;
    if n == 4 || n == 5 then Value(s) as real / 100.0
    else if n == 6 then
      Value(s[0..2]) as real + Value(s[2..4]) as real / 60.0 + Value(s[4..6]) as real / 3600.0
    else if n == 7 then
      Value(s[0..2]) as real + Value(s[2..7]) as real / 100000.0
    else if n == 8 then
      Value(s[0..2]) as real + Value(s[2..4]) as real / 60.0
      + (Value(s[4..6]) as real + Value(s[6..8]) as real / 100.0) / 3600.0
    else Value(s) as real
  }

  /** Latitude as is; longitude shifted into the western hemisphere and negated; explicit signs are kept. */
  function ParseCoordinate(s: string, isLatitude: bool): Option<real> {
    if Negative(s) then
      if |s| > 1 && AllDigits(s[1..]) then Some(-(Value(s[1..]) as real)) else None
    else if s == "" || !AllDigits(s) then None
    else (
      var m := Magnitude(s);
      if isLatitude then Some(m) else if m < 40.0 then Some(-(m + 100.0)) else Some(-m)
    )
  }

  // ---------- from words to tokens ----------

  predicate IsTerminator(token: string) {
    token == "$$" || token == "&&"
  }

  /** Joins words until the token is four to eight characters wide; the rest follows. */
  function Consume(words: seq<string>, acc: string): Option<(string, seq<string>)> {
    if words == [] then None
    else (
      var token := acc + words[0];
      if 4 <= |token| <= 8 then
        if AllDigits(TrimMinus(token)) then Some((token, words[1..])) else None
      else if |token| > 8 then None
      else Consume(words[1..], token)
    )
  }

  function SplitPacked(normalized: seq<string>, token: string): Option<(string, string)> {
    if Negative(token) || |token| != 8 || |normalized| % 2 != 0 then None
    else if ParseCoordinate(token[..4], true).Some? && ParseCoordinate(token[4..], false).Some?
    then Some((token[..4], token[4..])) else None
  }

  function SplitFused(normalized: seq<string>, token: string): Option<(string, string)> {
    if Negative(token) || |token| != 8 || |normalized| % 2 == 0 then None
    else if exists i :: 0 <= i < |normalized| && (Negative(normalized[i]) || |normalized[i]| > 5) then None
    else if ParseCoordinate(normalized[|normalized| - 1], true).Some?
         && ParseCoordinate(token[..4], false).Some? && ParseCoordinate(token[4..], true).Some?
    then Some((token[..4], token[4..])) else None
  }

  /** The coordinates a token contributes, and whether a repair was reported. */
  function Contribution(normalized: seq<string>, token: string): (seq<string>, bool) {
    var packed := SplitPacked(normalized, token);
    if packed.Some? then ([packed.value.0, packed.value.1], false)
    else (
      var fused := SplitFused(normalized, token);
      if fused.Some? then ([fused.value.0, fused.value.1], true) else ([token], false)
    )
  }

  lemma {:induction false} ConsumeShrinks(words: seq<string>, acc: string)
    requires |acc| < 4
    ensures Consume(words, acc).Some? ==>
      var (token, rest) := Consume(words, acc).value;
      |rest| < |words| && 4 <= |token| <= 8 && AllDigits(TrimMinus(token))
  {
    if words != [] && |acc + words[0]| < 4 {
      ConsumeShrinks(words[1..], acc + words[0]);
    }
  }

  /** The tokens before the first terminator; `None` when one cannot be formed. */
  function Tokens(words: seq<string>): Option<seq<string>>
    decreases |words|
  {
    if words == [] || IsTerminator(words[0]) then Some([])
    else (
      ConsumeShrinks(words, "");
      match Consume(words, "")
      case None => None
      case Some((token, rest)) =>
        match Tokens(rest)
        case None => None
        case Some(more) => Some([token] + more)
    )
  }

  /** The coordinates after the given tokens, and the tokens reported as repaired. */
  function Arrange(tokens: seq<string>, normalized: seq<string>, repaired: seq<string>): (seq<string>, seq<string>)
    decreases |tokens|
  {
    if tokens == [] then (normalized, repaired)
    else (
      var (coords, repair) := Contribution(normalized, tokens[0]);
      Arrange(tokens[1..], normalized + coords, if repair then repaired + [tokens[0]] else repaired)
    )
  }

  /** `Arrange` for the tokens still to come. */
  function ArrangeRest(tokens: Option<seq<string>>, normalized: seq<string>,
                       repaired: seq<string>): Option<(seq<string>, seq<string>)> {
    match tokens
    case None => None
    case Some(ts) => Some(Arrange(ts, normalized, repaired))
  }

  function Normalize(words: seq<string>): Option<(seq<string>, seq<string>)> {
    ArrangeRest(Tokens(words), [], [])
  }

  method ConsumeCoordinateToken(words: seq<string>, index: nat) returns (token: Option<string>, next: nat)
    requires index <= |words|
    ensures index <= next <= |words|
    ensures token.None? <==> Consume(words[index..], "").None?
    ensures token.Some? ==> Consume(words[index..], "") == Some((token.value, words[next..]))
  {
    var t := "";
    next := index;
    while next < |words|
      invariant index <= next <= |words| && |t| < 4
      invariant Consume(words[index..], "") == Consume(words[next..], t)
    {
      t := t + words[next];
      assert words[next..][1..] == words[next + 1..];
      next := next + 1;
      if 4 <= |t| <= 8 {
        return if AllDigits(TrimMinus(t)) then Some(t) else None, next;
      }
      if |t| > 8 {
        return None, next;
      }
    }
    return None, next;
  }

  method NormalizeCoordinateTokens(words: seq<string>) returns (r: Option<(seq<string>, seq<string>)>)
    ensures r == Normalize(words)
  {
    var normalized: seq<string>, repaired: seq<string> := [], [];
    var index := 0;
    assert words[0..] == words;
    while index < |words|
      invariant index <= |words|
      invariant Normalize(words) == ArrangeRest(Tokens(words[index..]), normalized, repaired)
      decreases |words| - index
    {
      if IsTerminator(words[index]) {
        break;
      }
      var start := index;
      var token;
      ConsumeShrinks(words[index..], "");
      token, index := ConsumeCoordinateToken(words, index);
      if token.None? {
        return None;
      }
      var packed := SplitPacked(normalized, token.value);
      if packed.Some? {
        assert normalized + [packed.value.0] + [packed.value.1] == normalized + [packed.value.0, packed.value.1];
        normalized := normalized + [packed.value.0] + [packed.value.1];
        continue;
      }
      var fused := SplitFused(normalized, token.value);
      if fused.Some? {
        repaired := repaired + [token.value];
        assert normalized + [fused.value.0] + [fused.value.1] == normalized + [fused.value.0, fused.value.1];
        normalized := normalized + [fused.value.0] + [fused.value.1];
        continue;
      }
      normalized := normalized + [token.value];
    }
    return Some((normalized, repaired));
  }

  // ---------- from coordinates to points ----------

  datatype CoordinateError = InvalidCount | InvalidLatitude | InvalidLongitude

  predicate Wide(coord: string) {
    |coord| == 8 && !Negative(coord)
  }

  /** The points of a coordinate list, with the latitude still waiting for its longitude. */
  function Collect(coords: seq<string>, pending: Option<real>): Result<seq<Point>, CoordinateError> {
    if coords == [] then (if pending.Some? then Err(InvalidCount) else Ok([]))
    else if Wide(coords[0]) then
      if pending.Some? then Err(InvalidCount)
      else (
        var lat, lon := ParseCoordinate(coords[0][..4], true), ParseCoordinate(coords[0][4..], false);
        if lat.None? then Err(InvalidLatitude)
        else if lon.None? then Err(InvalidLongitude)
        else Prepend(Point(lat.value, lon.value), Collect(coords[1..], None))
      )
    else (
      var v := ParseCoordinate(coords[0], pending.None?);
      if v.None? then Err(if pending.None? then InvalidLatitude else InvalidLongitude)
      else if pending.Some? then Prepend(Point(pending.value, v.value), Collect(coords[1..], None))
      else Collect(coords[1..], v)
    )
  }

  function Prepend(p: Point, r: Result<seq<Point>, CoordinateError>): Result<seq<Point>, CoordinateError> {
    if r.Ok? then Ok([p] + r.value) else r
  }

  function Points(coords: seq<string>): Result<seq<Point>, CoordinateError> {
    var r := Collect(coords, None);
    if r.Ok? && |r.value| < 3 then Err(InvalidCount) else r
  }

  /** `Collect` resumed after the points found so far. */
  function Resume(points: seq<Point>, r: Result<seq<Point>, CoordinateError>): Result<seq<Point>, CoordinateError> {
    if r.Ok? then Ok(points + r.value) else r
  }

  lemma ResumeStep(points: seq<Point>, p: Point, r: Result<seq<Point>, CoordinateError>)
    ensures Resume(points, Prepend(p, r)) == Resume(points + [p], r)
  {
    if r.Ok? {
      assert points + ([p] + r.value) == points + [p] + r.value;
    }
  }

  lemma ResumeNothing(r: Result<seq<Point>, CoordinateError>)
    ensures Resume([], r) == r
  {
    if r.Ok? {
      assert [] + r.value == r.value;
    }
  }

  method ParsePoints(coords: seq<string>) returns (r: Result<seq<Point>, CoordinateError>)
    ensures r == Points(coords)
  {
    var points: seq<Point> := [];
    var pending: Option<real> := None;
    assert coords[0..] == coords;
    ResumeNothing(Collect(coords, None));
    for i := 0 to |coords|
      invariant Collect(coords, None) == Resume(points, Collect(coords[i..], pending))
    {
      var coord := coords[i];
      assert coords[i..][1..] == coords[i + 1..];
      if Wide(coord) {
        if pending.Some? {
          return Err(InvalidCount);
        }
        var lat := ParseCoordinate(coord[..4], true);
        if lat.None? {
          return Err(InvalidLatitude);
        }
        var lon := ParseCoordinate(coord[4..], false);
        if lon.None? {
          return Err(InvalidLongitude);
        }
        ResumeStep(points, Point(lat.value, lon.value), Collect(coords[i + 1..], None));
        points := points + [Point(lat.value, lon.value)];
        continue;
      }
      var v := ParseCoordinate(coord, pending.None?);
      if v.None? {
        return Err(if pending.None? then InvalidLatitude else InvalidLongitude);
      }
      if pending.Some? {
        ResumeStep(points, Point(pending.value, v.value), Collect(coords[i + 1..], None));
        points := points + [Point(pending.value, v.value)];
        pending := None;
      } else {
        pending := v;
      }
    }
    assert points + [] == points;
    if pending.Some? || |points| < 3 {
      return Err(InvalidCount);
    }
    return Ok(points);
  }

  // ---------- what normalization guarantees on every input ----------

  /** No unsigned eight-character token stands where a latitude is expected. */
  ghost predicate NoWideAtEven(coords: seq<string>) {
    forall i :: 0 <= i < |coords| && i % 2 == 0 ==> !Wide(coords[i])
  }

  lemma {:induction false} TrimPlain(s: string)
    requires !Negative(s) && AllDigits(TrimMinus(s))
    ensures AllDigits(s)
  {
  }

  lemma {:induction false} TokensPlain(words: seq<string>)
    ensures Tokens(words).Some? ==> forall t :: t in Tokens(words).value ==> AllDigits(TrimMinus(t))
    decreases |words|
  {
    if words != [] && !IsTerminator(words[0]) && Consume(words, "").Some? {
      ConsumeShrinks(words, "");
      TokensPlain(Consume(words, "").value.1);
    }
  }

  lemma {:induction false} ArrangeNoWideAtEven(tokens: seq<string>, normalized: seq<string>, repaired: seq<string>)
    requires NoWideAtEven(normalized) && forall t :: t in tokens ==> AllDigits(TrimMinus(t))
    ensures NoWideAtEven(Arrange(tokens, normalized, repaired).0)
    decreases |tokens|
  {
    if tokens != [] {
      var token := tokens[0];
      var (coords, repair) := Contribution(normalized, token);
      if Wide(token) && |normalized| % 2 == 0 {
        TrimPlain(token);
        assert SplitPacked(normalized, token).Some?;
      }
      assert NoWideAtEven(normalized + coords);
      ArrangeNoWideAtEven(tokens[1..], normalized + coords, if repair then repaired + [token] else repaired);
    }
  }

  lemma {:induction false} CollectPairs(coords: seq<string>, pending: Option<real>)
    requires forall i :: 0 <= i < |coords| && (i % 2 == 0) == pending.None? ==> !Wide(coords[i])
    ensures Collect(coords, pending).Ok? ==>
      2 * |Collect(coords, pending).value| == |coords| + (if pending.Some? then 1 else 0)
  {
    if coords != [] && !Wide(coords[0]) {
      var v := ParseCoordinate(coords[0], pending.None?);
      if v.Some? {
        CollectPairs(coords[1..], if pending.Some? then None else v);
      }
    }
  }

  /** Whatever the words, a successful parse pairs the normalized tokens two by two. */
  lemma PointsAreTokenPairs(words: seq<string>)
    requires Normalize(words).Some? && Points(Normalize(words).value.0).Ok?
    ensures var coords := Normalize(words).value.0;
      |coords| == 2 * |Points(coords).value| && NoWideAtEven(coords)
  {
    TokensPlain(words);
    ArrangeNoWideAtEven(Tokens(words).value, [], []);
    CollectPairs(Normalize(words).value.0, None);
  }

  // ---------- many spellings, one polygon ----------

  /** A printed token: one coordinate, or two four-digit ones run together. */
  datatype Word = One(a: string) | Two(a: string, b: string)

  function Text(w: Word): string {
    match w
    case One(a) => a
    case Two(a, b) => a + b
  }

  function Parts(w: Word): seq<string> {
    match w
    case One(a) => [a]
    case Two(a, b) => [a, b]
  }

  predicate PlainToken(s: string) {
    (|s| == 4 || |s| == 5) && AllDigits(s)
  }

  ghost predicate IsWord(w: Word) {
    match w
    case One(a) => PlainToken(a)
    case Two(a, b) => AllDigits(a) && AllDigits(b) && |a| == |b| == 4
  }

  function Joined(pieces: seq<string>): string {
    if pieces == [] then "" else pieces[0] + Joined(pieces[1..])
  }

  /** A word broken by stray whitespace: every break falls before its fourth character. */
  ghost predicate Broken(pieces: seq<string>, before: string) {
    && pieces != []
    && |before + pieces[0]| >= 1
    && (if |pieces| == 1 then 4 <= |before + pieces[0]| <= 8
        else |before + pieces[0]| < 4 && Broken(pieces[1..], before + pieces[0]))
  }

  /** A word with the pieces it is printed in. */
  datatype Printed = Printed(word: Word, pieces: seq<string>)

  ghost predicate IsPrinted(p: Printed) {
    IsWord(p.word) && Joined(p.pieces) == Text(p.word) && Broken(p.pieces, "") && p.pieces[0] != ""
  }

  function AllPieces(ps: seq<Printed>): seq<string> {
    if ps == [] then [] else ps[0].pieces + AllPieces(ps[1..])
  }

  function Coordinates(ps: seq<Printed>): seq<string> {
    if ps == [] then [] else Parts(ps[0].word) + Coordinates(ps[1..])
  }

  /** The tokens that need the repair: pairs that start with a longitude. */
  function Fused(ps: seq<Printed>, before: nat): seq<string> {
    if ps == [] then []
    else Repairs(ps[0].word, before) + Fused(ps[1..], before + |Parts(ps[0].word)|)
  }

  lemma {:induction false} JoinedPrefix(pieces: seq<string>)
    requires pieces != []
    ensures |pieces[0]| <= |Joined(pieces)| && forall i :: 0 <= i < |pieces[0]| ==> pieces[0][i] == Joined(pieces)[i]
  {
  }

  lemma {:induction false} ConsumeBroken(pieces: seq<string>, before: string, rest: seq<string>)
    requires Broken(pieces, before) && AllDigits(before + Joined(pieces))
    ensures Consume(pieces + rest, before) == Some((before + Joined(pieces), rest))
  {
    var words := pieces + rest;
    assert words[0] == pieces[0] && words[1..] == pieces[1..] + rest;
    assert before + pieces[0] + Joined(pieces[1..]) == before + Joined(pieces);
    if |pieces| == 1 {
      assert pieces[1..] == [] && Joined(pieces[1..]) == "";
      var token := before + pieces[0];
      assert token == before + Joined(pieces);
      assert !Negative(token);
      assert words[1..] == rest;
    } else {
      ConsumeBroken(pieces[1..], before + pieces[0], rest);
    }
  }

  ghost predicate Plain(coords: seq<string>) {
    forall i :: 0 <= i < |coords| ==> PlainToken(coords[i])
  }

  lemma WordContributes(normalized: seq<string>, w: Word)
    requires IsWord(w) && Plain(normalized)
    ensures Contribution(normalized, Text(w)) == (Parts(w), w.Two? && |normalized| % 2 == 1)
  {
    if w.Two? {
      assert Text(w)[..4] == w.a && Text(w)[4..] == w.b;
      assert forall i :: 0 <= i < 8 ==> Text(w)[i] == if i < 4 then w.a[i] else w.b[i - 4];
    }
  }

  function Texts(ps: seq<Printed>): seq<string> {
    if ps == [] then [] else [Text(ps[0].word)] + Texts(ps[1..])
  }

  lemma {:induction false} TokensWord(p: Printed, rest: seq<string>)
    requires IsPrinted(p) && Tokens(rest).Some?
    ensures Tokens(p.pieces + rest) == Some([Text(p.word)] + Tokens(rest).value)
  {
    var words := p.pieces + rest;
    assert "" + Joined(p.pieces) == Text(p.word);
    ConsumeBroken(p.pieces, "", rest);
    JoinedPrefix(p.pieces);
    assert words[0] == p.pieces[0] && IsDigit(words[0][0]);
  }

  /** Printed words, up to a terminator or the end, are consumed one by one. */
  lemma {:induction false} TokensPrinted(ps: seq<Printed>, tail: seq<string>)
    requires forall i :: 0 <= i < |ps| ==> IsPrinted(ps[i])
    requires tail != [] ==> tail[0] == "$$" || tail[0] == "&&"
    ensures Tokens(AllPieces(ps) + tail) == Some(Texts(ps))
    decreases |ps|
  {
    if ps == [] {
      assert AllPieces(ps) + tail == tail;
    } else {
      TokensPrinted(ps[1..], tail);
      TokensWord(ps[0], AllPieces(ps[1..]) + tail);
      Regroup(ps[0].pieces, AllPieces(ps[1..]), tail);
    }
  }

  function Repairs(w: Word, before: nat): seq<string> {
    if w.Two? && before % 2 == 1 then [Text(w)] else []
  }

  lemma {:induction false} ArrangeWord(w: Word, tokens: seq<string>, normalized: seq<string>, repaired: seq<string>)
    requires IsWord(w) && Plain(normalized)
    ensures Plain(normalized + Parts(w))
    ensures Arrange([Text(w)] + tokens, normalized, repaired)
         == Arrange(tokens, normalized + Parts(w), repaired + Repairs(w, |normalized|))
  {
    WordContributes(normalized, w);
    assert ([Text(w)] + tokens)[1..] == tokens;
    assert repaired + [] == repaired;
  }

  lemma Regroup<T>(a: seq<T>, b: seq<T>, c: seq<T>)
    ensures a + b + c == a + (b + c)
  {
  }

  /** Each printed word lands as its coordinates, with a repair exactly when it is fused. */
  lemma {:induction false} ArrangePrinted(ps: seq<Printed>, normalized: seq<string>, repaired: seq<string>)
    requires forall i :: 0 <= i < |ps| ==> IsWord(ps[i].word)
    requires Plain(normalized)
    ensures Arrange(Texts(ps), normalized, repaired)
         == (normalized + Coordinates(ps), repaired + Fused(ps, |normalized|))
    decreases |ps|
  {
    if ps == [] {
      assert normalized + [] == normalized && repaired + [] == repaired;
    } else {
      var w := ps[0].word;
      var normalized', repaired' := normalized + Parts(w), repaired + Repairs(w, |normalized|);
      ArrangeWord(w, Texts(ps[1..]), normalized, repaired);
      ArrangePrinted(ps[1..], normalized', repaired');
      Regroup(normalized, Parts(w), Coordinates(ps[1..]));
      Regroup(repaired, Repairs(w, |normalized|), Fused(ps[1..], |normalized'|));
    }
  }

  /** A place in hundredths of a degree, longitude counted westward. */
  datatype Place = Place(lat: nat, lon: nat)

  function Located(p: Place): Point {
    Point(p.lat as real / 100.0, -(p.lon as real / 100.0))
  }

  function AllLocated(places: seq<Place>): seq<Point> {
    if places == [] then [] else [Located(places[0])] + AllLocated(places[1..])
  }

  /** Latitude with four or five digits; longitude in full, or without its leading `1`. */
  ghost predicate Spells(lat: string, lon: string, p: Place) {
    && PlainToken(lat) && PlainToken(lon)
    && Value(lat) == p.lat
    && 4000 <= p.lon < 14000
    && Value(lon) == (if |lon| == 5 then p.lon else p.lon % 10000)
  }

  ghost predicate SpellsAll(coords: seq<string>, places: seq<Place>) {
    |coords| == 2 * |places| && forall i :: 0 <= i < |places| ==> Spells(coords[2 * i], coords[2 * i + 1], places[i])
  }

  lemma SpelledPair(lat: string, lon: string, p: Place)
    requires Spells(lat, lon, p)
    ensures !Wide(lat) && !Wide(lon)
    ensures ParseCoordinate(lat, true) == Some(Located(p).lat) && ParseCoordinate(lon, false) == Some(Located(p).lon)
  {
    assert !Negative(lat) && !Negative(lon);
    assert Magnitude(lon) == Value(lon) as real / 100.0;
    if |lon| == 4 && p.lon >= 10000 {
      assert Value(lon) == p.lon - 10000;
      assert (p.lon - 10000) as real / 100.0 + 100.0 == p.lon as real / 100.0;
    }
  }

  lemma {:induction false} CollectSpelled(coords: seq<string>, places: seq<Place>)
    requires SpellsAll(coords, places)
    ensures Collect(coords, None) == Ok(AllLocated(places))
  {
    if places != [] {
      SpelledPair(coords[0], coords[1], places[0]);
      var later := coords[1..][1..];
      assert later == coords[2..];
      forall i | 0 <= i < |places[1..]| ensures Spells(later[2 * i], later[2 * i + 1], places[1..][i]) {
        assert later[2 * i] == coords[2 * (i + 1)] && later[2 * i + 1] == coords[2 * (i + 1) + 1];
      }
      CollectSpelled(later, places[1..]);
    }
  }

  /**
   * Every spelling of at least three places - separate, packed, fused or broken
   * tokens in any mix - parses to those places, with one repair per fused token.
   */
  lemma {:induction false} SpellingsAgree(ps: seq<Printed>, tail: seq<string>, places: seq<Place>)
    requires forall i :: 0 <= i < |ps| ==> IsPrinted(ps[i])
    requires tail != [] ==> tail[0] == "$$" || tail[0] == "&&"
    requires |places| >= 3 && SpellsAll(Coordinates(ps), places)
    ensures Normalize(AllPieces(ps) + tail) == Some((Coordinates(ps), Fused(ps, 0)))
    ensures Points(Coordinates(ps)) == Ok(AllLocated(places))
  {
    TokensPrinted(ps, tail);
    ArrangePrinted(ps, [], []);
    assert [] + Coordinates(ps) == Coordinates(ps) && [] + Fused(ps, 0) == Fused(ps, 0);
    CollectSpelled(Coordinates(ps), places);
    LocatedLength(places);
  }

  lemma {:induction false} LocatedLength(places: seq<Place>)
    ensures |AllLocated(places)| == |places|
    ensures forall i :: 0 <= i < |places| ==> AllLocated(places)[i] == Located(places[i])
  {
    if places != [] {
      LocatedLength(places[1..]);
    }
  }
}
