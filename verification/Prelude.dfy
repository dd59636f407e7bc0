/** Small shared vocabulary: optional values, results, 64-bit counters and lists of parts. */
module Prelude {

  datatype Option<+T> = None | Some(value: T)

  datatype Result<+T, +E> = Ok(value: T) | Err(error: E)

  const U64_MAX: nat := 0xFFFF_FFFF_FFFF_FFFF

  function SaturatingInc(x: nat): nat {
    if x < U64_MAX then x + 1 else U64_MAX
  }

  function Min(a: nat, b: nat): nat {
    if a <= b then a else b
  }

  /** The parts that `select` finds in each element, in order. */
  function Flatten<A, B>(select: A -> seq<B>, s: seq<A>): seq<B> {
    if s == [] then [] else Flatten(select, s[..|s| - 1]) + select(s[|s| - 1])
  }

  lemma {:induction false} FlattenFront<A, B>(select: A -> seq<B>, s: seq<A>)
    requires s != []
    ensures Flatten(select, s) == select(s[0]) + Flatten(select, s[1..])
  {
    if |s| > 1 {
      FlattenFront(select, s[..|s| - 1]);
      assert s[..|s| - 1][1..] == s[1..][..|s| - 2];
    }
  }

  function Join(tokens: seq<string>, sep: char): string {
    if tokens == [] then "" else if |tokens| == 1 then tokens[0] else tokens[0] + [sep] + Join(tokens[1..], sep)
  }
}
