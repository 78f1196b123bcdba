/** Small types and facts about sequences that several models need. */
module Seqs {

  datatype Option<+T> = None | Some(value: T)

  type Byte = b: int | 0 <= b < 256

  /** A database call works, fails, or takes effect although its caller is told that it failed. */
  datatype Db = Fine | Broken | Lost

  function Larger(a: real, b: real): real { if a < b then b else a }

  /** The pieces of `ss`, glued together. It unfolds at the last piece, because every history here grows at the end. */
  function Flatten<T>(ss: seq<seq<T>>): seq<T> {
    if ss == [] then [] else Flatten(ss[..|ss| - 1]) + ss[|ss| - 1]
  }

  lemma FlattenSnoc<T>(ss: seq<seq<T>>, s: seq<T>)
    ensures Flatten(ss + [s]) == Flatten(ss) + s
  {
    assert (ss + [s])[..|ss|] == ss;
  }

  lemma {:induction false} FlattenConcat<T>(a: seq<seq<T>>, b: seq<seq<T>>)
    ensures Flatten(a + b) == Flatten(a) + Flatten(b)
    decreases |b|
  {
    if b == [] {
      assert a + b == a;
    } else {
      var last := |b| - 1;
      assert a + b == (a + b[..last]) + [b[last]];
      assert b == b[..last] + [b[last]];
      FlattenSnoc(a + b[..last], b[last]);
      FlattenConcat(a, b[..last]);
      FlattenSnoc(b[..last], b[last]);
    }
  }

  /** Gluing respects "is a prefix of". */
  lemma FlattenPrefix<T>(a: seq<seq<T>>, b: seq<seq<T>>)
    requires a <= b
    ensures Flatten(a) <= Flatten(b)
  {
    assert b == a + b[|a|..];
    FlattenConcat(a, b[|a|..]);
  }

  /** Moving pieces from the front of one list to the end of another. */
  lemma FlattenMove<T>(a: seq<seq<T>>, x: seq<seq<T>>, rest: seq<seq<T>>)
    ensures Flatten(a + x) + Flatten(rest) == Flatten(a) + Flatten(x + rest)
  {
    hide Flatten;
    FlattenConcat(a, x);
    FlattenConcat(x, rest);
  }
}
