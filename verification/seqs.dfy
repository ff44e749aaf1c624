/** Flattening a sequence of sequences. */
module Seqs {

  /** The elements of `ss`, group after group, in order. */
  function Concat<T>(ss: seq<seq<T>>): seq<T>
  {
    if |ss| == 0 then [] else ss[0] + Concat(ss[1..])
  }

  /** Flattening distributes over concatenation of the groups. */
  lemma {:induction false} ConcatAppend<T>(a: seq<seq<T>>, b: seq<seq<T>>)
    ensures Concat(a + b) == Concat(a) + Concat(b)
  {
    if |a| == 0 {
      assert a + b == b;
    } else {
      assert (a + b)[1..] == a[1..] + b;
      ConcatAppend(a[1..], b);
    }
  }

  /** Cutting a sequence in two and joining the halves gives it back. */
  lemma SplitJoin<T>(s: seq<T>, i: nat)
    requires i <= |s|
    ensures s[..i] + s[i..] == s
  {
  }

  /** Concatenation is associative. */
  lemma Assoc<T>(a: seq<T>, b: seq<T>, c: seq<T>)
    ensures (a + b) + c == a + (b + c)
  {
  }

  /** Appending the two halves of a cut sequence appends the whole sequence. */
  lemma JoinAfterCut<T>(a: seq<T>, s: seq<T>, i: nat)
    requires i <= |s|
    ensures (a + s[..i]) + s[i..] == a + s
  {
    Assoc(a, s[..i], s[i..]);
    SplitJoin(s, i);
  }
}
