/**
 * Splitting text into raw lines the way Rust's `str::lines` does for
 * single-byte text: lines end at `'\n'`, the terminator is not part of the
 * line, and a final terminator is optional (it does not start an extra,
 * empty line).
 */
module Text {

  const NEWLINE: char := '\n'

  /** Position of the first `c` in `s`. */
  function IndexOf(s: string, c: char): (i: nat)
    requires c in s
    ensures i < |s| && s[i] == c
    ensures c !in s[..i]
  {
    if s[0] == c then 0
    else
      assert s == [s[0]] + s[1..];
      var j := IndexOf(s[1..], c);
      assert s[..j + 1] == [s[0]] + s[1..][..j];
      j + 1
  }

  /** The first `c` is the one with no `c` before it. */
  lemma IndexOfIs(s: string, c: char, k: nat)
    requires k < |s| && s[k] == c && c !in s[..k]
    ensures IndexOf(s, c) == k
  {
  }

  /** The raw lines of `s`, without their terminators. */
  function SplitLines(s: string): (ls: seq<string>)
    ensures forall k :: 0 <= k < |ls| ==> NEWLINE !in ls[k]
    ensures s == [] <==> ls == []
    decreases |s|
  {
    if s == [] then []
    else if NEWLINE !in s then [s]
    else
      var i := IndexOf(s, NEWLINE);
      [s[..i]] + SplitLines(s[i + 1..])
  }

  /** Every line followed by its terminator: the text `SplitLines` reads back. */
  function Terminated(ls: seq<string>): string
  {
    if ls == [] then [] else ls[0] + [NEWLINE] + Terminated(ls[1..])
  }

  /** Reading back terminated lines yields exactly those lines. */
  lemma {:induction false} SplitTerminated(ls: seq<string>)
    requires forall k :: 0 <= k < |ls| ==> NEWLINE !in ls[k]
    ensures SplitLines(Terminated(ls)) == ls
  {
    if ls != [] {
      var s := Terminated(ls);
      var l := ls[0];
      assert s == l + [NEWLINE] + Terminated(ls[1..]);
      assert s[..|l|] == l;
      IndexOfIs(s, NEWLINE, |l|);
      var i := |l|;
      assert s[i + 1..] == Terminated(ls[1..]);
      SplitTerminated(ls[1..]);
    }
  }

  /** Text that is empty or ends with a terminator is rebuilt from its lines. */
  lemma {:induction false} TerminatedSplit(s: string)
    requires s == [] || s[|s| - 1] == NEWLINE
    ensures Terminated(SplitLines(s)) == s
    decreases |s|
  {
    if s != [] {
      assert s[|s| - 1] in s;
      var i := IndexOf(s, NEWLINE);
      var line, rest := s[..i], s[i + 1..];
      assert s == line + [NEWLINE] + rest;
      TerminatedSplit(rest);
      TerminatedCons(line, SplitLines(rest));
    }
  }

  /** Writing a first line, then the rest. */
  lemma TerminatedCons(line: string, ls: seq<string>)
    ensures Terminated([line] + ls) == line + [NEWLINE] + Terminated(ls)
  {
    assert ([line] + ls)[1..] == ls;
  }

  /** A missing final terminator reads the same as a present one. */
  lemma {:induction false} FinalTerminatorOptional(s: string)
    requires s != [] && s[|s| - 1] != NEWLINE
    ensures SplitLines(s + [NEWLINE]) == SplitLines(s)
    decreases |s|
  {
    var t := s + [NEWLINE];
    if NEWLINE !in s {
      assert t[..|s|] == s;
      IndexOfIs(t, NEWLINE, |s|);
      var i := |s|;
      assert t[i + 1..] == [];
    } else {
      var i := IndexOf(s, NEWLINE);
      assert t[..i] == s[..i];
      IndexOfIs(t, NEWLINE, i);
      var rest := s[i + 1..];
      assert i < |s| - 1;
      assert t[i + 1..] == rest + [NEWLINE];
      FinalTerminatorOptional(rest);
    }
  }
}
