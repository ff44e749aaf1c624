/**
 * Cutting raw lines into display rows of a fixed width. This one definition
 * is shared by `App::lines`, `split_by_size` and `Project::lines`, which all
 * run the same per-line loop: cut `width` characters off the front while the
 * rest is longer than `width`, then keep the rest only if it is non-empty.
 */
module Wrapping {
  import Seqs
  import Arith

  /** The display rows of one raw line. */
  function Wrap(line: string, width: nat): (rows: seq<string>)
    requires width >= 1
    ensures Seqs.Concat(rows) == line
    ensures forall k :: 0 <= k < |rows| ==> 1 <= |rows[k]| <= width
    ensures forall k :: 0 <= k < |rows| - 1 ==> |rows[k]| == width
    decreases |line|
  {
    if |line| > width then [line[..width]] + Wrap(line[width..], width)
    else if line != [] then [line]
    else []
  }

  /** A line of length `n` gives `ceil(n / width)` rows; an empty line gives none. */
  lemma {:induction false} WrapCount(line: string, width: nat)
    requires width >= 1
    ensures |Wrap(line, width)| == Arith.CeilDiv(|line|, width)
    decreases |line|
  {
    if |line| > width {
      WrapCount(line[width..], width);
      Arith.CeilDivStep(|line|, width);
    } else if line != [] {
      Arith.CeilDivOne(|line|, width);
    } else {
      Arith.CeilDivZero(width);
    }
  }

  /**
   * `Wrap` is the only row sequence that rebuilds the line, has rows of
   * `1..width` characters and is full-width everywhere but at the end.
   */
  lemma {:induction false} WrapUnique(line: string, width: nat, rows: seq<string>)
    requires width >= 1
    requires Seqs.Concat(rows) == line
    requires forall k :: 0 <= k < |rows| ==> 1 <= |rows[k]| <= width
    requires forall k :: 0 <= k < |rows| - 1 ==> |rows[k]| == width
    ensures rows == Wrap(line, width)
    decreases |rows|
  {
    if |rows| == 1 {
      assert line == rows[0];
    } else if |rows| > 1 {
      var tail := rows[1..];
      assert line == rows[0] + Seqs.Concat(tail);
      assert Seqs.Concat(tail) == tail[0] + Seqs.Concat(tail[1..]);
      assert |line| > width;
      assert line[..width] == rows[0];
      assert line[width..] == Seqs.Concat(tail);
      WrapUnique(line[width..], width, tail);
    }
  }

  /** The same rows, computed by the source's `while` loop. */
  method WrapLine(line: string, width: nat) returns (sublines: seq<string>)
    requires width >= 1
    ensures sublines == Wrap(line, width)
  {
    var curr := line;
    sublines := [];
    while |curr| > width
      invariant sublines + Wrap(curr, width) == Wrap(line, width)
    {
      Seqs.Assoc(sublines, [curr[..width]], Wrap(curr[width..], width));
      sublines := sublines + [curr[..width]];
      curr := curr[width..];
    }
    if curr != [] {
      sublines := sublines + [curr];
    }
  }

  /** The rows of every line, line after line. */
  function WrapAll(lines: seq<string>, width: nat): (rows: seq<string>)
    requires width >= 1
    ensures forall k :: 0 <= k < |rows| ==> 1 <= |rows[k]| <= width
    ensures Seqs.Concat(rows) == Seqs.Concat(lines)
  {
    if lines == [] then []
    else
      var first := Wrap(lines[0], width);
      Seqs.ConcatAppend(first, WrapAll(lines[1..], width));
      first + WrapAll(lines[1..], width)
  }

  /** One group of rows per line, in line order. */
  function Groups(lines: seq<string>, width: nat): seq<seq<string>>
    requires width >= 1
  {
    seq(|lines|, k requires 0 <= k < |lines| => Wrap(lines[k], width))
  }

  /** The rows of `WrapAll` are the per-line groups laid end to end. */
  lemma {:induction false} WrapAllGroups(lines: seq<string>, width: nat)
    requires width >= 1
    ensures WrapAll(lines, width) == Seqs.Concat(Groups(lines, width))
  {
    if lines != [] {
      WrapAllGroups(lines[1..], width);
      assert Groups(lines, width)[1..] == Groups(lines[1..], width);
    }
  }

  /** Wrapping more lines appends their rows after the earlier ones. */
  lemma {:induction false} WrapAllAppend(a: seq<string>, b: seq<string>, width: nat)
    requires width >= 1
    ensures WrapAll(a + b, width) == WrapAll(a, width) + WrapAll(b, width)
  {
    if a == [] {
      assert a + b == b;
    } else {
      assert (a + b)[1..] == a[1..] + b;
      WrapAllAppend(a[1..], b, width);
    }
  }

  /** Empty lines contribute nothing: dropping them changes no row. */
  lemma {:induction false} WrapAllSkipsBlank(a: seq<string>, b: seq<string>, width: nat)
    requires width >= 1
    ensures WrapAll(a + [[]] + b, width) == WrapAll(a + b, width)
  {
    var blank: seq<string> := [[]];
    assert WrapAll(blank, width) == [] by {
      assert blank[1..] == [];
    }
    WrapAllAppend(a + [[]], b, width);
    WrapAllAppend(a, [[]], width);
    assert WrapAll(a + [[]], width) == WrapAll(a, width);
    WrapAllAppend(a, b, width);
  }
}
