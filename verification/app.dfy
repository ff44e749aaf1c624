/** The console text of the application and its width-wrapped rows. */
module AppView {
  import Seqs
  import Text
  import Wrapping
  import opened Ints

  datatype App = App(content: string)

  /** A fresh application shows no text. */
  const Default: App := App([])

  /**
   * `App::lines`: every raw line of the content, wrapped to `width`, rows of
   * one line together and lines in order.
   */
  function Lines(app: App, width: U16): (rows: seq<string>)
    requires width >= 1
    ensures forall k :: 0 <= k < |rows| ==> 1 <= |rows[k]| <= width
    ensures rows == Seqs.Concat(Wrapping.Groups(Text.SplitLines(app.content), width))
    ensures Seqs.Concat(rows) == Seqs.Concat(Text.SplitLines(app.content))
  {
    var lines := Text.SplitLines(app.content);
    Wrapping.WrapAllGroups(lines, width);
    Wrapping.WrapAll(lines, width)
  }

  /** A fresh application shows no rows, whatever the width. */
  lemma DefaultShowsNothing(width: U16)
    requires width >= 1
    ensures Lines(Default, width) == []
  {
  }

  /** Text written as terminated lines is shown as exactly those lines, wrapped. */
  lemma LinesOfTerminated(lines: seq<string>, width: U16)
    requires width >= 1
    requires forall k :: 0 <= k < |lines| ==> Text.NEWLINE !in lines[k]
    ensures Lines(App(Text.Terminated(lines)), width) == Wrapping.WrapAll(lines, width)
  {
    Text.SplitTerminated(lines);
  }

  /**
   * `split_by_size`: the same per-line loop, but collected as one group per
   * line and flattened afterwards. It yields the rows of `App::lines`.
   */
  function SplitBySize(input: string, len: U16): (rows: seq<string>)
    requires len >= 1
    ensures rows == Lines(App(input), len)
  {
    var lines := Text.SplitLines(input);
    Wrapping.WrapAllGroups(lines, len);
    Seqs.Concat(Wrapping.Groups(lines, len))
  }
}
