/**
 * The index arithmetic of `render_console`: which of the wrapped rows the
 * console shows, how the bottom-relative scroll offset is clamped, and
 * whether the title carries a position annotation.
 */
module Console {
  import opened Ints

  /** The rows shown: none, or the inclusive index range `start..=end`. */
  datatype Window = Blank | Span(start: nat, end: nat)

  /** The console title: plain, or annotated `(first-last of total)`, 1-based. */
  datatype Title = Plain | Annotated(first: nat, last: nat, total: nat)

  /** What one render decides: the window, the stored offset afterwards, the title. */
  datatype Frame = Frame(window: Window, offset: I32, title: Title)

  /** `usize::saturating_sub`. */
  function SaturatingSub(a: nat, b: nat): nat
  {
    if a >= b then a - b else 0
  }

  /** Number of rows in a window. */
  function Shown(w: Window): nat
  {
    match w
    case Blank => 0
    case Span(start, end) => if end + 1 >= start then end + 1 - start else 0
  }

  /**
   * `count` wrapped rows, a viewport `height` rows high and a scroll
   * `offset` counted up from the bottom.
   */
  function Layout(count: nat, height: U16, offset: I32): (f: Frame)
    requires offset >= 0
    requires count <= I32_MAX
    // no rows: nothing shown, offset untouched, plain title
    ensures count == 0 <==> f.window.Blank?
    ensures count == 0 ==> f.offset == offset && f.title == Plain
    // the inclusive slice is always in bounds
    ensures f.window.Span? ==> f.window.start <= f.window.end + 1 && f.window.end <= count - 1
    // the offset is clamped to the scrollable distance
    ensures count > height ==> f.offset <= count - height
    ensures count > height && offset <= count - height ==> f.offset == offset
    ensures count > height && offset > count - height ==> f.offset == count - height
    ensures count <= height ==> f.offset == offset
    // short histories are shown whole
    ensures 1 <= count <= height ==> f.window == Span(0, count - 1)
    // at the bottom, exactly the last `height` rows
    ensures count > height && offset == 0 ==> f.window == Span(count - height, count - 1)
    // scrolled up, the window starts `offset` rows above the bottom view, stopping at the top
    ensures count > height && offset <= count - height ==> f.window.start == count - height - offset
    ensures count > height && offset >= count - height ==> f.window.start == 0
    // one row more than the viewport once scrolled up
    ensures Shown(f.window) <= height + 1
    ensures count > height && offset >= 1 ==> Shown(f.window) == height + 1
    // the annotation appears exactly when the range has two distinct ends
    ensures f.title.Annotated? <==> f.window.Span? && f.window.start != f.window.end
    ensures f.title.Annotated? ==>
      f.title == Annotated(f.window.start + 1, f.window.end + 1, count)
  {
    if count == 0 then Frame(Blank, offset, Plain)
    else
      var start := Max(SaturatingSub(count, height) - offset, 0);
      var newOffset := if count > height && offset > count - height then count - height else offset;
      var end := Min(start + height, count - 1);
      var title := if start != end then Annotated(start + 1, end + 1, count) else Plain;
      Frame(Span(start, end), newOffset, title)
  }

  /** The rows the console paints for a list of wrapped rows. */
  function Visible(rows: seq<string>, height: U16, offset: I32): (shown: seq<string>)
    requires offset >= 0
    requires |rows| <= I32_MAX
    ensures |shown| == Shown(Layout(|rows|, height, offset).window)
    ensures rows == [] ==> shown == []
    ensures |rows| <= height ==> shown == rows
    ensures |rows| > height && offset == 0 ==> shown == rows[|rows| - height..]
    ensures |rows| > height && offset >= 1 ==> |shown| == height + 1
    ensures forall k :: 0 <= k < |shown| ==>
      shown[k] == rows[Layout(|rows|, height, offset).window.start + k]
  {
    match Layout(|rows|, height, offset).window
    case Blank => rows
    case Span(start, end) => rows[start..end + 1]
  }

  /** One more row of offset moves the window up by one row, until it reaches the top. */
  lemma LayoutScrollUp(count: nat, height: U16, offset: I32)
    requires offset >= 0 && offset + 1 <= I32_MAX
    requires count <= I32_MAX && count > height
    ensures Layout(count, height, offset + 1).window.start
      == Max(Layout(count, height, offset).window.start - 1, 0)
  {
  }
}
