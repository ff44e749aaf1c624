# Process-console core: line store, width wrapping, viewport slice

A Dafny model of the pure logic under a terminal dashboard that runs local
processes and shows their output in a scrollable console. Three pieces are
modelled:

- **The chunked line store** (`Buff` / `Block`, module `LineStore`): an
  append-only list of blocks of raw lines. Each block has a fixed capacity.
  `Buff::append` fills the last block and spills what is left into new blocks.
  `Block::append` panics when data exceeds the room left; that panic is the
  `Err(NotEnoughCapacity)` result of `BlockAppend`. The append loop is
  modelled twice: once as the recursive function `Fill` behind `Append`, and
  once as the imperative `AppendLoop`, which is proved to compute `Append`.
- **Width wrapping** (module `Wrapping`, used by `AppView` and
  `ProjectOutput`): each raw line is cut into rows of exactly `width`
  characters plus a shorter non-empty remainder. An empty line gives no
  row. `Wrap` is the single definition behind `App::lines`, `split_by_size`
  and `Project::lines`. `WrapLine` is the source's `while` loop, proved equal
  to `Wrap`. Text is split into raw lines by `Text.SplitLines`, which follows
  `str::lines` on single-byte text: the final terminator is optional.
- **The viewport slice of `render_console`** (module `Console`): plain
  integer arithmetic over the number of wrapped rows, the viewport height and
  the scroll offset counted up from the bottom. It gives the inclusive row
  range `start..=end`, the clamped offset, and whether the title is annotated.
  As in the code, a view scrolled up by at least one row shows `height + 1`
  rows. The reason is that the range is inclusive and
  `end = min(start + height, count - 1)`.

Machine widths are written out where they matter. `Ints.U16` is used for
terminal widths and heights. `Ints.I32` is used for block sizes and the
scroll offset.

Three behaviours of the code are worth stating plainly:

- A blank raw line gives no display row. The wrapping loop keeps the rest of
  a line only under `if !curr.is_empty()`, so an empty line contributes
  nothing (`Wrapping.WrapAllSkipsBlank`).
- The console is not anchored at a (block, line) position. `render_console`
  wraps the whole output and slices the row list by an offset counted up
  from the bottom, and that is what is modelled.
- `Buff::new` takes a third `offset` argument that it stores and nothing
  reads. `LineStore.New` takes only the content and the block size, the two
  arguments the integration tests vary.

## Model

| member | source | states |
|---|---|---|
| LineStore.BlockAccessors | src/buffer.rs:92-114 | `len` is the number of lines `data` returns; `is_empty` holds exactly when `len` is 0; `cap` is `size - len`; a block respects its size exactly when `cap >= 0`, and is full exactly when `cap == 0` |
| LineStore.NewBlock | src/buffer.rs:73-90 | `Block::new` and `Buff::new_block`: a new block is empty, keeps the given size, has its whole size as room, and is full only when the size is 0 |
| LineStore.BlockAppend | src/buffer.rs:104-110 | succeeds exactly when the data fits the room left; on success the old lines are followed by the data, the size is kept, length grows and room shrinks by the data's length; otherwise it is the capacity panic and nothing is appended |
| LineStore.BlockScenarios | src/buffer.rs:131-208 | the block unit tests: length 3, empty and non-empty blocks, room 7 of 10, an append that fits in a block of 5, and a refused append into a block of 4 |
| LineStore.Fill | src/buffer.rs:29-50 | the append loop from the current block: at least one block results; the current block keeps its size and gets exactly the lines that fit; every new block has the store's block size; every block respects its size; every block but the last is full |
| LineStore.FillFlatten | src/buffer.rs:29-50 | the loop keeps every line, in order: the blocks it yields hold the current block's lines followed by all appended lines |
| LineStore.FillCount | src/buffer.rs:29-50 | starting from a block of the store's size that holds `t` lines, appending `m` lines yields `max(1, ceil((t + m) / blockSize))` blocks |
| LineStore.Append | src/buffer.rs:20-51 | the flattened store after appending is the flattened store before, followed by the new lines; blocks before the old last block are unchanged; the old last block only grows at its end; blocks created have the store's block size |
| LineStore.AppendLoop | src/buffer.rs:20-51 | the imperative loop (fill the last block, stop when nothing remains, else push a new block) computes exactly `Append` |
| LineStore.AppendKeepsPacked | src/buffer.rs:21-50 | if every block has the store's size and respects it, that still holds after an append; if also only the last block was short, only the last block is short afterwards |
| LineStore.AppendCount | src/buffer.rs:20-51 | appending to an empty store yields `max(1, ceil(m / blockSize))` blocks, so a first block is made even for no lines; otherwise the earlier blocks are kept and the last block with the new lines spreads over `max(1, ceil((t + m) / blockSize))` blocks |
| LineStore.DefaultStore | src/buffer.rs:1-17 | `Buff::default` has no blocks and block size 100, so appending to it is the same as `Buff::new` with block size 100: packed, and `max(1, ceil(m / 100))` blocks |
| LineStore.New | src/buffer.rs:63-71 | a store built from `xs` with block size `C >= 1` flattens to `xs`, has every block but the last full, and has `max(1, ceil(|xs| / C))` blocks |
| LineStore.Content | src/buffer.rs:53-61 | one entry per block, in block order, each the block's lines unchanged; flattened, they are the store's lines |
| LineStore.AppendToEmptyStore | tests/buffer_test.rs:13-21 | appending up to `C` lines to a store built empty gives content of exactly one block holding those lines |
| LineStore.SpillScenario | tests/buffer_test.rs:23-46 | a store of block size 2 built from `Foo`, then given four lines, has content `[Foo, Line0]`, `[Line1, Line2]`, `[Line3]` |
| Text.SplitLines | src/app.rs:21 | no raw line contains a line terminator; the text is empty exactly when it has no lines |
| Text.SplitTerminated | src/app.rs:21 | lines without terminators, each written followed by a terminator, are read back as exactly those lines |
| Text.TerminatedSplit | src/app.rs:21 | text that is empty or ends with a terminator is exactly its lines, each followed by a terminator |
| Text.FinalTerminatorOptional | src/app.rs:21 | a final line terminator does not add an extra empty line |
| Wrapping.Wrap | src/app.rs:23-36 | the rows of one line concatenate back to the line; every row has between 1 and `width` characters; every row but the last has exactly `width` characters |
| Wrapping.WrapCount | src/app.rs:26-34 | a line of `n` characters gives `ceil(n / width)` rows, so an empty line gives none |
| Wrapping.WrapUnique | src/app.rs:26-34 | any row list that rebuilds the line, has rows of 1 to `width` characters and is full-width except at the end, is the one `Wrap` yields |
| Wrapping.WrapLine | src/app.rs:23-36 | the source's loop (cut `width` characters off while the rest is longer, then keep a non-empty rest) computes `Wrap` |
| Wrapping.WrapAll | src/app.rs:21-39 | every row of the wrapped text has between 1 and `width` characters, and all rows together hold all characters of all lines, in order |
| Wrapping.WrapAllGroups | src/app.rs:21-39 | the rows are the per-line row groups laid end to end, in input-line order |
| Wrapping.WrapAllAppend | src/app.rs:21-39 | wrapping more lines appends their rows after the rows of the earlier lines |
| Wrapping.WrapAllSkipsBlank | src/app.rs:32-34 | an empty line contributes no rows anywhere in the text |
| AppView.DefaultShowsNothing | src/app.rs:6-12 | `App::default` has empty content, so it shows no rows at any width |
| AppView.Lines | src/app.rs:20-40 | `App::lines`: rows of 1 to `width` characters, grouped per raw line in line order, holding every character of the content except the line terminators |
| AppView.LinesOfTerminated | src/app.rs:20-40 | content written as terminated lines is shown as exactly those lines, each wrapped |
| AppView.SplitBySize | src/app.rs:43-62 | `split_by_size` (map each line to its rows, then flatten) yields the same rows as `App::lines` on the same text and width |
| ProjectOutput.Lines | src/project.rs:73-95 | `Project::lines` yields the same rows as `App::lines` on the captured output and the same width, so each row has 1 to `width` characters |
| Console.Layout | src/ui.rs:72-87 | no rows means a blank display, unchanged offset and plain title; otherwise `start <= end + 1` and `end <= count - 1`; when there are more rows than the viewport, the window starts `offset` rows above the bottom view (`count - height - offset`), or at row 0 once the offset reaches `count - height`; the offset is clamped to `count - height` when there are more rows than the viewport and is otherwise unchanged; short lists are shown whole; at offset 0 exactly the last `height` rows are shown; at most `height + 1` rows, and exactly `height + 1` when scrolled up; the title is annotated `(start+1-end+1 of count)` exactly when `start != end` |
| Console.LayoutScrollUp | src/ui.rs:75 | with more rows than the viewport, one more row of offset moves the window's first row up by one, until it reaches row 0 |
| Console.Visible | src/ui.rs:84-87 | the rows painted are the rows from `start` on, as many as the layout's range holds: none for no rows, all rows for a short list, the last `height` rows at the bottom, `height + 1` rows when scrolled up |

## Left out

- `Project::run` (src/project.rs:35-71): spawning `/bin/bash`, the reader thread, the shared `Arc<Mutex<String>>` output, `Instant` and `JoinHandle`. This is operating-system and concurrency plumbing. The captured output is a plain `string` field of `ProjectOutput.Project`.
- `Project::new` (src/project.rs:21-33), with its placeholder output text. It is a constructor with a fixed string and states nothing beyond its body.
- src/main.rs: terminal raw mode, the event poll loop and drawing.
- In src/ui.rs: layout, widgets, colours, the sidebar, the joining of rows with `"\n"`, the title's text formatting, and the mutex around the offset. `Console.Layout` takes the row count, height and offset as plain integers and returns the title as data.
- Console.Layout: requires `offset >= 0`. The stored offset is an `i32` that nothing shown ever makes negative, and a negative offset could put `start` past `end + 1`.
- Console.Layout: requires `count <= i32::MAX`, because the code casts the row count with `as i32`. Beyond that the cast wraps, and that is not modelled.
- `str::lines` details: stripping a trailing `'\r'` before `'\n'`, and the `split_at` panic on a position that is not a UTF-8 character boundary. Text is modelled as single-byte characters.
- Wrapping.Wrap, AppView.Lines, AppView.SplitBySize, ProjectOutput.Lines: require `width >= 1`. With width 0, `split_at(0)` makes no progress and the source loops forever on any non-empty line.
- LineStore.Append: requires a block size of at least 1, because with 0 the append loop never terminates on any non-empty batch (an empty batch ends at once with one empty block). It also requires the last block to respect its size. A block made with a negative size has negative room, and `split_at` on that room cast to `usize` panics.
- The `i32` casts in src/buffer.rs (`len() as i32`) wrap only for blocks or batches of more than 2^31 - 1 lines. That wrap-around is not modelled.
- The unused `offset` field of `Buff` and argument of `Buff::new`, and the unused `FormattedLines` enum in src/app.rs. Nothing reads them.
- Spill windows anchored at a (block, line) pair, eviction and watermarks, scroll commands, run/stop lifecycle and idempotence, and width-keyed render caches. No code for these exists in the files modelled.
