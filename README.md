# amber console, modelled in Dafny

This project models `src/console.rs` of amber, a code search-and-replace
tool. That file is the part of amber that prints results. It holds:

1. `Console::write_match_line`. Given a byte buffer and a match span, it
   widens the span to the line around it with two scanning loops. It then
   writes the text before the match, the match and the text after it, each
   in its own colour, followed by a newline.
2. The `Console` state machine. Its state is the `is_color` flag and two
   terminals, stdout and stderr. With `is_color` on, `write` sets the
   kind's colour on both terminals; it writes the text to the terminal of
   the kind; with `is_color` on, it resets both terminals; it always
   flushes both. `carriage_return`, `cursor_up` and `delete_line` are
   best-effort cursor operations. `write_with_clear`, used to redraw a
   status line, does a carriage return and a line deletion, both best
   effort, and then a `write`, which can end the process.

Modules:

- `Output` (Output.dfy) holds the vocabulary:
  - text kinds, the colour table and the routing of kinds to streams;
  - the events a terminal records and the operations it may refuse;
  - `Run`, which says what a sequence of terminal actions does when a
    terminal refuses some operations. A refused colour, text or reset
    operation ends the process with status 1. A refused cursor move or
    flush is skipped.
- `Write` (Output.dfy) holds `WritePlan` and `WriteTrace`, the operations
  of one `Console::write` and their effect, with its properties.
- `LineScan` (LineScan.dfy) holds the two scanning loops as the method
  `LineBounds`, and their functional specification `LineBegin`/`LineEnd`.
- `MatchLine` (MatchLine.dfy) holds the segments of the line and the
  writes `write_match_line` makes, with their properties.
- `Console` (Console.dfy) holds the classes:
  - `Terminal` is one terminal stream: a log of recorded events plus a
    fixed set of refused operations.
  - `Console` has the `is_color` flag and two terminals. Its methods
    follow the Rust methods statement by statement.

Edge cases of the scans, as the code has them:

- `line_end` is the separator's own offset, not one past it: line 88 sets
  `end` to one before the separator and line 91 adds the one back
  (`LineEnd`, `LineEndSpec`).
- When the byte at `m.beg` (with `m.beg > 0`) is itself CR or LF, the
  backward scan stops at once and `line_begin` is `m.beg + 1`, one past the
  match start (`SeparatorAtMatchStart`).
- The byte at offset 0 is never examined, so a CR or LF there stays in
  the prefix (`SeparatorAtOffsetZeroStaysInPrefix`).

Writing empty text cannot fail: `write!` of an empty string reaches
`write_all` with zero bytes, which makes no write call. A refused text
operation therefore ends the process only for non-empty text
(`Output.Refuses`, `EmptyMatchOnRefusingStdout`).

## Model

| member | source | states |
|---|---|---|
| LineScan.ValidSpan | src/console.rs:80-91 | what the scans need of a span: m.beg <= m.end <= the buffer length, m.beg indexable unless it is 0 (line 84), and no CR/LF at offset 0 when m.end is 0 (line 88's `end -= 1`) |
| LineScan.LastSep | src/console.rs:83-86 | the backward scan's hit: the largest offset in 1..=i holding CR or LF, or none when 1..=i holds none |
| LineScan.FirstSep | src/console.rs:87-90 | the forward scan's hit: the smallest offset at or after i holding CR or LF, or none when the rest of the buffer holds none |
| LineScan.LineBegin | src/console.rs:83-86 | the line start is at most one past the match start |
| LineScan.LineEnd | src/console.rs:87-91 | the line end lies between the match end and the buffer length |
| LineScan.LineBeginSpec | src/console.rs:83-86 | line start is 0 exactly when no CR/LF is at offsets 1..=m.beg; otherwise it is one past a CR/LF at offset 1 or more, and no CR/LF lies between it and m.beg |
| LineScan.LineEndSpec | src/console.rs:87-91 | the line end is below the buffer length only at a CR/LF, and no CR/LF lies from the match end up to it |
| LineScan.LineBeginUnique | src/console.rs:83-86 | any offset with LineBeginSpec's property (0, or one past a CR/LF at offset 1..=m.beg with no CR/LF from it up to m.beg) is the backward scan's result |
| LineScan.LineEndUnique | src/console.rs:87-91 | any offset from m.end up to the buffer length that is at a CR/LF or at the end, with no CR/LF before it from m.end, is the forward scan's result |
| LineScan.LineBounds | src/console.rs:80-91 | the two while loops with their breaks and the adjustment of line 91 compute exactly LineBegin and LineEnd, under ValidSpan: the index and underflow conditions of lines 84 and 88, plus the slice bounds that lines 94-98 need |
| MatchLine.Segments | src/console.rs:93-99 | the byte slices written: src[line_begin..m.beg] as Text when line_begin < m.beg, src[m.beg..m.end] as MatchText, src[m.end..line_end] as Text when m.end < line_end |
| MatchLine.MatchLineCalls | src/console.rs:93-100 | the writes of write_match_line: each segment decoded with its kind, then Other "\n" |
| MatchLine.SegmentsShape | src/console.rs:93-99 | a non-empty Text prefix exactly when the line starts before the match, the match segment always, a non-empty Text suffix exactly when the line ends after the match |
| MatchLine.SegmentsCoverLine | src/console.rs:93-99 | the segments joined are src[min(line_begin, m.beg)..line_end] |
| MatchLine.SegmentsHaveNoSeparator | src/console.rs:83-98 | the suffix holds no CR/LF, and the prefix holds none except possibly at offset 0 |
| MatchLine.SeparatorAtOffsetZeroStaysInPrefix | src/console.rs:83-86 | for "\nab" with match 1..3, the prefix is the LF at offset 0 |
| MatchLine.SeparatorAtMatchStart | src/console.rs:83-91 | for "ab\ncd" with the empty match at the LF, line_begin is 3, line_end is 2 and only the empty match is written |
| MatchLine.WholeLineMatch | src/console.rs:80-99 | for "abc\nXYZ\ndef" with match 4..7, line_begin is 4, line_end is 7 and only the match is written |
| MatchLine.LastLineMatch | src/console.rs:87-91 | for "hello world" with match 6..11, line_begin is 0 and line_end is the buffer length |
| MatchLine.MatchLineCallsFollowSegments | src/console.rs:93-100 | one write per segment, in order, with the decoded bytes and the segment's kind, then exactly one more write: Other "\n" |
| MatchLine.MatchLineCallsRouteToStdout | src/console.rs:93-100 | no write of write_match_line has kind Error |
| MatchLine.MatchLineSteps | src/console.rs:93-100 | running the writes is the prefix write (if any), then the match, the suffix (if any) and the newline, each only while the process still runs |
| MatchLine.PlansStatus | src/console.rs:93-100 | a sequence of writes lets the process go on exactly when each of its writes does |
| MatchLine.MatchLineStatus | src/console.rs:63-100 | write_match_line ends the process, with status 1, exactly when stdout refuses text or, with colour on, either stream refuses a colour or a reset (empty segments cannot fail, but the final "\n" is never empty) |
| MatchLine.MatchLinePlainHasNoColor | src/console.rs:55-100 | with colour off, write_match_line puts no colour and no reset on either stream, whatever is refused |
| MatchLine.EmptyMatchOnRefusingStdout | src/console.rs:68-100 | assuming decode of the empty slice is empty (as from_utf8_lossy gives): an empty match in an empty buffer, colour off, stdout refusing text: the empty write succeeds and is flushed on both streams, and the process exits with status 1 at the "\n" write |
| MatchLine.WritePlanTexts | src/console.rs:67-70 | one write gives its text to the stream of its kind and no text to the other |
| MatchLine.PlansTexts | src/console.rs:67-70 | the texts a stream is given by a sequence of writes are those of the writes routed to it, in order |
| MatchLine.CallsTexts | src/console.rs:67-70 | writes without Error kind that all complete leave their texts, in order, on stdout and none on stderr |
| MatchLine.MatchLineTexts | src/console.rs:93-100 | a completed write_match_line leaves on stdout the decoded segments in order and then "\n", and no text on stderr |
| Output.ColorOf | src/console.rs:56-62 | the colour table: Filename→BrightGreen, Text→White, MatchText→BrightYellow, Other→BrightCyan, Error→BrightRed |
| Output.TargetOf | src/console.rs:67-70 | text of kind Error goes to stderr, every other kind to stdout |
| Output.Fatal | src/console.rs:37-77 | colour, text and reset failures call process::exit(1) (lines 63-74); cursor and flush failures are discarded with `let _` (lines 37-45, 76-77) |
| Output.Refuses | src/console.rs:63-74 | an operation fails when the stream refuses its kind, except that empty text never fails, since it issues no write call |
| Output.Run | src/console.rs:63-77 | the status after a sequence of operations is Running or Exited(1) |
| Output.RunStatus | src/console.rs:63-77 | the process survives exactly when every colour, text and reset operation is accepted |
| Output.RunEventsIssued | src/console.rs:63-77 | a stream records only operations issued on it |
| Output.RunAppend | src/console.rs:63-77 | running two sequences of operations in turn is running the first and, if the process survives, then the second |
| Output.RunStoppedPrefix | src/console.rs:63-74 | after process::exit, nothing issued later has any effect |
| Output.RunAcceptingAll | src/console.rs:63-77 | streams that refuse nothing record exactly what was issued on them |
| Output.RunTexts | src/console.rs:54-78 | while the process runs, refused best-effort operations never drop text: each stream records the texts issued on it |
| Output.ThenAssoc | src/console.rs:54-100 | grouping consecutive runs into phases does not change the result |
| Write.WritePlan | src/console.rs:54-78 | the operations of one write in source order: Fg on stdout and stderr (colour on only), the text on the kind's stream, Reset on stdout and stderr (colour on only), Flush on stdout and stderr |
| Write.WriteTrace | src/console.rs:54-78 | the effect of one write: its plan run against what the streams refuse |
| Write.WriteSteps | src/console.rs:54-78 | a write is, in order, the colour on stdout and stderr, the text, the reset of stdout and stderr (colour steps only with colour on), then the two flushes |
| Write.WriteTraceParts | src/console.rs:54-78 | a write is its colour phase, then its text, its reset phase and its flush phase |
| Write.ColorStepsStatus | src/console.rs:63-64 | the colour phase survives exactly when colour is off or neither stream refuses colour |
| Write.ResetStepsStatus | src/console.rs:73-74 | the reset phase survives exactly when colour is off or neither stream refuses a reset |
| Write.FlushStepsRun | src/console.rs:76-77 | the flush phase never ends the process and records a flush on each stream that accepts it |
| Write.WriteStatus | src/console.rs:63-74 | a write ends the process exactly when the text is non-empty and refused by its stream or, with colour on, a colour or reset is refused by either stream; the status is then 1 |
| Write.WriteCompleted | src/console.rs:55-77 | a completed write with colour on leaves Fg(colour of kind), the text and Reset on the kind's stream and Fg and Reset on the other; with colour off, only the text; then each stream's flush unless refused |
| Write.WritePlainHasNoColor | src/console.rs:55-75 | with colour off, no stream records a colour or a reset, whatever is refused |
| Write.WriteRouting | src/console.rs:67-70 | the other stream records no text, and the only text on the kind's stream is the write's own |
| Write.WriteExitsBeforeFlush | src/console.rs:63-77 | a write that ends the process does so with status 1 and before either stream is flushed |
| Console.Terminal.constructor | src/console.rs:30-31 | a terminal starts with an empty log and a fixed set of refused operations |
| Console.Terminal.Perform | src/console.rs:37-77 | an operation is recorded exactly when the terminal does not refuse it (empty text is never refused) |
| Console.Console.constructor | src/console.rs:29-33 | a console starts with colour on, over two distinct streams |
| Console.Console.New | src/console.rs:28-34 | a console is made exactly when both terminals are obtained; otherwise the process exits with status 1 |
| Console.Console.CarriageReturn | src/console.rs:36-38 | stdout records a carriage return unless it refuses one; stderr is unchanged |
| Console.Console.CursorUp | src/console.rs:40-42 | stdout records a cursor move unless it refuses one; stderr is unchanged |
| Console.Console.DeleteLine | src/console.rs:44-46 | stdout records a line deletion unless it refuses one; stderr is unchanged |
| Console.Console.Issue | src/console.rs:63-77 | one operation is recorded on its stream exactly when accepted, and ends the process only when it is fatal and refused |
| Console.Console.Write | src/console.rs:54-78 | the streams record exactly WriteTrace's events and the returned status is WriteTrace's |
| Console.Console.WriteWithClear | src/console.rs:48-52 | stdout records a carriage return, then a line deletion (each unless refused), then the events of the write |
| Console.Console.WriteCall | src/console.rs:93-100 | one write of write_match_line extends what the call has recorded so far |
| Console.Console.WriteMatchLine | src/console.rs:80-101 | the streams record exactly the run of MatchLineCalls' writes, stopping at the first one that ends the process, and the returned status is its status |

## Left out

- The `term` crate's escape sequences and capability detection (lines 1,
  7, 30-31, 37-45, 63-74) are not modelled. Colours, cursor moves and
  resets are abstract events. Whether a terminal refuses an operation is a
  fixed set of refused operation kinds per terminal, so a failure that
  comes and goes is not modelled.
- `process::exit(1)` (lines 30-31, 63-74) is modelled as the status
  `Exited(1)`. From that point the methods return and issue nothing more.
  Process termination itself is not modelled.
- `io::stdout().flush()` and `io::stderr().flush()` (lines 76-77) are
  recorded as a `Flush` event on the stream, and a refused flush is
  ignored. In the source these flush the standard streams, not the term
  handles; buffering is not modelled.
- `String::from_utf8_lossy` (lines 94, 96, 98) is an uninterpreted
  function parameter `decode` on byte slices.
- The producer of `Match` is not part of this model. Spans are inputs that
  satisfy `ValidSpan`.
- Console.Console.WriteMatchLine and LineScan.LineBounds: the source
  panics (line 84, indexing at `m.beg`) or underflows a `usize` (line 88,
  at `m.end == 0` with CR/LF at offset 0) on spans outside `ValidSpan`;
  these spans are excluded by precondition, not modelled as a panic. In
  a release build the underflow wraps `end` to `usize::MAX`, line 91 then
  sets `end` to the buffer length, and the whole buffer after the match is
  printed as the Text suffix, separators included; a debug build panics.
- Console.Console.New: obtaining the terminals is an input (an `Option`
  per stream) rather than a call into the `term` crate.
- `is_color` is a public field in the source that callers may set at
  any time; the model has the same mutable field. No method of the core
  changes it.
