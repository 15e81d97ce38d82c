// The Console struct of src/console.rs: a colour flag and the two terminal
// streams, whose methods issue colour, text, reset, cursor and flush
// operations in sequence.

module Console {
  import opened Output
  import opened Write
  import opened LineScan
  import opened MatchLine

  /**
   * One terminal stream. It records every operation that takes effect, and
   * refuses, always, the operations in refused (a capability it lacks or a
   * stream that can no longer be written); writing empty text always
   * succeeds, since it issues no write call.
   */
  class Terminal {
    var log: seq<Event>
    const refused: set<Op>

    constructor (refused: set<Op>)
      ensures log == [] && this.refused == refused
    {
      this.refused := refused;
      log := [];
    }

    method Perform(e: Event) returns (ok: bool)
      modifies this
      ensures ok == !Refuses(refused, e)
      ensures log == old(log) + (if ok then [e] else [])
    {
      ok := !Refuses(refused, e);
      if ok {
        log := log + [e];
      }
    }
  }

  class Console {
    var isColor: bool
    const stdout: Terminal
    const stderr: Terminal

    ghost predicate Valid()
    {
      stdout != stderr
    }

    function Refused(): Refusals
    {
      Refusals(stdout.refused, stderr.refused)
    }

    constructor (stdout: Terminal, stderr: Terminal)
      requires stdout != stderr
      ensures Valid() && isColor
      ensures this.stdout == stdout && this.stderr == stderr
    {
      this.stdout := stdout;
      this.stderr := stderr;
      isColor := true;
    }

    /**
     * Console::new: term::stdout() and term::stderr() may fail to give a
     * terminal, and then the process exits with status 1. Colour starts on.
     */
    static method New(out: Option<Terminal>, err: Option<Terminal>) returns (c: Console?, st: Status)
      requires out.Some? && err.Some? ==> out.value != err.value
      ensures st == Running <==> out.Some? && err.Some?
      ensures st != Running ==> st == Exited(1) && c == null
      ensures st == Running ==> c != null && fresh(c) && c.Valid() && c.isColor
      ensures st == Running ==> c.stdout == out.value && c.stderr == err.value
    {
      if out.None? || err.None? {
        return null, Exited(1);
      }
      c := new Console(out.value, err.value);
      st := Running;
    }

    /** Best effort: a refused carriage return is ignored. */
    method CarriageReturn()
      requires Valid()
      modifies stdout
      ensures stdout.log == old(stdout.log) + Attempt(stdout.refused, Event.CarriageReturn)
      ensures unchanged(stderr)
    {
      var _ := stdout.Perform(Event.CarriageReturn);
    }

    /** Best effort: a refused cursor move is ignored. */
    method CursorUp()
      requires Valid()
      modifies stdout
      ensures stdout.log == old(stdout.log) + Attempt(stdout.refused, Event.CursorUp)
      ensures unchanged(stderr)
    {
      var _ := stdout.Perform(Event.CursorUp);
    }

    /** Best effort: a refused line deletion is ignored. */
    method DeleteLine()
      requires Valid()
      modifies stdout
      ensures stdout.log == old(stdout.log) + Attempt(stdout.refused, Event.DeleteLine)
      ensures unchanged(stderr)
    {
      var _ := stdout.Perform(Event.DeleteLine);
    }

    /**
     * Issue one operation on the stream it names, given what the current
     * call has recorded so far (acc) on top of the logs before that call.
     * The ghost parameters carry that bookkeeping so that Write is proved
     * one operation at a time, which keeps its proof small.
     */
    method Issue(a: Action, ghost acc: Trace, ghost out0: seq<Event>, ghost err0: seq<Event>) returns (ok: bool)
      requires Valid()
      requires acc.status == Running
      requires stdout.log == out0 + acc.out && stderr.log == err0 + acc.err
      modifies stdout, stderr
      ensures ok == Accepts(Refused(), a)
      ensures var t := Then(acc, Run([a], Refused()));
        stdout.log == out0 + t.out && stderr.log == err0 + t.err &&
        t.status == if ok || !Fatal(a.event) then Running else Exited(1)
    {
      RunOne(a, Refused());
      if a.stream == Stdout {
        ok := stdout.Perform(a.event);
      } else {
        ok := stderr.Perform(a.event);
      }
    }

    /**
     * Console::write: the streams record what WriteTrace says, and the
     * process goes on exactly when WriteTrace says it does.
     */
    method Write(kind: Kind, val: string) returns (st: Status)
      requires Valid()
      modifies stdout, stderr
      ensures var t := WriteTrace(isColor, kind, val, Refused());
        stdout.log == old(stdout.log) + t.out && stderr.log == old(stderr.log) + t.err && st == t.status
    {
      WriteSteps(isColor, kind, val, Refused());
      ghost var out0, err0 := stdout.log, stderr.log;
      ghost var acc := Idle();
      var ok: bool;
      if isColor {
        var color := ColorOf(kind);
        ok := Issue(Action(Stdout, Fg(color)), acc, out0, err0);
        acc := Then(acc, Run([Action(Stdout, Fg(color))], Refused()));
        if !ok {
          return Exited(1);
        }
        ok := Issue(Action(Stderr, Fg(color)), acc, out0, err0);
        acc := Then(acc, Run([Action(Stderr, Fg(color))], Refused()));
        if !ok {
          return Exited(1);
        }
      }
      ok := Issue(Action(TargetOf(kind), Chars(val)), acc, out0, err0);
      acc := Then(acc, Run([Action(TargetOf(kind), Chars(val))], Refused()));
      if !ok {
        return Exited(1);
      }
      if isColor {
        ok := Issue(Action(Stdout, Reset), acc, out0, err0);
        acc := Then(acc, Run([Action(Stdout, Reset)], Refused()));
        if !ok {
          return Exited(1);
        }
        ok := Issue(Action(Stderr, Reset), acc, out0, err0);
        acc := Then(acc, Run([Action(Stderr, Reset)], Refused()));
        if !ok {
          return Exited(1);
        }
      }
      var _ := Issue(Action(Stdout, Flush), acc, out0, err0);
      acc := Then(acc, Run([Action(Stdout, Flush)], Refused()));
      var _ := Issue(Action(Stderr, Flush), acc, out0, err0);
      acc := Then(acc, Run([Action(Stderr, Flush)], Refused()));
      st := Running;
    }

    /** Console::write_with_clear: clear the current line of stdout, best effort, then write. */
    method WriteWithClear(kind: Kind, val: string) returns (st: Status)
      requires Valid()
      modifies stdout, stderr
      ensures var t := WriteTrace(isColor, kind, val, Refused());
        stdout.log == old(stdout.log) + Attempt(stdout.refused, Event.CarriageReturn)
          + Attempt(stdout.refused, Event.DeleteLine) + t.out &&
        stderr.log == old(stderr.log) + t.err && st == t.status
    {
      CarriageReturn();
      DeleteLine();
      st := Write(kind, val);
    }

    /**
     * One write of write_match_line, given what the call has recorded so far
     * (acc, ghost) on top of the logs before the call. It exists only so that
     * WriteMatchLine is proved one write at a time, which keeps its proof small.
     */
    method WriteCall(c: Call, ghost acc: Trace, ghost out0: seq<Event>, ghost err0: seq<Event>) returns (st: Status)
      requires Valid()
      requires acc.status == Running
      requires stdout.log == out0 + acc.out && stderr.log == err0 + acc.err
      modifies stdout, stderr
      ensures var t := Then(acc, WriteTrace(isColor, c.kind, c.text, Refused()));
        stdout.log == out0 + t.out && stderr.log == err0 + t.err && st == t.status
    {
      st := Write(c.kind, c.text);
    }

    /**
     * Console::write_match_line: the streams record the writes of
     * MatchLineCalls in order, stopping at the first one that ends the
     * process.
     */
    method WriteMatchLine(src: seq<bv8>, m: Match, decode: seq<bv8> -> string) returns (st: Status)
      requires Valid()
      requires ValidSpan(src, m)
      modifies stdout, stderr
      ensures var t := Run(Plans(isColor, MatchLineCalls(src, m, decode)), Refused());
        stdout.log == old(stdout.log) + t.out && stderr.log == old(stderr.log) + t.err && st == t.status
    {
      MatchLineSteps(src, m, decode, isColor, Refused());
      ghost var out0, err0 := stdout.log, stderr.log;
      ghost var acc := Idle();
      var beg, end := LineBounds(src, m);
      if beg < m.beg {
        var c := Call(Text, decode(src[beg..m.beg]));
        st := WriteCall(c, acc, out0, err0);
        acc := Then(acc, WriteTrace(isColor, c.kind, c.text, Refused()));
        if st != Running {
          return;
        }
      } else {
        ThenIdle(acc);
      }
      var c := Call(MatchText, decode(src[m.beg..m.end]));
      st := WriteCall(c, acc, out0, err0);
      acc := Then(acc, WriteTrace(isColor, c.kind, c.text, Refused()));
      if st != Running {
        return;
      }
      if m.end < end {
        c := Call(Text, decode(src[m.end..end]));
        st := WriteCall(c, acc, out0, err0);
        acc := Then(acc, WriteTrace(isColor, c.kind, c.text, Refused()));
        if st != Running {
          return;
        }
      } else {
        ThenIdle(acc);
      }
      c := Call(Other, "\n");
      st := WriteCall(c, acc, out0, err0);
      acc := Then(acc, WriteTrace(isColor, c.kind, c.text, Refused()));
    }
  }
}
