// The vocabulary of the console: text kinds and their colours, the events a
// terminal stream records, and what running a sequence of terminal actions
// does when the terminal may refuse some of them.

module Output {

  datatype Option<T> = None | Some(value: T)

  /** ConsoleTextKind. */
  datatype Kind = Filename | Text | MatchText | Other | Error

  /** The five colours of the term crate that the console uses. */
  datatype Color = BrightGreen | White | BrightYellow | BrightCyan | BrightRed

  /** The fixed kind-to-colour table of Console::write. */
  function ColorOf(kind: Kind): Color
  {
    match kind
    case Filename => BrightGreen
    case Text => White
    case MatchText => BrightYellow
    case Other => BrightCyan
    case Error => BrightRed
  }

  datatype Stream = Stdout | Stderr

  /** Text of kind Error goes to stderr, every other kind to stdout. */
  function TargetOf(kind: Kind): Stream
  {
    if kind == Error then Stderr else Stdout
  }

  function OtherStream(s: Stream): Stream
  {
    if s == Stdout then Stderr else Stdout
  }

  /** What a terminal stream records when an operation takes effect. */
  datatype Event =
    | Fg(color: Color)
    | Chars(text: string)
    | Reset
    | CarriageReturn
    | CursorUp
    | DeleteLine
    | Flush

  /** The kinds of operation a terminal may refuse. */
  datatype Op = FgOp | WriteOp | ResetOp | CarriageReturnOp | CursorUpOp | DeleteLineOp | FlushOp

  function OpOf(e: Event): Op
  {
    match e
    case Fg(_) => FgOp
    case Chars(_) => WriteOp
    case Reset => ResetOp
    case CarriageReturn => CarriageReturnOp
    case CursorUp => CursorUpOp
    case DeleteLine => DeleteLineOp
    case Flush => FlushOp
  }

  /**
   * The failure policy: a refused colour, text or reset operation ends the
   * process with status 1; a refused cursor move or flush is ignored.
   */
  predicate Fatal(e: Event)
  {
    e.Fg? || e.Chars? || e.Reset?
  }

  /** One operation issued on one stream. */
  datatype Action = Action(stream: Stream, event: Event)

  /** The operations each stream refuses (a missing capability or a broken stream). */
  datatype Refusals = Refusals(onStdout: set<Op>, onStderr: set<Op>)

  function RefusedOn(rf: Refusals, s: Stream): set<Op>
  {
    if s == Stdout then rf.onStdout else rf.onStderr
  }

  /**
   * A stream refuses an event when it refuses that kind of operation,
   * except that writing empty text reaches no write call at all (write_all
   * of zero bytes), so it cannot fail.
   */
  predicate Refuses(refused: set<Op>, e: Event)
  {
    e != Chars("") && OpOf(e) in refused
  }

  predicate Accepts(rf: Refusals, a: Action)
  {
    !Refuses(RefusedOn(rf, a.stream), a.event)
  }

  /** Running means the process goes on; Exited(code) means process::exit(code) was called. */
  datatype Status = Running | Exited(code: int)

  /** What the two streams record, and whether the process is still running. */
  datatype Trace = Trace(out: seq<Event>, err: seq<Event>, status: Status)

  function On(t: Trace, s: Stream): seq<Event>
  {
    if s == Stdout then t.out else t.err
  }

  /** Record a on its stream in front of t. */
  function Cons(a: Action, t: Trace): (r: Trace)
  {
    if a.stream == Stdout then t.(out := [a.event] + t.out) else t.(err := [a.event] + t.err)
  }

  /** t1 followed by t2, for a t1 after which the process is still running. */
  function Join(t1: Trace, t2: Trace): Trace
  {
    Trace(t1.out + t2.out, t1.err + t2.err, t2.status)
  }

  /** t1 followed by t2, unless the process exited during t1. */
  function Then(t1: Trace, t2: Trace): Trace
  {
    if t1.status == Running then Join(t1, t2) else t1
  }

  /**
   * Issue the actions of p in order. An accepted action is recorded; a
   * refused fatal one stops everything with status 1; a refused best-effort
   * one is skipped.
   */
  function Run(p: seq<Action>, rf: Refusals): (t: Trace)
    ensures t.status == Running || t.status == Exited(1)
    decreases |p|
  {
    if p == [] then Trace([], [], Running)
    else if Accepts(rf, p[0]) then Cons(p[0], Run(p[1..], rf))
    else if Fatal(p[0].event) then Trace([], [], Exited(1))
    else Run(p[1..], rf)
  }

  /** The process survives p exactly when every fatal action of p is accepted. */
  lemma {:induction false} RunStatus(p: seq<Action>, rf: Refusals)
    ensures Run(p, rf).status == Running <==> forall i :: 0 <= i < |p| && Fatal(p[i].event) ==> Accepts(rf, p[i])
    decreases |p|
  {
    if p != [] {
      RunStatus(p[1..], rf);
      assert forall i :: 1 <= i < |p| ==> p[1..][i - 1] == p[i];
    }
  }

  /** A stream records only events that were issued on it. */
  lemma {:induction false} RunEventsIssued(p: seq<Action>, rf: Refusals)
    ensures forall e :: e in Run(p, rf).out ==> Action(Stdout, e) in p
    ensures forall e :: e in Run(p, rf).err ==> Action(Stderr, e) in p
    decreases |p|
  {
    if p != [] {
      RunEventsIssued(p[1..], rf);
      assert forall a :: a in p[1..] ==> a in p;
    }
  }

  /** The events of p's actions on stream s, in order. */
  function Project(p: seq<Action>, s: Stream): seq<Event>
  {
    if p == [] then []
    else (if p[0].stream == s then [p[0].event] else []) + Project(p[1..], s)
  }

  /** The texts written by a sequence of events. */
  function Texts(es: seq<Event>): seq<string>
  {
    if es == [] then []
    else (if es[0].Chars? then [es[0].text] else []) + Texts(es[1..])
  }

  lemma {:induction false} RunAppend(p1: seq<Action>, p2: seq<Action>, rf: Refusals)
    ensures Run(p1 + p2, rf) == Then(Run(p1, rf), Run(p2, rf))
    decreases |p1|
  {
    if p1 == [] {
      assert p1 + p2 == p2;
    } else {
      assert (p1 + p2)[1..] == p1[1..] + p2;
      RunAppend(p1[1..], p2, rf);
    }
  }

  /** Nothing recorded, still running. */
  function Idle(): Trace
  {
    Trace([], [], Running)
  }

  /** Idle is a unit of Then on both sides. */
  lemma ThenIdle(t: Trace)
    ensures Then(Idle(), t) == t && Then(t, Idle()) == t
  {
    assert [] + t.out == t.out && [] + t.err == t.err;
    assert t.out + [] == t.out && t.err + [] == t.err;
  }

  /** Then is associative: how a run is split into phases does not matter. */
  lemma ThenAssoc(t1: Trace, t2: Trace, t3: Trace)
    ensures Then(t1, Then(t2, t3)) == Then(Then(t1, t2), t3)
  {
    if t1.status == Running && t2.status == Running {
      assert t1.out + (t2.out + t3.out) == (t1.out + t2.out) + t3.out;
      assert t1.err + (t2.err + t3.err) == (t1.err + t2.err) + t3.err;
    }
  }

  /** Once the process has exited, nothing issued afterwards has any effect. */
  lemma RunStoppedPrefix(done: seq<Action>, p: seq<Action>, rf: Refusals)
    requires done <= p
    requires Run(done, rf).status != Running
    ensures Run(p, rf) == Run(done, rf)
  {
    assert p == done + p[|done|..];
    RunAppend(done, p[|done|..], rf);
  }

  /** When a stream refuses nothing, it records exactly the actions issued on it. */
  lemma {:induction false} RunAcceptingAll(p: seq<Action>, rf: Refusals)
    requires forall i :: 0 <= i < |p| ==> Accepts(rf, p[i])
    ensures Run(p, rf) == Trace(Project(p, Stdout), Project(p, Stderr), Running)
    decreases |p|
  {
    if p != [] {
      RunAcceptingAll(p[1..], rf);
    }
  }

  /**
   * While the process keeps running, the texts each stream records are the
   * texts issued on it: best-effort refusals never drop text.
   */
  lemma {:induction false} RunTexts(p: seq<Action>, rf: Refusals)
    requires Run(p, rf).status == Running
    ensures Texts(Run(p, rf).out) == Texts(Project(p, Stdout))
    ensures Texts(Run(p, rf).err) == Texts(Project(p, Stderr))
    decreases |p|
  {
    if p != [] {
      assert Run(p[1..], rf).status == Running by {
        RunStatus(p, rf);
        RunStatus(p[1..], rf);
        forall i | 0 <= i < |p[1..]| && Fatal(p[1..][i].event)
          ensures Accepts(rf, p[1..][i])
        {
          assert p[1..][i] == p[i + 1];
        }
      }
      RunTexts(p[1..], rf);
      var e := p[0].event;
      var rest := Run(p[1..], rf);
      assert Texts([e]) == if e.Chars? then [e.text] else [] by {
        assert [e][1..] == [];
      }
      TextsAppend([e], rest.out);
      TextsAppend([e], rest.err);
      TextsAppend([e], Project(p[1..], Stdout));
      TextsAppend([e], Project(p[1..], Stderr));
      if p[0].stream == Stdout {
        assert Project(p, Stdout) == [e] + Project(p[1..], Stdout);
        assert Project(p, Stderr) == Project(p[1..], Stderr);
      } else {
        assert Project(p, Stdout) == Project(p[1..], Stdout);
        assert Project(p, Stderr) == [e] + Project(p[1..], Stderr);
      }
      if Accepts(rf, p[0]) {
        assert Run(p, rf) == Cons(p[0], rest);
      } else {
        assert !Fatal(e);
        assert Run(p, rf) == rest;
      }
    }
  }

  lemma {:induction false} TextsAppend(a: seq<Event>, b: seq<Event>)
    ensures Texts(a + b) == Texts(a) + Texts(b)
    decreases |a|
  {
    if a == [] {
      assert a + b == b;
    } else {
      assert (a + b)[1..] == a[1..] + b;
      TextsAppend(a[1..], b);
    }
  }

  lemma {:induction false} ProjectAppend(a: seq<Action>, b: seq<Action>, s: Stream)
    ensures Project(a + b, s) == Project(a, s) + Project(b, s)
    decreases |a|
  {
    if a == [] {
      assert a + b == b;
    } else {
      var h := if a[0].stream == s then [a[0].event] else [];
      assert (a + b)[0] == a[0];
      assert (a + b)[1..] == a[1..] + b;
      assert Project(a + b, s) == h + Project(a[1..] + b, s);
      ProjectAppend(a[1..], b, s);
      assert Project(a, s) == h + Project(a[1..], s);
    }
  }

  lemma TextsProjectAppend(a: seq<Action>, b: seq<Action>, s: Stream)
    ensures Texts(Project(a + b, s)) == Texts(Project(a, s)) + Texts(Project(b, s))
  {
    ProjectAppend(a, b, s);
    TextsAppend(Project(a, s), Project(b, s));
  }
}

/** What Console::write issues (src/console.rs:54-78). */
module Write {
  import opened Output

  /** A best-effort operation: recorded unless the stream refuses it. */
  function Attempt(refused: set<Op>, e: Event): seq<Event>
  {
    if Refuses(refused, e) then [] else [e]
  }

  function ColorSteps(isColor: bool, c: Color): seq<Action>
  {
    if isColor then [Action(Stdout, Fg(c)), Action(Stderr, Fg(c))] else []
  }

  function ResetSteps(isColor: bool): seq<Action>
  {
    if isColor then [Action(Stdout, Reset), Action(Stderr, Reset)] else []
  }

  function FlushSteps(): seq<Action>
  {
    [Action(Stdout, Flush), Action(Stderr, Flush)]
  }

  /**
   * The operations of one write, in source order: the kind's colour on both
   * streams, the text on the kind's stream, a reset of both streams (the
   * colour steps only when colour is on), then a flush of both.
   */
  function WritePlan(isColor: bool, kind: Kind, val: string): seq<Action>
  {
    ColorSteps(isColor, ColorOf(kind)) + [Action(TargetOf(kind), Chars(val))] + ResetSteps(isColor) + FlushSteps()
  }

  /** The effect of one write on the two streams and on the process. */
  function WriteTrace(isColor: bool, kind: Kind, val: string, rf: Refusals): Trace
  {
    Run(WritePlan(isColor, kind, val), rf)
  }

  lemma RunOne(a: Action, rf: Refusals)
    ensures Run([a], rf) ==
      if Accepts(rf, a) then Cons(a, Trace([], [], Running))
      else if Fatal(a.event) then Trace([], [], Exited(1))
      else Trace([], [], Running)
  {
    assert [a][1..] == [];
  }

  lemma RunTwo(a: Action, b: Action, rf: Refusals)
    ensures Run([a, b], rf) == Then(Run([a], rf), Run([b], rf))
  {
    assert [a, b] == [a] + [b];
    RunAppend([a], [b], rf);
    RunOne(a, rf);
    RunOne(b, rf);
  }

  /** A write, split at its four phases. */
  lemma WriteTraceParts(isColor: bool, kind: Kind, val: string, rf: Refusals)
    ensures WriteTrace(isColor, kind, val, rf) ==
      Then(Then(Then(Run(ColorSteps(isColor, ColorOf(kind)), rf),
                     Run([Action(TargetOf(kind), Chars(val))], rf)),
                Run(ResetSteps(isColor), rf)),
           Run(FlushSteps(), rf))
  {
    var c, x, r, f := ColorSteps(isColor, ColorOf(kind)), [Action(TargetOf(kind), Chars(val))], ResetSteps(isColor), FlushSteps();
    RunAppend(c, x, rf);
    RunAppend(c + x, r, rf);
    RunAppend(c + x + r, f, rf);
  }

  /**
   * A write, one operation at a time: with colour on, the colour on stdout
   * and stderr, the text, the reset on stdout and stderr, and the two
   * flushes; with colour off, the text and the two flushes.
   */
  lemma WriteSteps(isColor: bool, kind: Kind, val: string, rf: Refusals)
    ensures var c, x := ColorOf(kind), Action(TargetOf(kind), Chars(val));
      var fo, fe, ro, re := Run([Action(Stdout, Fg(c))], rf), Run([Action(Stderr, Fg(c))], rf), Run([Action(Stdout, Reset)], rf), Run([Action(Stderr, Reset)], rf);
      var lo, le := Run([Action(Stdout, Flush)], rf), Run([Action(Stderr, Flush)], rf);
      (isColor ==>
         WriteTrace(isColor, kind, val, rf) ==
         Then(Then(Then(Then(Then(Then(Then(Idle(), fo), fe), Run([x], rf)), ro), re), lo), le)) &&
      (!isColor ==> WriteTrace(isColor, kind, val, rf) == Then(Then(Then(Idle(), Run([x], rf)), lo), le))
  {
    var c, x := ColorOf(kind), Action(TargetOf(kind), Chars(val));
    var fo, fe, ro, re := Run([Action(Stdout, Fg(c))], rf), Run([Action(Stderr, Fg(c))], rf), Run([Action(Stdout, Reset)], rf), Run([Action(Stderr, Reset)], rf);
    var lo, le := Run([Action(Stdout, Flush)], rf), Run([Action(Stderr, Flush)], rf);
    var tx := Run([x], rf);
    WriteTraceParts(isColor, kind, val, rf);
    RunTwo(Action(Stdout, Flush), Action(Stderr, Flush), rf);
    ThenIdle(tx);
    if isColor {
      RunTwo(Action(Stdout, Fg(c)), Action(Stderr, Fg(c)), rf);
      RunTwo(Action(Stdout, Reset), Action(Stderr, Reset), rf);
      ThenIdle(fo);
      var a := Then(Then(fo, fe), tx);
      ThenAssoc(a, ro, re);
      ThenAssoc(Then(Then(a, ro), re), lo, le);
    } else {
      var a := Then(tx, Idle());
      ThenIdle(a);
      ThenAssoc(tx, lo, le);
    }
  }

  lemma ThenStatus(t1: Trace, t2: Trace)
    ensures Then(t1, t2).status == if t1.status == Running then t2.status else t1.status
  {
  }

  lemma ColorStepsStatus(isColor: bool, c: Color, rf: Refusals)
    ensures Run(ColorSteps(isColor, c), rf).status == Running <==>
      (isColor ==> FgOp !in rf.onStdout && FgOp !in rf.onStderr)
  {
    if isColor {
      RunTwo(Action(Stdout, Fg(c)), Action(Stderr, Fg(c)), rf);
      RunOne(Action(Stdout, Fg(c)), rf);
      RunOne(Action(Stderr, Fg(c)), rf);
    }
  }

  lemma ResetStepsStatus(isColor: bool, rf: Refusals)
    ensures Run(ResetSteps(isColor), rf).status == Running <==>
      (isColor ==> ResetOp !in rf.onStdout && ResetOp !in rf.onStderr)
  {
    if isColor {
      RunTwo(Action(Stdout, Reset), Action(Stderr, Reset), rf);
      RunOne(Action(Stdout, Reset), rf);
      RunOne(Action(Stderr, Reset), rf);
    }
  }

  /**
   * A write ends the process exactly when a colour or reset step is refused
   * on either stream while colour is on, or the text is not empty and is
   * refused by the kind's stream; the exit status is then 1. Flushes never
   * end it.
   */
  lemma {:induction false} WriteStatus(isColor: bool, kind: Kind, val: string, rf: Refusals)
    ensures var t := WriteTrace(isColor, kind, val, rf);
      (t.status == Running <==>
        (isColor ==> FgOp !in rf.onStdout && FgOp !in rf.onStderr && ResetOp !in rf.onStdout && ResetOp !in rf.onStderr) &&
        (val == "" || WriteOp !in RefusedOn(rf, TargetOf(kind)))) &&
      (t.status != Running ==> t.status == Exited(1))
  {
    var c := ColorOf(kind);
    var t1, t2, t3, t4 := Run(ColorSteps(isColor, c), rf), Run([Action(TargetOf(kind), Chars(val))], rf),
      Run(ResetSteps(isColor), rf), Run(FlushSteps(), rf);
    WriteTraceParts(isColor, kind, val, rf);
    ColorStepsStatus(isColor, c, rf);
    ResetStepsStatus(isColor, rf);
    RunOne(Action(TargetOf(kind), Chars(val)), rf);
    RunTwo(Action(Stdout, Flush), Action(Stderr, Flush), rf);
    RunOne(Action(Stdout, Flush), rf);
    RunOne(Action(Stderr, Flush), rf);
    assert t4.status == Running;
    ThenStatus(t1, t2);
    ThenStatus(Then(t1, t2), t3);
    ThenStatus(Then(Then(t1, t2), t3), t4);
  }

  lemma ColorStepsRunning(isColor: bool, c: Color, rf: Refusals)
    requires Run(ColorSteps(isColor, c), rf).status == Running
    ensures Run(ColorSteps(isColor, c), rf) ==
      if isColor then Trace([Fg(c)], [Fg(c)], Running) else Trace([], [], Running)
  {
    if isColor {
      ColorStepsStatus(isColor, c, rf);
      RunTwo(Action(Stdout, Fg(c)), Action(Stderr, Fg(c)), rf);
      RunOne(Action(Stdout, Fg(c)), rf);
      RunOne(Action(Stderr, Fg(c)), rf);
    }
  }

  lemma ResetStepsRunning(isColor: bool, rf: Refusals)
    requires Run(ResetSteps(isColor), rf).status == Running
    ensures Run(ResetSteps(isColor), rf) ==
      if isColor then Trace([Reset], [Reset], Running) else Trace([], [], Running)
  {
    if isColor {
      ResetStepsStatus(isColor, rf);
      RunTwo(Action(Stdout, Reset), Action(Stderr, Reset), rf);
      RunOne(Action(Stdout, Reset), rf);
      RunOne(Action(Stderr, Reset), rf);
    }
  }

  lemma FlushStepsRun(rf: Refusals)
    ensures Run(FlushSteps(), rf) == Trace(Attempt(rf.onStdout, Flush), Attempt(rf.onStderr, Flush), Running)
  {
    RunTwo(Action(Stdout, Flush), Action(Stderr, Flush), rf);
    RunOne(Action(Stdout, Flush), rf);
    RunOne(Action(Stderr, Flush), rf);
  }

  /**
   * A write that completes leaves, with colour on, the kind's colour, the
   * text and a reset on the kind's stream and the colour and a reset on the
   * other stream; with colour off, only the text; each stream then gets its
   * flush unless it refuses flushes.
   */
  lemma {:induction false} WriteCompleted(isColor: bool, kind: Kind, val: string, rf: Refusals)
    requires WriteTrace(isColor, kind, val, rf).status == Running
    ensures var t := WriteTrace(isColor, kind, val, rf);
      var target, other := TargetOf(kind), OtherStream(TargetOf(kind));
      var c := ColorOf(kind);
      (isColor ==> On(t, target) == [Fg(c), Chars(val), Reset] + Attempt(RefusedOn(rf, target), Flush)) &&
      (isColor ==> On(t, other) == [Fg(c), Reset] + Attempt(RefusedOn(rf, other), Flush)) &&
      (!isColor ==> On(t, target) == [Chars(val)] + Attempt(RefusedOn(rf, target), Flush)) &&
      (!isColor ==> On(t, other) == Attempt(RefusedOn(rf, other), Flush))
  {
    var c := ColorOf(kind);
    var x := Action(TargetOf(kind), Chars(val));
    var t1, t2, t3, t4 := Run(ColorSteps(isColor, c), rf), Run([x], rf), Run(ResetSteps(isColor), rf), Run(FlushSteps(), rf);
    var t := WriteTrace(isColor, kind, val, rf);
    WriteStatus(isColor, kind, val, rf);
    ColorStepsStatus(isColor, c, rf);
    ResetStepsStatus(isColor, rf);
    RunOne(x, rf);
    assert t1.status == Running && t2.status == Running && t3.status == Running;
    ColorStepsRunning(isColor, c, rf);
    ResetStepsRunning(isColor, rf);
    FlushStepsRun(rf);
    WriteTraceParts(isColor, kind, val, rf);
    assert t == Join(Join(Join(t1, t2), t3), t4);
    var fo, fe := Attempt(rf.onStdout, Flush), Attempt(rf.onStderr, Flush);
    if kind == Error {
      assert t2 == Trace([], [Chars(val)], Running);
      if isColor {
        assert t.out == [Fg(c), Reset] + fo;
        assert t.err == [Fg(c), Chars(val), Reset] + fe;
      } else {
        assert t.out == fo;
        assert t.err == [Chars(val)] + fe;
      }
    } else {
      assert t2 == Trace([Chars(val)], [], Running);
      if isColor {
        assert t.out == [Fg(c), Chars(val), Reset] + fo;
        assert t.err == [Fg(c), Reset] + fe;
      } else {
        assert t.out == [Chars(val)] + fo;
        assert t.err == fe;
      }
    }
  }

  /** With colour off, a write sets no colour and resets nothing, whatever the streams refuse. */
  lemma WritePlainHasNoColor(kind: Kind, val: string, rf: Refusals)
    ensures var t := WriteTrace(false, kind, val, rf);
      forall e :: e in t.out + t.err ==> !e.Fg? && !e.Reset?
  {
    var p := WritePlan(false, kind, val);
    RunEventsIssued(p, rf);
    assert p == [Action(TargetOf(kind), Chars(val)), Action(Stdout, Flush), Action(Stderr, Flush)];
  }

  /**
   * Whatever the streams refuse, the only text a write puts anywhere is its
   * own, on the kind's stream; the other stream receives no text.
   */
  lemma WriteRouting(isColor: bool, kind: Kind, val: string, rf: Refusals)
    ensures var t := WriteTrace(isColor, kind, val, rf);
      (forall e :: e in On(t, OtherStream(TargetOf(kind))) ==> !e.Chars?) &&
      (forall e :: e in On(t, TargetOf(kind)) && e.Chars? ==> e == Chars(val))
  {
    var p := WritePlan(isColor, kind, val);
    var t := WriteTrace(isColor, kind, val, rf);
    RunEventsIssued(p, rf);
    forall e | e in On(t, OtherStream(TargetOf(kind)))
      ensures !e.Chars?
    {
      assert Action(OtherStream(TargetOf(kind)), e) in p;
    }
    forall e | e in On(t, TargetOf(kind)) && e.Chars?
      ensures e == Chars(val)
    {
      assert Action(TargetOf(kind), e) in p;
    }
  }

  /** A write that ends the process does so before either stream is flushed. */
  lemma WriteExitsBeforeFlush(isColor: bool, kind: Kind, val: string, rf: Refusals)
    requires WriteTrace(isColor, kind, val, rf).status != Running
    ensures var t := WriteTrace(isColor, kind, val, rf);
      t.status == Exited(1) && Flush !in t.out && Flush !in t.err
  {
    var q := ColorSteps(isColor, ColorOf(kind)) + [Action(TargetOf(kind), Chars(val))] + ResetSteps(isColor);
    RunAppend(q, FlushSteps(), rf);
    FlushStepsRun(rf);
    RunEventsIssued(q, rf);
    assert Action(Stdout, Flush) !in q && Action(Stderr, Flush) !in q;
  }
}
