// What Console::write_match_line writes once the line bounds are known
// (src/console.rs:93-100): up to three byte segments of the line and a
// newline, each through one call of Console::write.

module MatchLine {
  import opened Output
  import opened Write
  import opened LineScan

  /** One piece of the enclosing line, before decoding. */
  datatype Segment = Segment(kind: Kind, bytes: seq<bv8>)

  /** One call of Console::write. */
  datatype Call = Call(kind: Kind, text: string)

  function Min(a: nat, b: nat): nat
  {
    if a <= b then a else b
  }

  /**
   * The text before the match (when the line starts before it), the match
   * itself (always, possibly empty) and the text after it (when the line
   * ends after it).
   */
  function Segments(src: seq<bv8>, m: Match): seq<Segment>
    requires ValidSpan(src, m)
  {
    var lb, le := LineBegin(src, m.beg), LineEnd(src, m.end);
    (if lb < m.beg then [Segment(Text, src[lb..m.beg])] else [])
    + [Segment(MatchText, src[m.beg..m.end])]
    + (if m.end < le then [Segment(Text, src[m.end..le])] else [])
  }

  function Concat(ss: seq<Segment>): seq<bv8>
  {
    if ss == [] then [] else ss[0].bytes + Concat(ss[1..])
  }

  /**
   * The segments come in line order: an optional non-empty Text prefix that
   * is present exactly when the line starts before the match, the match
   * segment, and an optional non-empty Text suffix present exactly when the
   * line ends after the match.
   */
  lemma SegmentsShape(src: seq<bv8>, m: Match)
    requires ValidSpan(src, m)
    ensures var ss, lb, le := Segments(src, m), LineBegin(src, m.beg), LineEnd(src, m.end);
      var p := if lb < m.beg then 1 else 0;
      p < |ss| && ss[p] == Segment(MatchText, src[m.beg..m.end]) &&
      |ss| == p + 1 + (if m.end < le then 1 else 0) &&
      (forall i :: 0 <= i < |ss| && i != p ==> ss[i].kind == Text && ss[i].bytes != [])
  {
  }

  /**
   * Joined together, the segments are the line from the earlier of its
   * start and the match start up to its end.
   */
  lemma {:induction false} SegmentsCoverLine(src: seq<bv8>, m: Match)
    requires ValidSpan(src, m)
    ensures Concat(Segments(src, m)) == src[Min(LineBegin(src, m.beg), m.beg)..LineEnd(src, m.end)]
  {
    var lb, le := LineBegin(src, m.beg), LineEnd(src, m.end);
    var mid := Segment(MatchText, src[m.beg..m.end]);
    ConcatOne(mid);
    if lb < m.beg {
      var pre := Segment(Text, src[lb..m.beg]);
      ConcatOne(pre);
      ConcatAppend([pre], [mid]);
      assert [pre] + [mid] == [pre, mid];
      if m.end < le {
        var suf := Segment(Text, src[m.end..le]);
        ConcatOne(suf);
        ConcatAppend([pre, mid], [suf]);
        assert Segments(src, m) == [pre, mid] + [suf];
        SliceJoin(src, lb, m.beg, m.end);
        SliceJoin(src, lb, m.end, le);
      } else {
        assert Segments(src, m) == [pre, mid];
        SliceJoin(src, lb, m.beg, m.end);
      }
    } else {
      if m.end < le {
        var suf := Segment(Text, src[m.end..le]);
        ConcatOne(suf);
        ConcatAppend([mid], [suf]);
        assert Segments(src, m) == [mid] + [suf];
        SliceJoin(src, m.beg, m.end, le);
      } else {
        assert Segments(src, m) == [mid];
      }
    }
  }

  lemma SliceJoin(s: seq<bv8>, a: nat, b: nat, c: nat)
    requires a <= b <= c <= |s|
    ensures s[a..b] + s[b..c] == s[a..c]
  {
    assert forall i :: 0 <= i < c - a ==> (s[a..b] + s[b..c])[i] == s[a..c][i];
  }

  lemma ConcatOne(s: Segment)
    ensures Concat([s]) == s.bytes
  {
    assert [s][1..] == [];
  }

  lemma {:induction false} ConcatAppend(a: seq<Segment>, b: seq<Segment>)
    ensures Concat(a + b) == Concat(a) + Concat(b)
    decreases |a|
  {
    if a == [] {
      assert a + b == b;
    } else {
      assert (a + b)[1..] == a[1..] + b;
      ConcatAppend(a[1..], b);
    }
  }

  /**
   * The text around the match holds no CR or LF, except that a separator at
   * offset 0 can open the prefix: the backward scan never looks at offset 0.
   */
  lemma SegmentsHaveNoSeparator(src: seq<bv8>, m: Match)
    requires ValidSpan(src, m)
    ensures var lb, le := LineBegin(src, m.beg), LineEnd(src, m.end);
      NoSep(src[m.end..le]) &&
      (0 < lb < m.beg ==> NoSep(src[lb..m.beg])) &&
      (lb == 0 < m.beg ==> NoSep(src[1..m.beg]))
  {
    var lb, le := LineBegin(src, m.beg), LineEnd(src, m.end);
    LineBeginSpec(src, m.beg);
    LineEndSpec(src, m.end);
    assert forall j :: 0 <= j < le - m.end ==> src[m.end..le][j] == src[m.end + j];
    if 0 < lb < m.beg {
      assert forall j :: 0 <= j < m.beg - lb ==> src[lb..m.beg][j] == src[lb + j];
    }
    if lb == 0 < m.beg {
      assert forall j :: 0 <= j < m.beg - 1 ==> src[1..m.beg][j] == src[1 + j];
    }
  }

  /** "\nab" with the match "ab": the separator at offset 0 lands in the prefix. */
  lemma SeparatorAtOffsetZeroStaysInPrefix()
    ensures Segments([0x0A, 0x61, 0x62], Match(1, 3)) == [Segment(Text, [0x0A]), Segment(MatchText, [0x61, 0x62])]
  {
    var src: seq<bv8> := [0x0A, 0x61, 0x62];
    assert LastSep(src, 1) == None;
    assert LineBegin(src, 1) == 0;
    assert LineEnd(src, 3) == 3;
    assert src[0..1] == [0x0A];
    assert src[1..3] == [0x61, 0x62];
  }

  /**
   * "ab\ncd" with the empty match at offset 2, which holds the LF: the
   * backward scan stops at once, one past the match start, so the line
   * begins after the match and only the empty match is written.
   */
  lemma SeparatorAtMatchStart()
    ensures var src: seq<bv8> := [0x61, 0x62, 0x0A, 0x63, 0x64];
      LineBegin(src, 2) == 3 && LineEnd(src, 2) == 2 &&
      Segments(src, Match(2, 2)) == [Segment(MatchText, [])]
  {
    var src: seq<bv8> := [0x61, 0x62, 0x0A, 0x63, 0x64];
    assert LastSep(src, 2) == Some(2);
    assert FirstSep(src, 2) == Some(2);
    assert src[2..2] == [];
  }

  /** "abc\nXYZ\ndef" with the match "XYZ" at 4..7: the line is exactly the match. */
  lemma WholeLineMatch()
    ensures var src: seq<bv8> := [0x61, 0x62, 0x63, 0x0A, 0x58, 0x59, 0x5A, 0x0A, 0x64, 0x65, 0x66];
      LineBegin(src, 4) == 4 && LineEnd(src, 7) == 7 &&
      Segments(src, Match(4, 7)) == [Segment(MatchText, [0x58, 0x59, 0x5A])]
  {
    var src: seq<bv8> := [0x61, 0x62, 0x63, 0x0A, 0x58, 0x59, 0x5A, 0x0A, 0x64, 0x65, 0x66];
    assert LastSep(src, 4) == Some(3);
    assert FirstSep(src, 7) == Some(7);
    assert src[4..7] == [0x58, 0x59, 0x5A];
  }

  /** "hello world" with the match "world": no separator, so the line runs to the end of the buffer. */
  lemma LastLineMatch()
    ensures var src: seq<bv8> := [0x68, 0x65, 0x6C, 0x6C, 0x6F, 0x20, 0x77, 0x6F, 0x72, 0x6C, 0x64];
      LineBegin(src, 6) == 0 && LineEnd(src, 11) == 11
  {
    var src: seq<bv8> := [0x68, 0x65, 0x6C, 0x6C, 0x6F, 0x20, 0x77, 0x6F, 0x72, 0x6C, 0x64];
    assert LastSep(src, 6) == None;
    assert FirstSep(src, 11) == None;
  }

  /**
   * The writes of write_match_line: each segment decoded with decode (an
   * opaque stand-in for String::from_utf8_lossy), then the newline.
   */
  function MatchLineCalls(src: seq<bv8>, m: Match, decode: seq<bv8> -> string): seq<Call>
    requires ValidSpan(src, m)
  {
    var ss := Segments(src, m);
    seq(|ss|, i requires 0 <= i < |ss| => Call(ss[i].kind, decode(ss[i].bytes))) + [Call(Other, "\n")]
  }

  /** One write per segment, in segment order, then exactly one newline write of kind Other. */
  lemma MatchLineCallsFollowSegments(src: seq<bv8>, m: Match, decode: seq<bv8> -> string)
    requires ValidSpan(src, m)
    ensures var cs, ss := MatchLineCalls(src, m, decode), Segments(src, m);
      |cs| == |ss| + 1 && cs[|ss|] == Call(Other, "\n") &&
      (forall i :: 0 <= i < |ss| ==> cs[i] == Call(ss[i].kind, decode(ss[i].bytes))) &&
      (forall i :: 0 <= i < |ss| ==> cs[i].kind != Other)
  {
    SegmentsShape(src, m);
  }

  /** Unfolds MatchLineCalls into the branches of the source, for MatchLineSteps. */
  lemma MatchLineCallsShape(src: seq<bv8>, m: Match, decode: seq<bv8> -> string)
    requires ValidSpan(src, m)
    ensures var lb, le := LineBegin(src, m.beg), LineEnd(src, m.end);
      MatchLineCalls(src, m, decode) ==
        (if lb < m.beg then [Call(Text, decode(src[lb..m.beg]))] else [])
        + [Call(MatchText, decode(src[m.beg..m.end]))]
        + (if m.end < le then [Call(Text, decode(src[m.end..le]))] else [])
        + [Call(Other, "\n")]
  {
    var lb, le := LineBegin(src, m.beg), LineEnd(src, m.end);
    var cs := MatchLineCalls(src, m, decode);
    var want := (if lb < m.beg then [Call(Text, decode(src[lb..m.beg]))] else [])
        + [Call(MatchText, decode(src[m.beg..m.end]))]
        + (if m.end < le then [Call(Text, decode(src[m.end..le]))] else [])
        + [Call(Other, "\n")];
    MatchLineCallsFollowSegments(src, m, decode);
    assert |cs| == |want|;
    forall i | 0 <= i < |cs|
      ensures cs[i] == want[i]
    {
    }
  }

  /** The operations of a sequence of writes. */
  function Plans(isColor: bool, cs: seq<Call>): seq<Action>
  {
    if cs == [] then [] else WritePlan(isColor, cs[0].kind, cs[0].text) + Plans(isColor, cs[1..])
  }

  lemma {:induction false} PlansAppend(isColor: bool, a: seq<Call>, b: seq<Call>)
    ensures Plans(isColor, a + b) == Plans(isColor, a) + Plans(isColor, b)
    decreases |a|
  {
    if a == [] {
      assert a + b == b;
    } else {
      assert (a + b)[1..] == a[1..] + b;
      PlansAppend(isColor, a[1..], b);
    }
  }

  /** The run of a single write is that write's trace. */
  lemma RunPlansOne(isColor: bool, c: Call, rf: Refusals)
    ensures Run(Plans(isColor, [c]), rf) == WriteTrace(isColor, c.kind, c.text, rf)
  {
    assert [c][1..] == [];
    assert Plans(isColor, [c]) == WritePlan(isColor, c.kind, c.text) + [];
    assert WritePlan(isColor, c.kind, c.text) + [] == WritePlan(isColor, c.kind, c.text);
  }

  /** The run of writes done one after another, p then q, stopping when one ends the process. */
  lemma RunPlansAppend(isColor: bool, p: seq<Call>, q: seq<Call>, rf: Refusals)
    ensures Run(Plans(isColor, p + q), rf) == Then(Run(Plans(isColor, p), rf), Run(Plans(isColor, q), rf))
  {
    PlansAppend(isColor, p, q);
    RunAppend(Plans(isColor, p), Plans(isColor, q), rf);
  }

  /**
   * What write_match_line issues, one write after another: the prefix write
   * when there is one, the match write, the suffix write when there is one,
   * and the newline write; a write that ends the process ends the sequence.
   */
  lemma MatchLineSteps(src: seq<bv8>, m: Match, decode: seq<bv8> -> string, isColor: bool, rf: Refusals)
    requires ValidSpan(src, m)
    ensures var lb, le := LineBegin(src, m.beg), LineEnd(src, m.end);
      var pre := if lb < m.beg then WriteTrace(isColor, Text, decode(src[lb..m.beg]), rf) else Idle();
      var mid := WriteTrace(isColor, MatchText, decode(src[m.beg..m.end]), rf);
      var suf := if m.end < le then WriteTrace(isColor, Text, decode(src[m.end..le]), rf) else Idle();
      var nl := WriteTrace(isColor, Other, "\n", rf);
      Run(Plans(isColor, MatchLineCalls(src, m, decode)), rf) == Then(Then(Then(Then(Idle(), pre), mid), suf), nl)
  {
    var lb, le := LineBegin(src, m.beg), LineEnd(src, m.end);
    var p: seq<Call> := if lb < m.beg then [Call(Text, decode(src[lb..m.beg]))] else [];
    var q: seq<Call> := [Call(MatchText, decode(src[m.beg..m.end]))];
    var r: seq<Call> := if m.end < le then [Call(Text, decode(src[m.end..le]))] else [];
    var n: seq<Call> := [Call(Other, "\n")];
    MatchLineCallsShape(src, m, decode);
    assert MatchLineCalls(src, m, decode) == p + q + r + n;
    RunPlansAppend(isColor, p + q + r, n, rf);
    RunPlansAppend(isColor, p + q, r, rf);
    RunPlansAppend(isColor, p, q, rf);
    RunPlansOne(isColor, q[0], rf);
    RunPlansOne(isColor, n[0], rf);
    if p != [] {
      RunPlansOne(isColor, p[0], rf);
    }
    if r != [] {
      RunPlansOne(isColor, r[0], rf);
    }
    ThenIdle(Run(Plans(isColor, p), rf));
  }

  /** A sequence of writes lets the process go on exactly when each of its writes does. */
  lemma {:induction false} PlansStatus(isColor: bool, cs: seq<Call>, rf: Refusals)
    ensures Run(Plans(isColor, cs), rf).status == Running <==>
      forall i :: 0 <= i < |cs| ==> WriteTrace(isColor, cs[i].kind, cs[i].text, rf).status == Running
    decreases |cs|
  {
    if cs != [] {
      PlansStatus(isColor, cs[1..], rf);
      RunAppend(WritePlan(isColor, cs[0].kind, cs[0].text), Plans(isColor, cs[1..]), rf);
      assert forall i :: 1 <= i < |cs| ==> cs[1..][i - 1] == cs[i];
    }
  }

  /** The texts of the calls whose kind routes them to stream s. */
  function RoutedTexts(cs: seq<Call>, s: Stream): seq<string>
  {
    if cs == [] then []
    else (if TargetOf(cs[0].kind) == s then [cs[0].text] else []) + RoutedTexts(cs[1..], s)
  }

  /** Actions that write no text give no text, on any stream. */
  lemma {:induction false} TextsWithoutChars(p: seq<Action>, s: Stream)
    requires forall i :: 0 <= i < |p| ==> !p[i].event.Chars?
    ensures Texts(Project(p, s)) == []
    decreases |p|
  {
    if p != [] {
      TextsWithoutChars(p[1..], s);
      var e := if p[0].stream == s then [p[0].event] else [];
      assert Texts(e) == [] by {
        if e != [] { assert e[1..] == []; }
      }
      TextsAppend(e, Project(p[1..], s));
    }
  }

  lemma TextsOfOneWrite(s: Stream, t: Stream, val: string)
    ensures Texts(Project([Action(t, Chars(val))], s)) == if t == s then [val] else []
  {
    var x := [Action(t, Chars(val))];
    assert x[1..] == [];
    assert Project(x, s) == (if t == s then [Chars(val)] else []) + Project(x[1..], s);
    if t == s {
      var e := Project(x, s);
      assert e == [Chars(val)];
      assert e[1..] == [];
    }
  }

  /** Actions around a single write that themselves write no text add no text. */
  lemma TextsAroundOneWrite(c: seq<Action>, x: seq<Action>, r: seq<Action>, f: seq<Action>, s: Stream)
    requires forall i :: 0 <= i < |c| ==> !c[i].event.Chars?
    requires forall i :: 0 <= i < |r| ==> !r[i].event.Chars?
    requires forall i :: 0 <= i < |f| ==> !f[i].event.Chars?
    ensures Texts(Project(c + x + r + f, s)) == Texts(Project(x, s))
  {
    TextsProjectAppend(c + x + r, f, s);
    TextsProjectAppend(c + x, r, s);
    TextsProjectAppend(c, x, s);
    TextsWithoutChars(c, s);
    TextsWithoutChars(r, s);
    TextsWithoutChars(f, s);
  }

  /** A write gives its text to the stream of its kind and no text to the other. */
  lemma WritePlanTexts(isColor: bool, kind: Kind, val: string, s: Stream)
    ensures Texts(Project(WritePlan(isColor, kind, val), s)) == if TargetOf(kind) == s then [val] else []
  {
    var c, x, r, f := ColorSteps(isColor, ColorOf(kind)), [Action(TargetOf(kind), Chars(val))], ResetSteps(isColor), FlushSteps();
    assert forall i :: 0 <= i < |c| ==> !c[i].event.Chars?;
    assert forall i :: 0 <= i < |r| ==> !r[i].event.Chars?;
    assert forall i :: 0 <= i < |f| ==> !f[i].event.Chars?;
    TextsAroundOneWrite(c, x, r, f, s);
    TextsOfOneWrite(s, TargetOf(kind), val);
  }

  /** The texts each stream is given by a sequence of writes follow the routing of their kinds. */
  lemma {:induction false} PlansTexts(isColor: bool, cs: seq<Call>, s: Stream)
    ensures Texts(Project(Plans(isColor, cs), s)) == RoutedTexts(cs, s)
    decreases |cs|
  {
    if cs != [] {
      PlansTexts(isColor, cs[1..], s);
      WritePlanTexts(isColor, cs[0].kind, cs[0].text, s);
      TextsProjectAppend(WritePlan(isColor, cs[0].kind, cs[0].text), Plans(isColor, cs[1..]), s);
    }
  }

  /** Calls of no kind Error route every text to stdout, in order, and none to stderr. */
  lemma {:induction false} RoutedWithoutErrors(cs: seq<Call>)
    requires forall i :: 0 <= i < |cs| ==> cs[i].kind != Error
    ensures var r := RoutedTexts(cs, Stdout);
      |r| == |cs| && forall i :: 0 <= i < |cs| ==> r[i] == cs[i].text
    ensures RoutedTexts(cs, Stderr) == []
    decreases |cs|
  {
    if cs != [] {
      RoutedWithoutErrors(cs[1..]);
      var r := RoutedTexts(cs, Stdout);
      assert r == [cs[0].text] + RoutedTexts(cs[1..], Stdout);
      forall i | 0 <= i < |cs|
        ensures r[i] == cs[i].text
      {
        if i > 0 {
          assert cs[1..][i - 1] == cs[i];
        }
      }
    }
  }

  /** Writes of no kind Error that all complete leave their texts, in order, on stdout and none on stderr. */
  lemma CallsTexts(isColor: bool, cs: seq<Call>, rf: Refusals)
    requires forall i :: 0 <= i < |cs| ==> cs[i].kind != Error
    requires Run(Plans(isColor, cs), rf).status == Running
    ensures var t := Run(Plans(isColor, cs), rf);
      |Texts(t.out)| == |cs| && (forall i :: 0 <= i < |cs| ==> Texts(t.out)[i] == cs[i].text) &&
      Texts(t.err) == []
  {
    RunTexts(Plans(isColor, cs), rf);
    PlansTexts(isColor, cs, Stdout);
    PlansTexts(isColor, cs, Stderr);
    RoutedWithoutErrors(cs);
  }

  lemma MatchLineCallsRouteToStdout(src: seq<bv8>, m: Match, decode: seq<bv8> -> string)
    requires ValidSpan(src, m)
    ensures var cs := MatchLineCalls(src, m, decode);
      forall i :: 0 <= i < |cs| ==> cs[i].kind != Error
  {
    var cs, ss := MatchLineCalls(src, m, decode), Segments(src, m);
    SegmentsShape(src, m);
    MatchLineCallsFollowSegments(src, m, decode);
    forall i | 0 <= i < |cs|
      ensures cs[i].kind != Error
    {
      if i < |ss| {
        assert cs[i].kind == ss[i].kind;
      }
    }
  }

  /**
   * When write_match_line completes, stdout has received, in order, the
   * decoded segments and then the newline, and stderr no text at all,
   * whatever cursor or flush operations the streams refused.
   */
  lemma MatchLineTexts(src: seq<bv8>, m: Match, decode: seq<bv8> -> string, isColor: bool, rf: Refusals)
    requires ValidSpan(src, m)
    requires Run(Plans(isColor, MatchLineCalls(src, m, decode)), rf).status == Running
    ensures var t, ss := Run(Plans(isColor, MatchLineCalls(src, m, decode)), rf), Segments(src, m);
      |Texts(t.out)| == |ss| + 1 &&
      (forall i :: 0 <= i < |ss| ==> Texts(t.out)[i] == decode(ss[i].bytes)) &&
      Texts(t.out)[|ss|] == "\n" &&
      Texts(t.err) == []
  {
    var cs := MatchLineCalls(src, m, decode);
    MatchLineCallsFollowSegments(src, m, decode);
    MatchLineCallsRouteToStdout(src, m, decode);
    CallsTexts(isColor, cs, rf);
  }

  /**
   * write_match_line ends the process, with status 1, exactly when stdout
   * refuses text, or colour is on and either stream refuses a colour or a
   * reset; refused cursor moves and flushes never end it. (Empty segments
   * cannot fail, but the final "\n" write is never empty.)
   */
  lemma MatchLineStatus(src: seq<bv8>, m: Match, decode: seq<bv8> -> string, isColor: bool, rf: Refusals)
    requires ValidSpan(src, m)
    ensures var t := Run(Plans(isColor, MatchLineCalls(src, m, decode)), rf);
      (t.status == Running <==>
        (isColor ==> FgOp !in rf.onStdout && FgOp !in rf.onStderr && ResetOp !in rf.onStdout && ResetOp !in rf.onStderr) &&
        WriteOp !in rf.onStdout) &&
      (t.status != Running ==> t.status == Exited(1))
  {
    var cs := MatchLineCalls(src, m, decode);
    PlansStatus(isColor, cs, rf);
    MatchLineCallsRouteToStdout(src, m, decode);
    MatchLineCallsFollowSegments(src, m, decode);
    forall i | 0 <= i < |cs|
      ensures var w := WriteTrace(isColor, cs[i].kind, cs[i].text, rf);
        w.status == Running <==>
          (isColor ==> FgOp !in rf.onStdout && FgOp !in rf.onStderr && ResetOp !in rf.onStdout && ResetOp !in rf.onStderr) &&
          (cs[i].text == "" || WriteOp !in rf.onStdout)
    {
      WriteStatus(isColor, cs[i].kind, cs[i].text, rf);
    }
    assert cs[|cs| - 1].text == "\n" != "";
  }

  /** With colour off, no write of a sequence issues a colour or a reset. */
  lemma {:induction false} PlansPlain(cs: seq<Call>)
    ensures forall a :: a in Plans(false, cs) ==> !a.event.Fg? && !a.event.Reset?
    decreases |cs|
  {
    if cs != [] {
      PlansPlain(cs[1..]);
      var w := WritePlan(false, cs[0].kind, cs[0].text);
      assert w == [Action(TargetOf(cs[0].kind), Chars(cs[0].text)), Action(Stdout, Flush), Action(Stderr, Flush)];
      assert Plans(false, cs) == w + Plans(false, cs[1..]);
    }
  }

  /**
   * With colour off, write_match_line puts no colour and no reset on either
   * stream, whatever the streams refuse.
   */
  lemma MatchLinePlainHasNoColor(src: seq<bv8>, m: Match, decode: seq<bv8> -> string, rf: Refusals)
    requires ValidSpan(src, m)
    ensures var t := Run(Plans(false, MatchLineCalls(src, m, decode)), rf);
      forall e :: e in t.out + t.err ==> !e.Fg? && !e.Reset?
  {
    var p := Plans(false, MatchLineCalls(src, m, decode));
    RunEventsIssued(p, rf);
    PlansPlain(MatchLineCalls(src, m, decode));
    var t := Run(p, rf);
    forall e | e in t.out + t.err
      ensures !e.Fg? && !e.Reset?
    {
      assert Action(Stdout, e) in p || Action(Stderr, e) in p;
    }
  }

  /**
   * An empty match at the start of an empty buffer, colour off, and a stdout
   * that refuses text: the empty match write still succeeds and is flushed,
   * and the process ends at the newline write.
   */
  lemma EmptyMatchOnRefusingStdout(decode: seq<bv8> -> string)
    requires decode([]) == ""
    ensures Run(Plans(false, MatchLineCalls([], Match(0, 0), decode)), Refusals({WriteOp}, {})) ==
      Trace([Chars(""), Flush], [Flush], Exited(1))
  {
    var src: seq<bv8> := [];
    var rf := Refusals({WriteOp}, {});
    assert LastSep(src, 0) == None;
    assert FirstSep(src, 0) == None;
    MatchLineSteps(src, Match(0, 0), decode, false, rf);
    WriteSteps(false, MatchText, "", rf);
    WriteSteps(false, Other, "\n", rf);
    RunOne(Action(Stdout, Chars("")), rf);
    RunOne(Action(Stdout, Chars("\n")), rf);
    RunOne(Action(Stdout, Flush), rf);
    RunOne(Action(Stderr, Flush), rf);
    ThenIdle(WriteTrace(false, MatchText, "", rf));
  }
}
