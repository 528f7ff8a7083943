/** The streaming publisher: agent events become log text. */
module Publisher {
  import opened Seqs
  import opened Text
  import opened SessionLog
  import opened Sessions

  datatype Event = Event(role: string, name: string, content: string)

  /** strings.TrimRight(s, "\n"). */
  function TrimNewlines(s: string): string {
    if s != "" && s[|s| - 1] == '\n' then TrimNewlines(s[..|s| - 1]) else s
  }

  function SquashWhitespace(s: string): string {
    Join(Fields(s), ' ')
  }

  function FormatEvent(ev: Event): string {
    match ev.role
    case "user" => "user: " + ev.content + "\n"
    case "assistant" => ev.content
    case "call" => "-> " + ev.name + "(" + SquashWhitespace(ev.content) + ")\n"
    case "tool" => TrimNewlines(ev.content) + "\n"
    case "retry" => "retrying in " + ev.content + "s...\n"
    case "error" => "error: " + ev.content + "\n"
    case "stalled" => "agent stalled\n"
    case "reasoning" => ev.content
    case "info" => ":: " + ev.content
    case _ => ""
  }

  predicate Reply(ev: Event) {
    ev.role == "assistant"
  }

  /** The log operations of one event, in order, and the flag afterwards. */
  function Ops(started: bool, ev: Event): (seq<Op>, bool) {
    if Reply(ev) then
      ((if started then [] else [Append(MARKER), MarkReply]) + [Append(ev.content)], true)
    else
      ((if started then [Append("\n")] else []) + [Append(FormatEvent(ev))], false)
  }

  /** makePublish: the closure with its captured flag. */
  class Publish {
    const sess: Session
    var assistantStarted: bool

    constructor (sess: Session)
      ensures this.sess == sess && !assistantStarted
    {
      this.sess, assistantStarted := sess, false;
    }

    method Handle(ev: Event)
      modifies this`assistantStarted, sess`log, sess`logVers, sess`chatOffset
      ensures assistantStarted == Ops(old(assistantStarted), ev).1
      ensures sess.LogState() == ApplyAll(old(sess.LogState()), Ops(old(assistantStarted), ev).0)
    {
      ghost var l, text := sess.LogState(), Append(FormatEvent(ev));
      ApplyFew(l, Append("\n"), text, text);
      ApplyFew(l, Append(MARKER), MarkReply, text);
      ApplyFew(l, text, text, text);
      if ev.role == "user" {
        if assistantStarted {
          sess.AppendLog("\n");
          assistantStarted := false;
        }
        sess.AppendLog(FormatEvent(ev));
        return;
      } else {
        match ev.role {
          case "assistant" =>
            if !assistantStarted {
              sess.AppendLog(MARKER);
              sess.chatOffset := |sess.log|;
              assistantStarted := true;
            }
          case _ =>
            if assistantStarted {
              sess.AppendLog("\n");
              assistantStarted := false;
            }
        }
      }
      sess.AppendLog(FormatEvent(ev));
    }
  }

  /** All operations of one publisher over a list of events. */
  function OpsAll(started: bool, evs: seq<Event>): seq<Op>
    decreases evs
  {
    if evs == [] then [] else Ops(started, evs[0]).0 + OpsAll(Ops(started, evs[0]).1, evs[1..])
  }

  function After(l: Log, started: bool, evs: seq<Event>): Log {
    ApplyAll(l, OpsAll(started, evs))
  }

  lemma AfterCons(l: Log, started: bool, evs: seq<Event>)
    requires evs != []
    ensures After(l, started, evs) ==
            After(ApplyAll(l, Ops(started, evs[0]).0), Ops(started, evs[0]).1, evs[1..])
  {
    ApplyAllSplit(l, Ops(started, evs[0]).0, OpsAll(Ops(started, evs[0]).1, evs[1..]));
  }

  // ---- what the log says: a rendering by maximal reply runs ---------------

  function RunLength(evs: seq<Event>): (n: nat)
    ensures n <= |evs|
    ensures forall i :: 0 <= i < n ==> Reply(evs[i])
    ensures n < |evs| ==> !Reply(evs[n])
  {
    if evs == [] || !Reply(evs[0]) then 0 else 1 + RunLength(evs[1..])
  }

  function RunText(evs: seq<Event>): string {
    if evs == [] then "" else evs[0].content + RunText(evs[1..])
  }

  function Rendering(evs: seq<Event>): string
    decreases |evs|
  {
    if evs == [] then ""
    else if Reply(evs[0]) then
      var n := RunLength(evs);
      MARKER + RunText(evs[..n]) + (if n == |evs| then "" else "\n" + Rendering(evs[n..]))
    else FormatEvent(evs[0]) + Rendering(evs[1..])
  }

  /** Where the text of the last reply run begins in the rendering; -1 without one. */
  function ReplyAt(evs: seq<Event>): (at: int)
    ensures at >= -1
    decreases |evs|
  {
    if evs == [] then -1
    else if Reply(evs[0]) then
      var n := RunLength(evs);
      var rest := if n == |evs| then -1 else ReplyAt(evs[n..]);
      if rest < 0 then |MARKER| else |MARKER| + |RunText(evs[..n])| + 1 + rest
    else
      var rest := ReplyAt(evs[1..]);
      if rest < 0 then -1 else |FormatEvent(evs[0])| + rest
  }

  /** The contents of a run appended one by one. */
  function AppendRun(l: Log, run: seq<Event>): (l2: Log)
    ensures l2.text == l.text + RunText(run) && l2.chatOffset == l.chatOffset
    decreases run
  {
    if run == [] then l else AppendRun(Apply(l, Append(run[0].content)), run[1..])
  }

  /** Inside a run the publisher appends the contents and nothing else. */
  lemma {:induction false} RunAppends(l: Log, run: seq<Event>, rest: seq<Event>)
    requires forall i :: 0 <= i < |run| ==> Reply(run[i])
    ensures After(l, true, run + rest) == After(AppendRun(l, run), true, rest)
    decreases run
  {
    if run == [] {
      assert run + rest == rest;
    } else {
      var evs := run + rest;
      assert evs[0] == run[0] && evs[1..] == run[1..] + rest;
      AfterCons(l, true, evs);
      ApplyFew(l, Append(run[0].content), MarkReply, MarkReply);
      RunAppends(Apply(l, Append(run[0].content)), run[1..], rest);
    }
  }

  /** One publisher writes exactly the rendering of its events, and the reply offset
      is where the last run of the rendering begins. */
  lemma {:induction false} PublishRenders(l: Log, evs: seq<Event>)
    ensures After(l, false, evs).text == l.text + Rendering(evs)
    ensures After(l, false, evs).chatOffset ==
            if ReplyAt(evs) < 0 then l.chatOffset else |l.text| + ReplyAt(evs)
    decreases |evs|
  {
    hide FormatEvent, RunText, Ops, OpsAll, ApplyAll, After, Rendering, ReplyAt;
    RenderingIs(evs);
    if evs == [] {
      AfterNothing(l, false);
    } else if Reply(evs[0]) {
      var n := RunLength(evs);
      var l2 := ReplyRun(l, evs);
      if n < |evs| {
        ReplyCloses(l2, evs[n..]);
        PublishRenders(Apply(l2, Append("\n")), evs[n..]);
        AssocRun(l.text, MARKER, RunText(evs[..n]), "\n", Rendering(evs[n..]));
      } else {
        assert evs[n..] == [];
        AfterNothing(l2, true);
        Assoc(l.text, MARKER, RunText(evs[..n]));
      }
    } else {
      QuietAppends(l, evs);
      Assoc(l.text, FormatEvent(evs[0]), Rendering(evs[1..]));
      PublishRenders(Apply(l, Append(FormatEvent(evs[0]))), evs[1..]);
    }
  }

  lemma RenderingIs(evs: seq<Event>)
    ensures evs == [] ==> Rendering(evs) == "" && ReplyAt(evs) == -1
    ensures evs != [] && !Reply(evs[0]) ==>
              && Rendering(evs) == FormatEvent(evs[0]) + Rendering(evs[1..])
              && ReplyAt(evs) == if ReplyAt(evs[1..]) < 0 then -1 else |FormatEvent(evs[0])| + ReplyAt(evs[1..])
    ensures evs != [] && Reply(evs[0]) ==>
              var n := RunLength(evs);
              if n == |evs| then Rendering(evs) == MARKER + RunText(evs[..n]) && ReplyAt(evs) == |MARKER|
              else
                && Rendering(evs) == MARKER + RunText(evs[..n]) + ("\n" + Rendering(evs[n..]))
                && ReplyAt(evs) == if ReplyAt(evs[n..]) < 0 then |MARKER|
                                   else |MARKER| + |RunText(evs[..n])| + 1 + ReplyAt(evs[n..])
  {
    hide FormatEvent, RunText, RunLength;
  }

  lemma AfterNothing(l: Log, started: bool)
    ensures After(l, started, []) == l
  {
  }

  lemma QuietAppends(l: Log, evs: seq<Event>)
    requires evs != [] && !Reply(evs[0])
    ensures After(l, false, evs) == After(Apply(l, Append(FormatEvent(evs[0]))), false, evs[1..])
  {
    hide FormatEvent;
    AfterCons(l, false, evs);
    var x := Append(FormatEvent(evs[0]));
    ApplyFew(l, x, x, x);
  }

  lemma AssocRun(a: string, b: string, c: string, d: string, e: string)
    ensures a + b + c + d + e == a + (b + c + (d + e))
  {
  }

  lemma ReplyRun(l: Log, evs: seq<Event>) returns (l2: Log)
    requires evs != [] && Reply(evs[0])
    ensures var n := RunLength(evs);
            && After(l, false, evs) == After(l2, true, evs[n..])
            && l2.text == l.text + MARKER + RunText(evs[..n])
            && l2.chatOffset == |l.text| + |MARKER|
  {
    var n := RunLength(evs);
    var l1 := Apply(Apply(l, Append(MARKER)), MarkReply);
    ReplyOpens(l, evs);
    assert evs == evs[..n] + evs[n..];
    RunAppends(l1, evs[..n], evs[n..]);
    l2 := AppendRun(l1, evs[..n]);
  }

  lemma {:induction false} ReplyOpens(l: Log, evs: seq<Event>)
    requires evs != [] && Reply(evs[0])
    ensures After(l, false, evs) == After(Apply(Apply(l, Append(MARKER)), MarkReply), true, evs)
  {
    var l1 := Apply(Apply(l, Append(MARKER)), MarkReply);
    AfterCons(l, false, evs);
    AfterCons(l1, true, evs);
    ApplyAllSplit(l, [Append(MARKER), MarkReply], [Append(evs[0].content)]);
    ApplyFew(l, Append(MARKER), MarkReply, MarkReply);
  }

  lemma {:induction false} ReplyCloses(l: Log, evs: seq<Event>)
    requires evs != [] && !Reply(evs[0])
    ensures After(l, true, evs) == After(Apply(l, Append("\n")), false, evs)
  {
    AfterCons(l, true, evs);
    AfterCons(Apply(l, Append("\n")), false, evs);
    ApplyAllSplit(l, [Append("\n")], [Append(FormatEvent(evs[0]))]);
  }

  // ---- streaming does not matter ----------------------------------------

  /** Logs that differ at most in the version counter. */
  predicate SameText(a: Log, b: Log) {
    a.text == b.text && a.chatOffset == b.chatOffset
  }

  lemma {:induction false} SameTextKept(a: Log, b: Log, ops: seq<Op>)
    requires SameText(a, b)
    ensures SameText(ApplyAll(a, ops), ApplyAll(b, ops))
    decreases ops
  {
    if ops == [] {
    } else {
      SameTextKept(Apply(a, ops[0]), Apply(b, ops[0]), ops[1..]);
    }
  }

  /** Splitting the first reply event in two changes neither text nor offset. */
  lemma {:induction false} SplitReply(l: Log, started: bool, a: Event, b: Event, rest: seq<Event>)
    requires Reply(a) && Reply(b)
    ensures SameText(After(l, started, [a, b] + rest),
                     After(l, started, [Event("assistant", "", a.content + b.content)] + rest))
  {
    var ab := Event("assistant", "", a.content + b.content);
    var l0 := if started then l else Apply(Apply(l, Append(MARKER)), MarkReply);
    if !started {
      ReplyOpens(l, [a, b] + rest);
      ReplyOpens(l, [ab] + rest);
    }
    AfterCons(l0, true, [a, b] + rest);
    assert ([a, b] + rest)[1..] == [b] + rest;
    var l1 := Apply(l0, Append(a.content));
    AfterCons(l1, true, [b] + rest);
    AfterCons(l0, true, [ab] + rest);
    assert ([b] + rest)[1..] == rest && ([ab] + rest)[1..] == rest;
    var x, y := Apply(l1, Append(b.content)), Apply(l0, Append(ab.content));
    assert x.text == y.text;
    SameTextKept(x, y, OpsAll(true, rest));
  }

  /** Each maximal run of reply events merged into one. */
  function Merge(evs: seq<Event>): seq<Event>
    decreases |evs|
  {
    if evs == [] then []
    else if |evs| >= 2 && Reply(evs[0]) && Reply(evs[1]) then
      Merge([Event("assistant", "", evs[0].content + evs[1].content)] + evs[2..])
    else
      [if Reply(evs[0]) then Event("assistant", "", evs[0].content) else evs[0]] + Merge(evs[1..])
  }

  lemma {:induction false} MergeKeepsLog(l: Log, started: bool, evs: seq<Event>)
    ensures SameText(After(l, started, evs), After(l, started, Merge(evs)))
    decreases |evs|
  {
    if evs == [] {
    } else {
      if |evs| >= 2 && Reply(evs[0]) && Reply(evs[1]) {
        assert [evs[0], evs[1]] + evs[2..] == evs;
        SplitReply(l, started, evs[0], evs[1], evs[2..]);
        MergeKeepsLog(l, started, [Event("assistant", "", evs[0].content + evs[1].content)] + evs[2..]);
      } else {
        var m := Merge(evs);
        assert m[1..] == Merge(evs[1..]);
        assert Ops(started, m[0]) == Ops(started, evs[0]);
        AfterCons(l, started, evs);
        AfterCons(l, started, m);
        MergeKeepsLog(ApplyAll(l, Ops(started, evs[0]).0), Ops(started, evs[0]).1, evs[1..]);
      }
    }
  }

  /** Two event streams that agree once adjacent reply events are joined leave the
      same log and the same reply offset, however the model streamed them. */
  lemma StreamingInsensitive(l: Log, started: bool, a: seq<Event>, b: seq<Event>)
    requires Merge(a) == Merge(b)
    ensures SameText(After(l, started, a), After(l, started, b))
  {
    MergeKeepsLog(l, started, a);
    MergeKeepsLog(l, started, b);
  }

  /** A logged call keeps the field sequence of its arguments. */
  lemma CallKeepsFields(ev: Event)
    requires ev.role == "call"
    ensures exists args :: FormatEvent(ev) == "-> " + ev.name + "(" + args + ")\n"
                           && Fields(args) == Fields(ev.content)
  {
    SquashKeepsFields(ev.content);
    assert FormatEvent(ev) == "-> " + ev.name + "(" + SquashWhitespace(ev.content) + ")\n";
  }

  // ---- the lines of the other events -------------------------------------

  /** TrimNewlines cuts newlines off the end, all of them and nothing else. */
  lemma {:induction false} TrimNewlinesIs(s: string)
    ensures TrimNewlines(s) <= s && (TrimNewlines(s) != "" ==> TrimNewlines(s)[|TrimNewlines(s)| - 1] != '\n')
    ensures forall i :: |TrimNewlines(s)| <= i < |s| ==> s[i] == '\n'
  {
    if s == "" {
    } else if s[|s| - 1] == '\n' {
      TrimNewlinesIs(s[..|s| - 1]);
    }
  }

  /** What each event but a reply leaves in the log of an idle publisher. */
  lemma {:induction false} EventLines(l: Log, name: string, content: string)
    ensures After(l, false, [Event("user", name, content)]).text == l.text + "user: " + content + "\n"
    ensures After(l, false, [Event("tool", name, content)]).text == l.text + TrimNewlines(content) + "\n"
    ensures After(l, false, [Event("retry", name, content)]).text == l.text + "retrying in " + content + "s...\n"
    ensures After(l, false, [Event("error", name, content)]).text == l.text + "error: " + content + "\n"
    ensures After(l, false, [Event("stalled", name, content)]).text == l.text + "agent stalled\n"
    ensures After(l, false, [Event("reasoning", name, content)]).text == l.text + content
    ensures After(l, false, [Event("info", name, content)]).text == l.text + ":: " + content
    ensures After(l, false, [Event("idle", name, content)]).text == l.text
  {
    hide FormatEvent, After;
    Formats(name, content);
    OneQuiet(l, Event("user", name, content));
    OneQuiet(l, Event("tool", name, content));
    OneQuiet(l, Event("retry", name, content));
    OneQuiet(l, Event("error", name, content));
    OneQuiet(l, Event("stalled", name, content));
    OneQuiet(l, Event("reasoning", name, content));
    OneQuiet(l, Event("info", name, content));
    OneQuiet(l, Event("idle", name, content));
    assert l.text + ("user: " + content + "\n") == l.text + "user: " + content + "\n";
    assert l.text + (TrimNewlines(content) + "\n") == l.text + TrimNewlines(content) + "\n";
    assert l.text + ("retrying in " + content + "s...\n") == l.text + "retrying in " + content + "s...\n";
    assert l.text + ("error: " + content + "\n") == l.text + "error: " + content + "\n";
    assert l.text + (":: " + content) == l.text + ":: " + content;
    assert l.text + "" == l.text;
  }

  lemma Formats(name: string, content: string)
    ensures FormatEvent(Event("user", name, content)) == "user: " + content + "\n"
    ensures FormatEvent(Event("tool", name, content)) == TrimNewlines(content) + "\n"
    ensures FormatEvent(Event("retry", name, content)) == "retrying in " + content + "s...\n"
    ensures FormatEvent(Event("error", name, content)) == "error: " + content + "\n"
    ensures FormatEvent(Event("stalled", name, content)) == "agent stalled\n"
    ensures FormatEvent(Event("reasoning", name, content)) == content
    ensures FormatEvent(Event("info", name, content)) == ":: " + content
    ensures FormatEvent(Event("idle", name, content)) == ""
  {
    hide TrimNewlines;
  }

  lemma OneQuiet(l: Log, ev: Event)
    requires !Reply(ev)
    ensures After(l, false, [ev]).text == l.text + FormatEvent(ev)
  {
    hide FormatEvent;
    QuietAppends(l, [ev]);
    assert [ev][1..] == [];
    AfterNothing(Apply(l, Append(FormatEvent(ev))), false);
  }

  // ---- the reply offset under interleaving -------------------------------

  /** The reply offset is 0 or directly follows a marker. */
  predicate OffsetAtMarker(l: Log) {
    l.chatOffset <= |l.text| && (l.chatOffset == 0 || HasSuffix(l.text[..l.chatOffset], MARKER))
  }

  predicate NoMark(ops: seq<Op>) {
    forall i :: 0 <= i < |ops| ==> !ops[i].MarkReply?
  }

  /** The text that the operations append to a non-empty log ending in `last`. */
  function Added(last: char, ops: seq<Op>): string
    decreases ops
  {
    if ops == [] then ""
    else match ops[0]
      case Append(d) => d + Added(if d == "" then last else d[|d| - 1], ops[1..])
      case EnsureNewline => (if last != '\n' then "\n" else "") + Added('\n', ops[1..])
      case MarkReply => Added(last, ops[1..])
  }

  lemma {:induction false} AddedIs(l: Log, ops: seq<Op>)
    requires l.text != ""
    ensures ApplyAll(l, ops).text == l.text + Added(l.text[|l.text| - 1], ops)
    decreases ops
  {
    if ops == [] {
    } else {
      var m := Apply(l, ops[0]);
      AddedIs(m, ops[1..]);
      var step := m.text[|l.text|..];
      assert m.text == l.text + step;
      Assoc(l.text, step, Added(m.text[|m.text| - 1], ops[1..]));
    }
  }

  /** Without an update the offset and what stands before it stay. */
  lemma {:induction false} NoMarkKeeps(l: Log, ops: seq<Op>)
    requires l.chatOffset <= |l.text| && NoMark(ops)
    ensures OffsetAtMarker(ApplyAll(l, ops)) <==> OffsetAtMarker(l)
    decreases ops
  {
    if ops == [] {
    } else {
      var m := Apply(l, ops[0]);
      assert m.text[..m.chatOffset] == l.text[..l.chatOffset];
      NoMarkKeeps(m, ops[1..]);
    }
  }

  lemma LongSuffix(a: string, b: string)
    requires |b| >= |MARKER|
    ensures HasSuffix(a + b, MARKER) <==> HasSuffix(b, MARKER)
  {
    assert (a + b)[|a + b| - |MARKER|..] == b[|b| - |MARKER|..];
  }

  /** The offset after any interleaving whose last update belongs to a marker appended
      earlier: it follows a marker exactly when the marker and what other goroutines
      added between the two lock acquisitions end in one. */
  lemma {:induction false} OffsetIff(l: Log, before: seq<Op>, between: seq<Op>, after: seq<Op>)
    requires NoMark(after)
    ensures OffsetAtMarker(ApplyAll(l, before + [Append(MARKER)] + between + [MarkReply] + after)) <==>
            HasSuffix(MARKER + Added(' ', between), MARKER)
  {
    var m := ApplyAll(l, before);
    var m1 := Apply(m, Append(MARKER));
    var m2 := ApplyAll(m1, between);
    var m3 := Apply(m2, MarkReply);
    ApplyAllSplit(l, before, [Append(MARKER)]);
    ApplyFew(m, Append(MARKER), MarkReply, MarkReply);
    ApplyAllSplit(l, before + [Append(MARKER)], between);
    ApplyAllSplit(l, before + [Append(MARKER)] + between, [MarkReply]);
    ApplyFew(m2, MarkReply, MarkReply, MarkReply);
    ApplyAllSplit(l, before + [Append(MARKER)] + between + [MarkReply], after);
    assert m1.text[|m1.text| - 1] == ' ';
    AddedIs(m1, between);
    hide Added, ApplyAll, HasSuffix;
    var add := MARKER + Added(' ', between);
    Assoc(m.text, MARKER, Added(' ', between));
    assert m3.text == m.text + add && m3.chatOffset == |m3.text|;
    assert m3.text[..m3.chatOffset] == m3.text;
    LongSuffix(m.text, add);
    NoMarkKeeps(m3, after);
  }

  /** Every offset update comes directly after its marker. */
  predicate Undisturbed(ops: seq<Op>) {
    forall i :: 0 <= i < |ops| && ops[i].MarkReply? ==> i > 0 && ops[i - 1] == Append(MARKER)
  }

  function LastMark(ops: seq<Op>): (i: int)
    ensures -1 <= i < |ops| && (i >= 0 ==> ops[i].MarkReply?)
    ensures forall j :: i < j < |ops| ==> !ops[j].MarkReply?
  {
    if ops == [] then -1
    else if ops[|ops| - 1].MarkReply? then |ops| - 1 else LastMark(ops[..|ops| - 1])
  }

  /** With nothing in between the condition holds. */
  lemma {:induction false} OffsetFollowsMarker(l: Log, ops: seq<Op>)
    requires OffsetAtMarker(l) && Undisturbed(ops)
    ensures OffsetAtMarker(ApplyAll(l, ops))
  {
    var i := LastMark(ops);
    if i < 0 {
      NoMarkKeeps(l, ops);
    } else {
      assert ops[i].MarkReply? && ops[i - 1] == Append(MARKER);
      var before, after := ops[..i - 1], ops[i + 1..];
      assert ops == before + [Append(MARKER)] + [] + [MarkReply] + after;
      assert MARKER + Added(' ', []) == MARKER;
      OffsetIff(l, before, [], after);
    }
  }

  lemma {:induction false} OnePublisherUndisturbed(started: bool, evs: seq<Event>)
    ensures Undisturbed(OpsAll(started, evs))
    ensures OpsAll(started, evs) != [] ==> !OpsAll(started, evs)[0].MarkReply?
    decreases evs
  {
    if evs == [] {
    } else {
      OnePublisherUndisturbed(Ops(started, evs[0]).1, evs[1..]);
    }
  }

  /** So one publisher alone keeps the offset at a marker, over any events. */
  lemma {:induction false} OnePublisherFollowsMarker(l: Log, started: bool, evs: seq<Event>)
    requires OffsetAtMarker(l)
    ensures OffsetAtMarker(After(l, started, evs))
  {
    OnePublisherUndisturbed(started, evs);
    OffsetFollowsMarker(l, OpsAll(started, evs));
  }

  // ---- the documented offset ---------------------------------------------

  lemma {:induction false} OpsAllSplit(started: bool, a: seq<Event>, b: seq<Event>) returns (then_: bool)
    ensures OpsAll(started, a + b) == OpsAll(started, a) + OpsAll(then_, b)
    ensures then_ == if a == [] then started else Reply(a[|a| - 1])
    decreases a
  {
    TailOfConcat(a, b);
    if a == [] {
      then_ := started;
    } else {
      var s := Ops(started, a[0]).1;
      then_ := OpsAllSplit(s, a[1..], b);
      Assoc(Ops(started, a[0]).0, OpsAll(s, a[1..]), OpsAll(then_, b));
    }
  }

  /** The log after a user line ends with that line. */
  lemma {:induction false} EndsWithUserLine(l: Log, started: bool, evs: seq<Event>)
    requires evs != [] && evs[|evs| - 1].role == "user"
    ensures HasSuffix(After(l, started, evs).text, "user: " + evs[|evs| - 1].content + "\n")
  {
    var front, last := evs[..|evs| - 1], evs[|evs| - 1];
    var line := "user: " + last.content + "\n";
    assert evs == front + [last];
    var then_ := OpsAllSplit(started, front, [last]);
    ApplyAllSplit(l, OpsAll(started, front), OpsAll(then_, [last]));
    var m := After(l, started, front);
    AfterCons(m, then_, [last]);
    assert FormatEvent(last) == line;
    var x := Append(line);
    ApplyFew(m, Append("\n"), x, x);
    ApplyFew(m, x, x, x);
    var n := ApplyAll(m, Ops(then_, last).0);
    assert After(l, started, evs) == After(n, Ops(then_, last).1, []) == n;
    assert n.text == (if then_ then m.text + "\n" else m.text) + line;
  }

  /** The offset is never the end of a user line, the last one or any other: that end
      follows a newline, the offset follows the blank of a marker. */
  lemma {:induction false} OffsetIsNoUserEnd(l: Log, started: bool, evs: seq<Event>, i: nat)
    requires OffsetAtMarker(l) && i < |evs| && evs[i].role == "user"
    ensures var then_, now := After(l, started, evs[..i + 1]), After(l, started, evs);
            && then_.text <= now.text
            && HasSuffix(then_.text, "user: " + evs[i].content + "\n")
            && now.chatOffset != |then_.text|
  {
    var a, b := evs[..i + 1], evs[i + 1..];
    TakeDrop(evs, i + 1);
    EndsWithUserLine(l, started, a);
    var s := OpsAllSplit(started, a, b);
    ApplyAllSplit(l, OpsAll(started, a), OpsAll(s, b));
    OnePublisherFollowsMarker(l, started, a);
    OnePublisherFollowsMarker(l, started, evs);
    var then_, now := After(l, started, a), After(l, started, evs);
    LogIsMonotone(then_, OpsAll(s, b));
    var at := |then_.text|;
    hide After;
    assert then_.text[at - 1] == '\n';
    assert now.text[at - 1] == '\n';
    var off := now.chatOffset;
    assert off > 0 ==> now.text[..off][off - 1] == now.text[off - 1] == ' ';
  }

  /** With several publishers: the offset is the end of a given line exactly when nothing
      was added between that line and the last update. */
  lemma {:induction false} OffsetAtLineIff(l: Log, before: seq<Op>, line: string, between: seq<Op>, after: seq<Op>)
    requires NoMark(after) && line != ""
    ensures var at := |ApplyAll(l, before + [Append(line)]).text|;
            ApplyAll(l, before + [Append(line)] + between + [MarkReply] + after).chatOffset == at <==>
            Added(line[|line| - 1], between) == ""
  {
    var m := ApplyAll(l, before);
    var m1 := Apply(m, Append(line));
    var m2 := ApplyAll(m1, between);
    var m3 := Apply(m2, MarkReply);
    ApplyAllSplit(l, before, [Append(line)]);
    ApplyFew(m, Append(line), MarkReply, MarkReply);
    ApplyAllSplit(l, before + [Append(line)], between);
    ApplyAllSplit(l, before + [Append(line)] + between, [MarkReply]);
    ApplyFew(m2, MarkReply, MarkReply, MarkReply);
    ApplyAllSplit(l, before + [Append(line)] + between + [MarkReply], after);
    assert m1.text[|m1.text| - 1] == line[|line| - 1];
    AddedIs(m1, between);
    hide Added, ApplyAll;
    NoMarkOffset(m3, after);
  }

  lemma {:induction false} NoMarkOffset(l: Log, ops: seq<Op>)
    requires NoMark(ops)
    ensures ApplyAll(l, ops).chatOffset == l.chatOffset
    decreases ops
  {
    if ops == [] {
    } else {
      NoMarkOffset(Apply(l, ops[0]), ops[1..]);
    }
  }

  /** So the race puts the offset at the end of the other publisher's user line. */
  lemma RaceAtUserEnd(l: Log)
    ensures var now := ApplyAll(l, [Append(MARKER)] + [Append("user: hi\n")] + [] + [MarkReply] + []);
            now.chatOffset == |now.text| && HasSuffix(now.text, "user: hi\n")
  {
    var line := "user: hi\n";
    var ops := [Append(MARKER)] + [Append(line)] + [] + [MarkReply] + [];
    assert ops == [Append(MARKER), Append(line), MarkReply];
    ApplyFew(l, Append(MARKER), Append(line), MarkReply);
  }

  /** At an input: the user line ends at 9, the offset is 20. */
  lemma OffsetAfterOneTurn()
    ensures var evs := [Event("user", "", "hi"), Event("assistant", "", "ok")];
            && After(Log("", 0, 0), false, evs).text == "user: hi\nassistant: ok"
            && After(Log("", 0, 0), false, evs).chatOffset == 20 != |"user: hi\n"|
  {
    var user, reply := Event("user", "", "hi"), Event("assistant", "", "ok");
    var evs := [user, reply];
    hide After, Rendering, ReplyAt, RunText, FormatEvent;
    PublishRenders(Log("", 0, 0), evs);
    UserLine(user);
    OneReply(reply);
    RenderingIs(evs);
    assert evs[1..] == [reply];
  }

  lemma UserLine(ev: Event)
    requires ev.role == "user"
    ensures FormatEvent(ev) == "user: " + ev.content + "\n"
  {
  }

  lemma OneReply(ev: Event)
    requires Reply(ev)
    ensures Rendering([ev]) == MARKER + ev.content && ReplyAt([ev]) == |MARKER|
  {
    assert [ev][1..] == [] && [ev][..1] == [ev];
    assert RunText([ev]) == ev.content + RunText([]);
  }

  /** Two publishers can interleave so that it fails: the second one's user line
      lands between the first one's marker and its offset update. */
  lemma OffsetRace(l: Log)
    requires l == Log("", 0, 0)
    ensures var ops := [Append(MARKER), Append("user: hi\n"), MarkReply, Append("ok")];
            !OffsetAtMarker(ApplyAll(l, ops))
            && [ops[0], ops[2], ops[3]] == OpsAll(false, [Event("assistant", "", "ok")])
            && [ops[1]] == OpsAll(false, [Event("user", "", "hi")])
  {
    var ops := [Append(MARKER), Append("user: hi\n"), MarkReply, Append("ok")];
    assert ops == [ops[0], ops[1], ops[2]] + [ops[3]];
    ApplyAllSplit(l, [ops[0], ops[1], ops[2]], [ops[3]]);
    ApplyFew(l, ops[0], ops[1], ops[2]);
    var e := [Event("assistant", "", "ok")];
    assert OpsAll(true, e[1..]) == [];
    var u := [Event("user", "", "hi")];
    assert OpsAll(false, u[1..]) == [];
    assert FormatEvent(u[0]) == "user: hi\n";
    var l1 := Log("assistant: user: hi\n", 2, 20);
    assert ApplyAll(l, ops) == Apply(l1, Append("ok"));
    var t := (l1.text + "ok")[..20];
    assert t == l1.text;
    assert t[|t| - 1] == '\n' && MARKER[|MARKER| - 1] == ' ';
  }
}
