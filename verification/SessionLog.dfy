/** A session's chat log: an append-only text with a version counter and the
    offset of the current assistant reply, and readers that follow it. */
module SessionLog {
  import opened Transfer

  const MARKER := "assistant: "

  datatype Log = Log(text: string, vers: nat, chatOffset: nat)

  /** Everything any goroutine does to a log, one lock acquisition each. */
  datatype Op =
    | Append(data: string)  // AppendLog
    | EnsureNewline         // EnsureTrailingNewline
    | MarkReply             // ChatOffset = len(log)

  function Apply(l: Log, op: Op): Log {
    match op
    case Append(data) =>
      if data == "" then l else l.(text := l.text + data, vers := (l.vers + 1) % UINT32)
    case EnsureNewline =>
      if l.text != "" && l.text[|l.text| - 1] != '\n'
      then l.(text := l.text + "\n", vers := (l.vers + 1) % UINT32)
      else l
    case MarkReply => l.(chatOffset := |l.text|)
  }

  /** What the operations leave: an append puts its data at the end; the newline step
      makes a non-empty log end with a newline, adding one only where it has none. */
  lemma OpsAre(l: Log, data: string)
    ensures Apply(l, Append(data)).text == l.text + data
    ensures l.text == "" ==> Apply(l, EnsureNewline).text == ""
    ensures l.text != "" && l.text[|l.text| - 1] == '\n' ==> Apply(l, EnsureNewline) == l
    ensures l.text != "" && l.text[|l.text| - 1] != '\n' ==> Apply(l, EnsureNewline).text == l.text + "\n"
    ensures Apply(l, MarkReply) == Log(l.text, l.vers, |l.text|)
  {
  }

  function ApplyAll(l: Log, ops: seq<Op>): Log
    decreases ops
  {
    if ops == [] then l else ApplyAll(Apply(l, ops[0]), ops[1..])
  }

  /** Any interleaving of publishers, renames and newline steps is some list of
      operations: the log only grows at its end, and the reply offset never goes
      back and never passes the end. */
  lemma {:induction false} LogIsMonotone(l: Log, ops: seq<Op>)
    requires l.chatOffset <= |l.text|
    ensures l.text <= ApplyAll(l, ops).text
    ensures l.chatOffset <= ApplyAll(l, ops).chatOffset <= |ApplyAll(l, ops).text|
    decreases ops
  {
    if ops == [] {
    } else {
      LogIsMonotone(Apply(l, ops[0]), ops[1..]);
    }
  }

  lemma {:induction false} ApplyAllSplit(l: Log, a: seq<Op>, b: seq<Op>)
    ensures ApplyAll(l, a + b) == ApplyAll(ApplyAll(l, a), b)
    decreases a
  {
    if a == [] {
      assert a + b == b;
    } else {
      assert (a + b)[1..] == a[1..] + b;
      ApplyAllSplit(Apply(l, a[0]), a[1..], b);
    }
  }

  lemma ApplyFew(l: Log, a: Op, b: Op, c: Op)
    ensures ApplyAll(l, [a]) == Apply(l, a)
    ensures ApplyAll(l, [a, b]) == Apply(Apply(l, a), b)
    ensures ApplyAll(l, [a, b, c]) == Apply(Apply(Apply(l, a), b), c)
  {
    assert [a, b] == [a] + [b] && [a, b, c] == [a, b] + [c];
    ApplyAllSplit(l, [a], [b]);
    ApplyAllSplit(l, [a, b], [c]);
  }

  // ---- the version counter ----------------------------------------------

  /** How many of the operations bump the version. */
  function Bumps(l: Log, ops: seq<Op>): nat
    decreases ops
  {
    if ops == [] then 0
    else (if Apply(l, ops[0]).text != l.text then 1 else 0) + Bumps(Apply(l, ops[0]), ops[1..])
  }

  lemma {:induction false} VersionCountsBumps(l: Log, ops: seq<Op>)
    requires l.vers < UINT32
    ensures ApplyAll(l, ops).vers == (l.vers + Bumps(l, ops)) % UINT32
    ensures |ApplyAll(l, ops).text| >= |l.text|
    ensures |ApplyAll(l, ops).text| > |l.text| <==> Bumps(l, ops) > 0
    decreases ops
  {
    if ops == [] {
    } else {
      var m := Apply(l, ops[0]);
      VersionCountsBumps(m, ops[1..]);
      OneBump(l, ops[0]);
      AddsUp(l.vers, if m.text != l.text then 1 else 0, Bumps(m, ops[1..]));
      hide Apply;
    }
  }

  lemma OneBump(l: Log, op: Op)
    requires l.vers < UINT32
    ensures var m := Apply(l, op);
            && m.vers == (l.vers + if m.text != l.text then 1 else 0) % UINT32 && |m.text| >= |l.text|
            && (|m.text| > |l.text| <==> m.text != l.text)
  {
  }

  lemma AddsUp(v: nat, a: nat, b: nat)
    ensures ((v + a) % UINT32 + b) % UINT32 == (v + (a + b)) % UINT32
  {
    var q := (v + a) / UINT32;
    assert v + (a + b) == (v + a) % UINT32 + b + q * UINT32;
  }

  /** Polling stat detects growth through the version exactly when the number of
      appends since the last look is not a positive multiple of 2^32. */
  lemma {:induction false} VersionDetectsGrowth(l: Log, ops: seq<Op>)
    requires l.vers < 4294967296
    ensures (|ApplyAll(l, ops).text| != |l.text| <==> ApplyAll(l, ops).vers != l.vers)
       <==> (Bumps(l, ops) == 0 || Bumps(l, ops) % 4294967296 != 0)
  {
    VersionCountsBumps(l, ops);
    WrapsAt(l.vers, Bumps(l, ops));
  }

  lemma WrapsAt(v: nat, n: nat)
    requires v < UINT32
    ensures (v + n) % UINT32 == v <==> n % UINT32 == 0
  {
    var q, r := n / UINT32, n % UINT32;
    assert v + n == v + r + q * UINT32;
    assert (v + n) % UINT32 == (v + r) % UINT32;
  }

  // ---- a reader that follows the log ------------------------------------

  datatype TailStep = Change(op: Op) | Read(count: nat)

  /** The log and what the reader holds after the steps; it always reads at the
      number of bytes it already has. */
  function Tail(l: Log, have: string, steps: seq<TailStep>): (Log, string)
    requires TailFits(l, have, steps)
    decreases |steps|
  {
    if steps == [] then (l, have)
    else match steps[0]
      case Change(op) => Tail(Apply(l, op), have, steps[1..])
      case Read(count) => Tail(l, have + ReadSlice(l.text, |have|, count), steps[1..])
  }

  /** No offset outgrows a Go int along the way. */
  predicate TailFits(l: Log, have: string, steps: seq<TailStep>)
    decreases |steps|
  {
    |have| <= MAX_INT &&
    (steps == [] ||
      match steps[0]
      case Change(op) => TailFits(Apply(l, op), have, steps[1..])
      case Read(count) => TailFits(l, have + ReadSlice(l.text, |have|, count), steps[1..]))
  }

  /** Whatever is appended between reads and whatever counts are asked for, the
      reader holds a prefix of the log, never less than before. */
  lemma {:induction false} TailHoldsPrefix(l: Log, have: string, steps: seq<TailStep>)
    requires TailFits(l, have, steps) && have <= l.text
    ensures Tail(l, have, steps).1 <= Tail(l, have, steps).0.text
    ensures have <= Tail(l, have, steps).1
    decreases |steps|
  {
    if steps == [] {
    } else {
      match steps[0]
      case Change(op) => TailHoldsPrefix(Apply(l, op), have, steps[1..]);
      case Read(count) =>
        var got := have + ReadSlice(l.text, |have|, count);
        assert got <= l.text;
        TailHoldsPrefix(l, got, steps[1..]);
    }
  }

  /** Once appends stop, reads with positive counts bring it up to date. */
  lemma TailCatchesUp(l: Log, have: string, steps: seq<TailStep>, count: nat -> nat)
    requires TailFits(l, have, steps) && have <= l.text
    requires |Tail(l, have, steps).0.text| <= MAX_INT
    requires forall o :: count(o) > 0
    ensures var (log, got) := Tail(l, have, steps);
            |got| <= |log.text| && got + ReadToEnd(log.text, |got|, count) == log.text
  {
    TailHoldsPrefix(l, have, steps);
    var (log, got) := Tail(l, have, steps);
    ReadToEndIsContent(log.text, |got|, count);
  }
}
