/** The file table of a session and its consuming file fifo.out. */
module Fifo {
  import Seqs
  import opened Paths
  import opened Routing
  import opened Text
  import opened Transfer
  import opened Sessions

  // ---- RunFileStore ------------------------------------------------------

  /** How a FileSpec answers a stat: it has a Size, it has a Wait, or it is read.
      Reading fifo.out pops the queue; reading any other file changes nothing. */
  datatype Sizing = Sized | Waits | ByReading(pops: bool)

  datatype FileSpec = FileSpec(name: string, sizing: Sizing)

  /** SessionFileList with what fileSpec gives each entry. */
  const SESSION_FILES: seq<FileSpec> := [
    FileSpec("plan", Sized), FileSpec("ctl", ByReading(false)), FileSpec("prompt", ByReading(false)),
    FileSpec("fifo.in", ByReading(false)), FileSpec("fifo.out", ByReading(true)), FileSpec("chat", Sized),
    FileSpec("offset", ByReading(false)), FileSpec("cfg", ByReading(false)), FileSpec("statewait", Waits),
    FileSpec("usage", ByReading(false)), FileSpec("cost", ByReading(false)), FileSpec("ctxsz", ByReading(false)),
    FileSpec("models", ByReading(false)), FileSpec("systemprompt", ByReading(false)), FileSpec("env", ByReading(false)),
    FileSpec("tail", ByReading(false)), FileSpec("prompt.prev", ByReading(false)),
    FileSpec("context", ByReading(false))]

  class RunFileStore {
    const core: Core
    const specs: seq<FileSpec>
    var index: map<string, nat>

    /** The index finds every name, and the last entry of a repeated one. */
    ghost predicate Valid()
      reads this
    {
      && (forall i :: 0 <= i < |specs| ==> specs[i].name in index)
      && (forall name :: name in index ==>
            && index[name] < |specs| && specs[index[name]].name == name
            && forall j :: index[name] < j < |specs| ==> specs[j].name != name)
    }

    constructor (core: Core, specs: seq<FileSpec>)
      ensures Valid() && this.core == core && this.specs == specs
    {
      this.core, this.specs := core, specs;
      index := map[];
      new;
      var i := 0;
      while i < |specs|
        invariant 0 <= i <= |specs|
        invariant forall j :: 0 <= j < i ==> specs[j].name in index
        invariant forall name :: name in index ==>
                    && index[name] < i && specs[index[name]].name == name
                    && forall j :: index[name] < j < i ==> specs[j].name != name
      {
        index := index[specs[i].name := i];
        i := i + 1;
      }
    }

    /** stat; `content` is what reading a file gives at this moment. A file that has
        neither size nor wait is read, so stat-ing fifo.out takes an item. */
    method Stat(name: string, content: string -> string) returns (size: Option<nat>)
      requires Valid()
      modifies core`queue
      ensures size.Some? <==> exists i :: 0 <= i < |specs| && specs[i].name == name
      ensures core.queue == if size.Some? && specs[index[name]].sizing == ByReading(true)
                            then Popped(old(core.queue)) else old(core.queue)
      ensures size.Some? ==>
                size.value == match specs[index[name]].sizing
                              case Waits => 4096
                              case ByReading(true) => |Front(old(core.queue))|
                              case _ => |content(name)|
    {
      if name !in index {
        return None;
      }
      var spec := specs[index[name]];
      match spec.sizing {
        case Sized => size := Some(|content(name)|);
        case Waits => size := Some(4096);
        case ByReading(pops) =>
          if pops {
            var item, ok := core.PopQueue();
            size := Some(|item|);
          } else {
            size := Some(|content(name)|);
          }
      }
    }
  }

  /** PopQueue on the queue as a value: an empty queue stays empty and gives "". */
  function Popped(queue: seq<string>): seq<string> {
    if queue == [] then [] else queue[1..]
  }

  function Front(queue: seq<string>): string {
    if queue == [] then "" else queue[0]
  }

  /** In the table of a session fifo.out is the only file whose stat takes something. */
  lemma OnlyFifoOutPops(i: nat)
    requires i < |SESSION_FILES|
    ensures SESSION_FILES[i].sizing == ByReading(true) <==> SESSION_FILES[i].name == "fifo.out"
    ensures forall j :: i < j < |SESSION_FILES| ==> SESSION_FILES[j].name != SESSION_FILES[i].name
  {
  }

  // ---- the ledger --------------------------------------------------------

  /** What became of a popped item. */
  datatype Fate =
    | Answered(reply: string)  // a read that was answered, with these bytes
    | Lost                     // a read cancelled or timed out before it was answered
    | Walked                   // taken by pathType while a client walked to the file
    | Statted                  // taken while makeStat ran
    | Consumed                 // taken by the core itself, to run it

  datatype Pop = Pop(item: string, fate: Fate)

  datatype Ledger = Ledger(queue: seq<string>, pushed: seq<string>, popped: seq<Pop>)

  datatype Step =
    | WriteIn(data: string)                         // a flushed write to fifo.in
    | ReadOut(offset: nat, count: nat, lost: bool)  // Tread on fifo.out
    | WalkTo                                        // one walk element reaching fifo.out
    | StatOut                                       // Tstat on fifo.out
    | CoreTakes                                     // the core pops its own queue

  function Take(l: Ledger, fate: Fate): Ledger {
    if l.queue == [] then l
    else l.(queue := l.queue[1..], popped := l.popped + [Pop(l.queue[0], fate)])
  }

  function Next(l: Ledger, s: Step): Ledger {
    match s
    case WriteIn(data) =>
      var input := TrimSpace(data);
      if input == "" then l else l.(queue := l.queue + [input], pushed := l.pushed + [input])
    case ReadOut(offset, count, lost) =>
      if offset > 0 then l
      else Take(l, if lost then Lost else Answered(ReadSlice(Front(l.queue), 0, count)))
    case WalkTo => Take(l, Walked)
    case StatOut => Take(Take(l, Statted), Statted)  // pathType, then the length
    case CoreTakes => Take(l, Consumed)
  }

  function Run(l: Ledger, steps: seq<Step>): Ledger
    decreases steps
  {
    if steps == [] then l else Run(Next(l, steps[0]), steps[1..])
  }

  function Items(pops: seq<Pop>): seq<string> {
    if pops == [] then [] else Items(pops[..|pops| - 1]) + [pops[|pops| - 1].item]
  }

  /** Nothing is lost, duplicated or reordered between push and pop, and an answer is
      the popped item up to the count of its read. */
  ghost predicate Balanced(l: Ledger) {
    && l.pushed == Items(l.popped) + l.queue
    && forall i :: 0 <= i < |l.popped| && l.popped[i].fate.Answered? ==> l.popped[i].fate.reply <= l.popped[i].item
  }

  lemma ItemsSnoc(pops: seq<Pop>, pop: Pop)
    ensures Items(pops + [pop]) == Items(pops) + [pop.item]
  {
    Seqs.SnocTake(pops, pop);
  }

  lemma TakeBalanced(l: Ledger, fate: Fate)
    requires Balanced(l) && (fate.Answered? ==> fate.reply <= Front(l.queue))
    ensures Balanced(Take(l, fate))
  {
    hide Items;
    if l.queue != [] {
      var item := l.queue[0];
      ItemsSnoc(l.popped, Pop(item, fate));
      Seqs.HeadTail(l.queue);
      Seqs.Assoc(Items(l.popped), [item], l.queue[1..]);
    }
  }

  lemma NextBalanced(l: Ledger, s: Step)
    requires Balanced(l)
    ensures Balanced(Next(l, s))
  {
    hide Balanced, Take, TrimSpace, ReadSlice;
    match s {
      case WriteIn(data) => PushBalanced(l, TrimSpace(data));
      case ReadOut(offset, count, lost) => ReadBalanced(l, count, lost);
      case WalkTo => TakeBalanced(l, Walked);
      case StatOut => TakeBalanced(l, Statted); TakeBalanced(Take(l, Statted), Statted);
      case CoreTakes => TakeBalanced(l, Consumed);
    }
  }

  lemma PushBalanced(l: Ledger, item: string)
    requires Balanced(l)
    ensures Balanced(l.(queue := l.queue + [item], pushed := l.pushed + [item]))
  {
    Seqs.Assoc(Items(l.popped), l.queue, [item]);
  }

  lemma ReadBalanced(l: Ledger, count: nat, lost: bool)
    requires Balanced(l)
    ensures Balanced(Take(l, if lost then Lost else Answered(ReadSlice(Front(l.queue), 0, count))))
  {
    var reply := ReadSlice(Front(l.queue), 0, count);
    assert Front(l.queue)[0..] == Front(l.queue);
    hide Balanced, Take, ReadSlice;
    TakeBalanced(l, if lost then Lost else Answered(reply));
  }

  lemma {:induction false} RunBalanced(l: Ledger, steps: seq<Step>)
    requires Balanced(l)
    ensures Balanced(Run(l, steps))
    decreases steps
  {
    hide Balanced, Next;
    if steps == [] {
    } else {
      NextBalanced(l, steps[0]);
      RunBalanced(Next(l, steps[0]), steps[1..]);
    }
  }

  /** The inputs of the writes among the steps, trimmed, without the empty ones. */
  function Inputs(steps: seq<Step>): seq<string> {
    if steps == [] then []
    else
      (if steps[0].WriteIn? && TrimSpace(steps[0].data) != "" then [TrimSpace(steps[0].data)] else [])
      + Inputs(steps[1..])
  }

  lemma NextPushes(l: Ledger, s: Step)
    ensures Next(l, s).pushed ==
            l.pushed + if s.WriteIn? && TrimSpace(s.data) != "" then [TrimSpace(s.data)] else []
  {
    hide TrimSpace, ReadSlice;
  }

  /** Exactly the written inputs are pushed, in the order of the writes. */
  lemma {:induction false} PushedAreInputs(l: Ledger, steps: seq<Step>)
    ensures Run(l, steps).pushed == l.pushed + Inputs(steps)
    decreases steps
  {
    hide Next, TrimSpace;
    if steps == [] {
    } else {
      var s := steps[0];
      NextPushes(l, s);
      PushedAreInputs(Next(l, s), steps[1..]);
      Seqs.Assoc(l.pushed, if s.WriteIn? && TrimSpace(s.data) != "" then [TrimSpace(s.data)] else [],
                 Inputs(steps[1..]));
    }
  }

  /** From an empty queue on: the written inputs in order are the popped items followed
      by the queue. */
  lemma {:induction false} InputsAreServed(steps: seq<Step>)
    ensures var l := Run(Ledger([], [], []), steps); Inputs(steps) == Items(l.popped) + l.queue
  {
    hide Run, Inputs;
    var l := Ledger([], [], []);
    assert Balanced(l);
    RunBalanced(l, steps);
    PushedAreInputs(l, steps);
    assert [] + Inputs(steps) == Inputs(steps);
  }

  /** A step that takes an item without giving all of it to a reader. */
  predicate Steals(l: Ledger, s: Step) {
    match s
    case ReadOut(offset, count, lost) => offset == 0 && l.queue != [] && (lost || count < |l.queue[0]|)
    case WriteIn(_) => false
    case CoreTakes => false
    case _ => l.queue != []
  }

  predicate AnySteals(l: Ledger, steps: seq<Step>)
    decreases steps
  {
    steps != [] && (Steals(l, steps[0]) || AnySteals(Next(l, steps[0]), steps[1..]))
  }

  /** Every popped item so far was run by the core or went to a reader whole. */
  predicate AllDelivered(pops: seq<Pop>) {
    forall i :: 0 <= i < |pops| ==> Delivered(pops[i])
  }

  predicate Delivered(p: Pop) {
    p.fate == Consumed || p.fate == Answered(p.item)
  }

  /** The answers readers got, in order. */
  function Replies(pops: seq<Pop>): seq<string> {
    if pops == [] then []
    else
      var last := pops[|pops| - 1];
      Replies(pops[..|pops| - 1]) + if last.fate.Answered? then [last.fate.reply] else []
  }

  /** The popped items that the core did not run itself, in order. */
  function ForReaders(pops: seq<Pop>): seq<string> {
    if pops == [] then []
    else
      var last := pops[|pops| - 1];
      ForReaders(pops[..|pops| - 1]) + if last.fate == Consumed then [] else [last.item]
  }

  /** Delivery means that the readers' answers are the items for them, one for one. */
  lemma {:induction false} DeliveredMeans(pops: seq<Pop>)
    ensures |Replies(pops)| <= |ForReaders(pops)|
    ensures AllDelivered(pops) <==> Replies(pops) == ForReaders(pops)
  {
    if pops == [] {
    } else {
      var front, last := pops[..|pops| - 1], pops[|pops| - 1];
      DeliveredMeans(front);
      assert pops == front + [last];
      assert AllDelivered(pops) <==> AllDelivered(front) && Delivered(last);
      var a, b := Replies(front), ForReaders(front);
      assert Replies(pops) == a + (if last.fate.Answered? then [last.fate.reply] else []);
      assert ForReaders(pops) == b + (if last.fate == Consumed then [] else [last.item]);
      assert a + [] == a && b + [] == b;
      if last.fate.Answered? {
        SnocEqual(a, last.fate.reply, b, last.item);
      }
    }
  }

  lemma SnocEqual(a: seq<string>, x: string, b: seq<string>, y: string)
    ensures a + [x] == b + [y] <==> a == b && x == y
  {
    if a + [x] == b + [y] {
      assert (a + [x])[..|a|] == a && (b + [y])[..|b|] == b;
      assert (a + [x])[|a|] == x && (b + [y])[|b|] == y;
    }
  }

  /** Readers receive exactly the pushed items that the core does not run itself, whole
      and in order, for as long as no step steals; and the first step that steals breaks
      it for good. */
  lemma {:induction false} DeliveredIff(l: Ledger, steps: seq<Step>)
    requires AllDelivered(l.popped)
    ensures AllDelivered(Run(l, steps).popped) <==> !AnySteals(l, steps)
    decreases steps
  {
    hide Next, Steals, AllDelivered;
    if steps == [] {
    } else {
      var s := steps[0];
      if Steals(l, s) {
        StealShows(l, s);
        UndeliveredStays(Next(l, s), steps[1..]);
      } else {
        HonestDelivers(l, s);
        DeliveredIff(Next(l, s), steps[1..]);
      }
    }
  }

  /** From an empty queue on: the answers are the items for readers, one for one, exactly
      in runs where no step steals. */
  lemma {:induction false} ReadersGetAll(steps: seq<Step>)
    ensures var l := Run(Ledger([], [], []), steps);
            Replies(l.popped) == ForReaders(l.popped) <==> !AnySteals(Ledger([], [], []), steps)
  {
    hide Run, AnySteals, Replies, ForReaders;
    DeliveredIff(Ledger([], [], []), steps);
    DeliveredMeans(Run(Ledger([], [], []), steps).popped);
  }

  /** A step that does not steal takes nothing or answers with the whole item. */
  lemma HonestDelivers(l: Ledger, s: Step)
    requires AllDelivered(l.popped) && !Steals(l, s)
    ensures AllDelivered(Next(l, s).popped)
  {
    hide TrimSpace;
    if s.ReadOut? && s.offset == 0 && l.queue != [] {
      var item := l.queue[0];
      WholeSlice(item, s.count);
      hide ReadSlice;
      var m := Next(l, s);
      assert m.popped == l.popped + [Pop(item, Answered(item))];
    } else if s.CoreTakes? && l.queue != [] {
      assert Next(l, s).popped == l.popped + [Pop(l.queue[0], Consumed)];
    } else {
      assert Next(l, s).popped == l.popped;
    }
  }

  lemma WholeSlice(item: string, count: nat)
    requires count >= |item|
    ensures ReadSlice(item, 0, count) == item
  {
  }

  lemma StealShows(l: Ledger, s: Step)
    requires Steals(l, s)
    ensures !AllDelivered(Next(l, s).popped)
  {
    hide TrimSpace;
    var m := Next(l, s);
    var i := |l.popped|;
    assert i < |m.popped| && m.popped[i].item == l.queue[0];
    assert !Delivered(m.popped[i]);
  }

  lemma PoppedGrows(l: Ledger, s: Step)
    ensures l.popped <= Next(l, s).popped
  {
    hide TrimSpace, ReadSlice;
  }

  lemma {:induction false} UndeliveredStays(l: Ledger, steps: seq<Step>)
    requires !AllDelivered(l.popped)
    ensures !AllDelivered(Run(l, steps).popped)
    decreases steps
  {
    hide Next;
    if steps == [] {
    } else {
      var m := Next(l, steps[0]);
      PoppedGrows(l, steps[0]);
      var i :| 0 <= i < |l.popped| && !Delivered(l.popped[i]);
      assert m.popped[i] == l.popped[i];
      UndeliveredStays(m, steps[1..]);
    }
  }

  /** Walking to fifo.out and then reading it answers with the second item: pathType
      has already popped the first. One Tstat takes two. */
  lemma WalkThenReadSkips(a: string, b: string, rest: seq<string>, count: nat)
    requires count >= |b|
    ensures var l := Run(Ledger([a, b] + rest, [a, b] + rest, []), [WalkTo, ReadOut(0, count, false)]);
            l.queue == rest && l.popped == [Pop(a, Walked), Pop(b, Answered(b))]
    ensures Next(Ledger([a, b] + rest, [a, b] + rest, []), StatOut).queue == rest
  {
    var l0 := Ledger([a, b] + rest, [a, b] + rest, []);
    var l1 := Next(l0, WalkTo);
    assert l1.queue == [b] + rest;
    var r := ReadOut(0, count, false);
    assert [WalkTo, r][1..] == [r] && [r][1..] == [];
    assert Run(l1, [r]) == Run(Next(l1, r), []);
    assert l1.queue[1..] == rest && l1.popped == [Pop(a, Walked)];
    assert ReadSlice(b, 0, count) == b;
  }

  // ---- the ledger and the file table -------------------------------------

  /** Every way a client looks at fifo.out asks the session's file table for it. */
  lemma {:induction false} FifoOutCells(id: string)
    requires LegalName(id)
    ensures var path, c := "/s/" + id + "/fifo.out", Cell(SessionFiles(id), "fifo.out");
            StatCell(path) == Some(c) && LengthCells(path) == [c] && ReadCell(path) == Some(c)
    ensures WriteCell("/s/" + id + "/fifo.in") == Some(Cell(SessionFiles(id), "fifo.in"))
  {
    hide StatCell, LengthCells, ReadCell, WriteCell;
    SessionFileCells(id, "fifo.out");
    SessionFileCells(id, "fifo.in");
    assert "/s/" + id + "/" + "fifo.out" == "/s/" + id + "/fifo.out";
    assert "/s/" + id + "/" + "fifo.in" == "/s/" + id + "/fifo.in";
  }

  /** The file table of a session, as NewSessionFileStore sets it up. */
  ghost predicate IsSessionTable(fs: RunFileStore)
    reads fs
  {
    fs.Valid() && fs.specs == SESSION_FILES
  }

  lemma FifoOutSpec(fs: RunFileStore)
    requires IsSessionTable(fs)
    ensures "fifo.out" in fs.index && SESSION_FILES[fs.index["fifo.out"]].sizing == ByReading(true)
  {
    assert SESSION_FILES[4].name == "fifo.out";
    OnlyFifoOutPops(fs.index["fifo.out"]);
  }

  /** pathType's question about a session file. */
  method PathType(fs: RunFileStore, path: string, content: string -> string) returns (found: bool)
    requires fs.Valid() && StatCell(path).Some?
    modifies fs.core`queue
    ensures found <==> StatCell(path).value.key in fs.index
    ensures fs.core.queue == if found && fs.specs[fs.index[StatCell(path).value.key]].sizing == ByReading(true)
                             then Popped(old(fs.core.queue)) else old(fs.core.queue)
  {
    hide StatCell;
    var size := fs.Stat(StatCell(path).value.key, content);
    found := size.Some?;
  }

  /** Twalk to fifo.out asks once. */
  method WalkFifoOut(fs: RunFileStore, id: string, content: string -> string, ghost l: Ledger) returns (found: bool)
    requires IsSessionTable(fs) && LegalName(id) && l.queue == fs.core.queue
    modifies fs.core`queue
    ensures found && fs.core.queue == Next(l, WalkTo).queue
  {
    hide StatCell, LengthCells, ReadCell, WriteCell, SESSION_FILES;
    FifoOutCells(id);
    FifoOutSpec(fs);
    found := PathType(fs, "/s/" + id + "/fifo.out", content);
  }

  /** Tstat of fifo.out: makeStat asks pathType, and then the stores of its length part
      in turn while the length is 0. */
  method StatFifoOut(fs: RunFileStore, id: string, content: string -> string, ghost l: Ledger) returns (length: nat)
    requires IsSessionTable(fs) && LegalName(id) && l.queue == fs.core.queue
    modifies fs.core`queue
    ensures fs.core.queue == Next(l, StatOut).queue
    ensures length == |Front(Next(l, WalkTo).queue)|
  {
    hide StatCell, LengthCells, ReadCell, WriteCell, SESSION_FILES;
    FifoOutCells(id);
    FifoOutSpec(fs);
    var path := "/s/" + id + "/fifo.out";
    var found := PathType(fs, path, content);
    length := 0;
    var cells := LengthCells(path);
    for i := 0 to |cells|
      invariant i == 0 ==> length == 0 && fs.core.queue == Next(l, WalkTo).queue
      invariant i == 1 ==> length == |Front(Next(l, WalkTo).queue)| && fs.core.queue == Next(l, StatOut).queue
    {
      if length == 0 {
        var size := fs.Stat(cells[i].key, content);
        if size != None {
          length := size.value;
        }
      }
    }
  }

  /** Tread of fifo.out; `lost` when the answer comes after the deadline or a Tflush. */
  method ReadFifoOut(core: Core, offset: nat, count: nat, lost: bool, ghost l: Ledger) returns (reply: Option<string>)
    requires l.queue == core.queue
    modifies core`queue
    ensures core.queue == Next(l, ReadOut(offset, count, lost)).queue
    ensures offset == 0 && l.queue != [] ==>
              Next(l, ReadOut(offset, count, lost)).popped ==
              l.popped + [Pop(l.queue[0], match reply case Some(r) => Answered(r) case None => Lost)]
    ensures offset > 0 ==> reply == Some("")
    ensures offset == 0 && l.queue == [] ==> reply == if lost then None else Some("")
  {
    if offset > 0 {
      return Some("");
    }
    var item, ok := core.PopQueue();
    reply := if lost then None else Some(ReadSlice(item, 0, count));
  }

  /** The write side of fifo.in. */
  method WriteFifoIn(core: Core, data: string, ghost l: Ledger)
    requires l.queue == core.queue
    modifies core`queue
    ensures core.queue == Next(l, WriteIn(data)).queue
    ensures core.queue == if TrimSpace(data) != "" then old(core.queue) + [TrimSpace(data)] else old(core.queue)
  {
    var input := TrimSpace(data);
    if input == "" {
      return;
    }
    core.Queue(input);
  }
}
