/** Serve as a step system: one goroutine reads requests, each request runs in its
    own goroutine, one goroutine writes responses. Steps may come in any order. */
module Serve {

  /** Where the goroutine of a request is. */
  datatype Phase =
    | Registered  // its cancel is in pending, wg.Add is still to come
    | Handling
    | Handled     // handle has returned
    | Sent        // its response is in the channel
    | Released    // reqCancel has run
    | Unlisted    // its tag is deleted from pending

  datatype Main = Reading | Starting(id: nat) | Waiting | Closed

  /** A response with the number of the request it answers. */
  datatype Response = Response(id: nat, tag: nat)

  datatype State = State(
    main: Main,
    tags: seq<nat>,             // tag of each request read so far
    running: map<nat, Phase>,   // requests whose goroutine has not finished
    wg: int,                    // the wait group
    pending: map<nat, nat>,     // cs.pending: tag to the request whose cancel it holds
    cancelled: set<nat>,
    flushed: set<nat>,          // those cancelled by some Tflush
    channel: seq<Response>,
    wire: seq<Response>,
    panicked: bool)             // a send on a closed channel or a negative wait group

  function Start(): State {
    State(Reading, [], map[], 0, map[], {}, {}, [], [], false)
  }

  datatype Step =
    | Read(tag: nat)
    | Spawn
    | ReadFails
    | Handle(id: nat)                 // any request but Tflush
    | Flush(id: nat, oldtag: nat)     // a Tflush
    | Send(id: nat)
    | Cancel(id: nat)
    | Unlist(id: nat)
    | Done(id: nat)
    | Write                           // the writer goroutine
    | WaitReturns                     // wg.Wait returns and the channel is closed

  const CAPACITY := 16

  predicate At(s: State, id: nat, p: Phase) {
    id in s.running && s.running[id] == p
  }

  predicate Enabled(s: State, step: Step) {
    match step
    case Read(_) => s.main == Reading
    case Spawn => s.main.Starting?
    case ReadFails => s.main == Reading
    case Handle(id) => At(s, id, Handling)
    case Flush(id, _) => At(s, id, Handling)
    case Send(id) => At(s, id, Handled) && (s.main == Closed || |s.channel| < CAPACITY)
    case Cancel(id) => At(s, id, Sent)
    case Unlist(id) => At(s, id, Released)
    case Done(id) => At(s, id, Unlisted)
    case Write => s.channel != []
    case WaitReturns => s.main == Waiting && s.wg == 0
  }

  function Move(s: State, id: nat, p: Phase): State {
    s.(running := s.running[id := p])
  }

  function Next(s: State, step: Step): State
    requires Enabled(s, step)
    requires forall id :: id in s.running ==> id < |s.tags|
  {
    match step
    case Read(tag) =>
      var id := |s.tags|;
      Move(s, id, Registered).(main := Starting(id), tags := s.tags + [tag], pending := s.pending[tag := id])
    case Spawn => Move(s, s.main.id, Handling).(main := Reading, wg := s.wg + 1)
    case ReadFails => s.(main := Waiting)
    case Handle(id) => Move(s, id, Handled)
    case Flush(id, oldtag) =>
      var hit := if oldtag in s.pending then {s.pending[oldtag]} else {};
      Move(s, id, Handled).(cancelled := s.cancelled + hit, flushed := s.flushed + hit)
    case Send(id) =>
      if s.main == Closed then s.(panicked := true)
      else Move(s, id, Sent).(channel := s.channel + [Response(id, s.tags[id])])
    case Cancel(id) => Move(s, id, Released).(cancelled := s.cancelled + {id})
    case Unlist(id) => Move(s, id, Unlisted).(pending := s.pending - {s.tags[id]})
    case Done(id) => s.(running := s.running - {id}, wg := s.wg - 1, panicked := s.panicked || s.wg < 1)
    case Write => s.(channel := s.channel[1..], wire := s.wire + [s.channel[0]])
    case WaitReturns => s.(main := Closed)
  }

  // ---- safety ------------------------------------------------------------

  /** The request has put its response into the channel. */
  predicate Answered(s: State, id: nat) {
    id < |s.tags| && (id in s.running ==> s.running[id] in {Sent, Released, Unlisted})
  }

  function Responses(s: State): seq<Response> {
    s.wire + s.channel
  }

  /** Exactly one response for each answered request, carrying its tag. */
  ghost predicate OneEach(s: State) {
    && (forall i :: 0 <= i < |Responses(s)| ==>
          Answered(s, Responses(s)[i].id) && Responses(s)[i].tag == s.tags[Responses(s)[i].id])
    && (forall i, j :: 0 <= i < j < |Responses(s)| ==> Responses(s)[i].id != Responses(s)[j].id)
    && (forall id: nat :: Answered(s, id) ==> Response(id, s.tags[id]) in Responses(s))
  }

  ghost predicate Counts(s: State) {
    && (forall id :: id in s.running ==> id < |s.tags|)
    && (forall id :: id in s.running ==> (s.running[id] == Registered <==> s.main == Starting(id)))
    && (s.main.Starting? ==> s.main.id in s.running)
    && s.wg + (if s.main.Starting? then 1 else 0) == |s.running|
    && !s.panicked
    && (s.main == Closed ==> s.running == map[])
  }

  /** Every cancel held in pending is that of a running request with that tag. */
  ghost predicate PendingOK(s: State) {
    forall t :: t in s.pending ==>
      var id := s.pending[t];
      id in s.running && id < |s.tags| && s.tags[id] == t && s.running[id] != Unlisted
  }

  /** A request is cancelled by a Tflush or by its own completion; nothing else, the
      end of the connection included, cancels it. */
  ghost predicate CancelsOK(s: State) {
    forall id: nat :: CancelOK(s, id)
  }

  predicate CancelOK(s: State, id: nat) {
    id in s.cancelled <==>
      id in s.flushed || (id < |s.tags| && (id in s.running ==> s.running[id] in {Released, Unlisted}))
  }

  ghost predicate Inv(s: State) {
    Counts(s) && OneEach(s) && PendingOK(s) && CancelsOK(s)
  }

  lemma MoveCounts(s: State, n: State, id: nat, p: Phase)
    requires Counts(s) && id in s.running && s.running[id] != Registered && p != Registered
    requires n.running == s.running[id := p] && n.tags == s.tags && n.main == s.main
    requires n.wg == s.wg && n.panicked == s.panicked
    ensures Counts(n)
  {
    assert n.running.Keys == s.running.Keys;
  }

  lemma ReadCounts(s: State, tag: nat)
    requires Counts(s) && s.main == Reading
    ensures Counts(Next(s, Read(tag)))
  {
    var n, id := Next(s, Read(tag)), |s.tags|;
    AddKey(s.running, id, Registered);
    assert forall x :: x in n.running <==> x in s.running || x == id;
  }

  lemma AddKey(m: map<nat, Phase>, k: nat, p: Phase)
    requires k !in m
    ensures |m[k := p]| == |m| + 1
  {
    assert m[k := p].Keys == m.Keys + {k};
  }

  lemma DoneCounts(s: State, id: nat)
    requires Counts(s) && Enabled(s, Done(id))
    ensures Counts(Next(s, Done(id)))
  {
    var n := Next(s, Done(id));
    assert s.running.Keys == n.running.Keys + {id};
    if s.main.Starting? { assert s.main.id in n.running.Keys && |n.running.Keys| >= 1; }
  }

  lemma CountsKept(s: State, step: Step)
    requires Counts(s) && Enabled(s, step)
    ensures Counts(Next(s, step))
  {
    var n := Next(s, step);
    match step
    case Read(tag) => ReadCounts(s, tag);
    case Spawn => assert n.running.Keys == s.running.Keys;
    case Done(id) => DoneCounts(s, id);
    case WaitReturns => assert |s.running.Keys| == 0;
    case ReadFails =>
    case Write =>
    case Handle(id) => MoveCounts(s, n, id, Handled);
    case Flush(id, _) => MoveCounts(s, n, id, Handled);
    case Send(id) => MoveCounts(s, n, id, Sent);
    case Cancel(id) => MoveCounts(s, n, id, Released);
    case Unlist(id) => MoveCounts(s, n, id, Unlisted);
  }

  lemma SendOneEach(s: State, id: nat)
    requires Counts(s) && OneEach(s) && Enabled(s, Send(id))
    ensures OneEach(Next(s, Send(id)))
  {
    var n, r := Next(s, Send(id)), Response(id, s.tags[id]);
    var a, b := Responses(s), Responses(n);
    assert b == a + [r] && !Answered(s, id);
    hide Responses;
    forall i | 0 <= i < |b| ensures Answered(n, b[i].id) && b[i].tag == n.tags[b[i].id] {
      if i < |a| { assert Answered(s, a[i].id); }
    }
    forall x: nat | Answered(n, x) ensures Response(x, n.tags[x]) in b {
      if x == id { assert b[|a|] == r; } else { assert Answered(s, x); }
    }
  }

  lemma ReadOneEach(s: State, tag: nat)
    requires Counts(s) && OneEach(s) && Enabled(s, Read(tag))
    ensures OneEach(Next(s, Read(tag)))
  {
    var n := Next(s, Read(tag));
    assert Responses(n) == Responses(s);
    hide Responses;
    forall i | 0 <= i < |Responses(n)|
      ensures Answered(n, Responses(n)[i].id) && Responses(n)[i].tag == n.tags[Responses(n)[i].id]
    {
      assert Answered(s, Responses(s)[i].id);
    }
    forall x: nat | Answered(n, x) ensures Response(x, n.tags[x]) in Responses(n) { assert Answered(s, x); }
  }

  lemma OneEachKept(s: State, step: Step)
    requires Counts(s) && OneEach(s) && Enabled(s, step)
    ensures OneEach(Next(s, step))
  {
    match step
    case Send(id) => SendOneEach(s, id);
    case Read(tag) => ReadOneEach(s, tag);
    case _ => QuietKept(s, step);
  }

  /** The other steps answer nothing. */
  lemma QuietKept(s: State, step: Step)
    requires Counts(s) && OneEach(s) && Enabled(s, step) && !step.Send? && !step.Read?
    ensures OneEach(Next(s, step))
  {
    hide OneEach, Answered, Responses, Next;
    QuietSame(s, step);
    forall x: nat ensures Answered(s, x) <==> Answered(Next(s, step), x) { QuietAt(s, step, x); }
    SameResponses(s, Next(s, step));
  }

  lemma QuietSame(s: State, step: Step)
    requires Counts(s) && Enabled(s, step) && !step.Send? && !step.Read?
    ensures var n := Next(s, step); Responses(n) == Responses(s) && n.tags == s.tags
  {
  }

  lemma QuietAt(s: State, step: Step, x: nat)
    requires Counts(s) && Enabled(s, step) && !step.Send? && !step.Read?
    ensures Answered(s, x) <==> Answered(Next(s, step), x)
  {
  }

  lemma SameResponses(s: State, n: State)
    requires OneEach(s) && Responses(n) == Responses(s) && n.tags == s.tags
    requires forall x: nat :: Answered(s, x) <==> Answered(n, x)
    ensures OneEach(n)
  {
    forall i | 0 <= i < |Responses(n)|
      ensures Answered(n, Responses(n)[i].id) && Responses(n)[i].tag == n.tags[Responses(n)[i].id]
    {
      assert Answered(s, Responses(s)[i].id);
    }
  }

  lemma PendingKept(s: State, step: Step)
    requires Counts(s) && PendingOK(s) && Enabled(s, step)
    ensures PendingOK(Next(s, step))
  {
  }

  lemma CancelsKept(s: State, step: Step)
    requires Counts(s) && PendingOK(s) && CancelsOK(s) && Enabled(s, step)
    ensures CancelsOK(Next(s, step))
  {
    hide PendingOK, CancelOK, Next;
    forall id: nat ensures CancelOK(Next(s, step), id) { CancelKept(s, step, id); }
  }

  lemma CancelKept(s: State, step: Step, id: nat)
    requires Counts(s) && PendingOK(s) && CancelOK(s, id) && Enabled(s, step)
    ensures CancelOK(Next(s, step), id)
  {
  }

  ghost predicate Run(s: State, steps: seq<Step>, end: State)
    decreases |steps|
  {
    Counts(s) &&
    if steps == [] then end == s
    else Enabled(s, steps[0]) && Run(Next(s, steps[0]), steps[1..], end)
  }

  /** Safety over all runs: the wait group counts the running requests, no send follows
      the close, each answered request has exactly one response with its tag, pending
      holds only cancels of running requests, and only Tflush or completion cancels. */
  lemma {:induction false} RunKeepsInv(s: State, steps: seq<Step>, end: State)
    requires Inv(s) && Run(s, steps, end)
    ensures Inv(end)
    decreases |steps|
  {
    if steps == [] {
    } else {
      CountsKept(s, steps[0]);
      OneEachKept(s, steps[0]);
      PendingKept(s, steps[0]);
      CancelsKept(s, steps[0]);
      RunKeepsInv(Next(s, steps[0]), steps[1..], end);
    }
  }

  /** The response channel never holds more than it has room for. */
  lemma {:induction false} ChannelBounded(s: State, steps: seq<Step>, end: State)
    requires Run(s, steps, end) && |s.channel| <= 16
    ensures |end.channel| <= 16
    decreases |steps|
  {
    if steps == [] {
    } else {
      RoomKept(s, steps[0]);
      ChannelBounded(Next(s, steps[0]), steps[1..], end);
    }
  }

  lemma RoomKept(s: State, step: Step)
    requires Counts(s) && Enabled(s, step) && |s.channel| <= 16
    ensures |Next(s, step).channel| <= 16
  {
  }

  /** When Serve has closed the channel, every request it ever read has been answered
      exactly once, and nothing is left running or pending. */
  lemma ClosedIsComplete(steps: seq<Step>, end: State)
    requires Run(Start(), steps, end) && end.main == Closed
    ensures end.running == map[] && end.pending == map[] && end.wg == 0
    ensures |Responses(end)| == |end.tags|
    ensures forall id: nat :: id < |end.tags| ==> Response(id, end.tags[id]) in Responses(end)
  {
    RunKeepsInv(Start(), steps, end);
    assert forall t :: t !in end.pending;
    forall id: nat | id < |end.tags| ensures Response(id, end.tags[id]) in Responses(end) {
      assert Answered(end, id);
    }
    AllIds(Responses(end), |end.tags|, end.tags);
  }

  lemma AllIds(rs: seq<Response>, n: nat, tags: seq<nat>)
    requires n == |tags|
    requires forall i :: 0 <= i < |rs| ==> rs[i].id < n && rs[i].tag == tags[rs[i].id]
    requires forall i, j :: 0 <= i < j < |rs| ==> rs[i].id != rs[j].id
    requires forall id: nat :: id < n ==> Response(id, tags[id]) in rs
    ensures |rs| == n
  {
    var ids := set i | 0 <= i < |rs| :: rs[i].id;
    IdsCount(rs);
    assert ids == Below(n) by {
      forall id: nat | id < n ensures id in ids {
        var i :| 0 <= i < |rs| && rs[i] == Response(id, tags[id]);
        assert rs[i].id == id;
      }
    }
  }

  lemma {:induction false} IdsCount(rs: seq<Response>)
    requires forall i, j :: 0 <= i < j < |rs| ==> rs[i].id != rs[j].id
    ensures |set i | 0 <= i < |rs| :: rs[i].id| == |rs|
  {
    if rs == [] {
    } else {
      var front, last := rs[..|rs| - 1], rs[|rs| - 1];
      IdsCount(front);
      var a, b := set i | 0 <= i < |front| :: front[i].id, set i | 0 <= i < |rs| :: rs[i].id;
      assert b == a + {last.id} by {
        forall x | x in b ensures x in a + {last.id} {
          var i :| 0 <= i < |rs| && rs[i].id == x;
          if i < |front| { assert front[i].id == x; }
        }
        forall x | x in a ensures x in b {
          var i :| 0 <= i < |front| && front[i].id == x;
          assert rs[i].id == x;
        }
        assert rs[|rs| - 1].id in b;
      }
      assert last.id !in a;
    }
  }

  function Below(n: nat): (ids: set<nat>)
    ensures |ids| == n && forall x: nat :: x in ids <==> x < n
  {
    if n == 0 then {} else Below(n - 1) + {n - 1}
  }

  // ---- Tflush ------------------------------------------------------------

  /** Every running request still listed finds its own cancel under its tag. */
  ghost predicate Complete(s: State) {
    forall id :: id in s.running && id < |s.tags| && s.running[id] != Unlisted ==>
      s.tags[id] in s.pending && s.pending[s.tags[id]] == id
  }

  /** The tag belongs to a running request whose deferred delete has not run yet. */
  ghost predicate InUse(s: State, tag: nat) {
    exists id :: id in s.running && id < |s.tags| && s.tags[id] == tag && s.running[id] != Unlisted
  }

  /** Reading a request keeps the cancels complete exactly when its tag is not in use:
      a client that reuses a tag before the delete makes the older cancel unreachable. */
  lemma ReadKeepsCompleteIff(s: State, tag: nat)
    requires Inv(s) && Complete(s) && s.main == Reading
    ensures Complete(Next(s, Read(tag))) <==> !InUse(s, tag)
  {
    var n := Next(s, Read(tag));
    if InUse(s, tag) {
      var id :| id in s.running && id < |s.tags| && s.tags[id] == tag && s.running[id] != Unlisted;
      assert id in n.running && n.tags[id] == tag && n.running[id] == s.running[id];
      assert n.pending[tag] == |s.tags| != id;
    }
  }

  lemma OtherStepsKeepComplete(s: State, step: Step)
    requires Inv(s) && Complete(s) && Enabled(s, step) && !step.Read?
    ensures Complete(Next(s, step))
  {
    hide OneEach, CancelsOK, Responses, Answered, Next, Enabled;
    var n := Next(s, step);
    forall id | id in n.running && id < |n.tags| && n.running[id] != Unlisted
      ensures n.tags[id] in n.pending && n.pending[n.tags[id]] == id
    {
      CancelFound(s, step, id);
    }
  }

  lemma CancelFound(s: State, step: Step, id: nat)
    requires Inv(s) && Complete(s) && Enabled(s, step) && !step.Read?
    requires var n := Next(s, step); id in n.running && id < |n.tags| && n.running[id] != Unlisted
    ensures var n := Next(s, step); n.tags[id] in n.pending && n.pending[n.tags[id]] == id
  {
    hide OneEach, CancelsOK, Responses, Answered;
  }

  ghost predicate FreshTags(s: State, steps: seq<Step>)
    requires Counts(s)
    decreases |steps|
  {
    steps == [] ||
    (Enabled(s, steps[0]) && (steps[0].Read? ==> !InUse(s, steps[0].tag)) &&
     Counts(Next(s, steps[0])) && FreshTags(Next(s, steps[0]), steps[1..]))
  }

  /** If tags are distinct up to the deferred delete, then at any point a Tflush
      cancels exactly the running request with the old tag, if there is one. */
  lemma {:induction false} FlushIsExact(s: State, steps: seq<Step>, end: State, id: nat, oldtag: nat)
    requires Inv(s) && Complete(s) && Run(s, steps, end) && FreshTags(s, steps)
    requires Enabled(end, Flush(id, oldtag)) && Counts(end)
    ensures var n := Next(end, Flush(id, oldtag));
            forall x :: x in n.cancelled && x !in end.cancelled ==>
              x in end.running && x < |end.tags| && end.tags[x] == oldtag && end.running[x] != Unlisted
    ensures forall x :: x in end.running && x < |end.tags| && end.tags[x] == oldtag && end.running[x] != Unlisted ==>
              x in Next(end, Flush(id, oldtag)).cancelled
    decreases |steps|
  {
    if steps == [] {
    } else {
      var st := steps[0];
      CountsKept(s, st);
      OneEachKept(s, st);
      PendingKept(s, st);
      CancelsKept(s, st);
      if st.Read? { ReadKeepsCompleteIff(s, st.tag); } else { OtherStepsKeepComplete(s, st); }
      FlushIsExact(Next(s, st), steps[1..], end, id, oldtag);
    }
  }

  predicate Numbered(s: State) {
    forall id :: id in s.running ==> id < |s.tags|
  }

  lemma {:induction false} RunSnoc(s: State, steps: seq<Step>, mid: State, step: Step, end: State)
    requires Run(s, steps, mid) && Counts(mid) && Numbered(mid) && Enabled(mid, step) && end == Next(mid, step)
    ensures Run(s, steps + [step], end) && Counts(end) && Numbered(end)
    decreases |steps|
  {
    CountsKept(mid, step);
    if steps == [] {
      assert [step][1..] == [];
    } else {
      assert (steps + [step])[0] == steps[0] && (steps + [step])[1..] == steps[1..] + [step];
      RunSnoc(Next(s, steps[0]), steps[1..], mid, step, end);
    }
  }

  /** A request has been read and its goroutine started. */
  function Opened(s: State, tag: nat): State {
    var id := |s.tags|;
    s.(tags := s.tags + [tag], running := s.running[id := Handling], wg := s.wg + 1, pending := s.pending[tag := id])
  }

  lemma OpenSteps(s0: State, steps: seq<Step>, s: State, tag: nat)
    requires Run(s0, steps, s) && Counts(s) && Numbered(s) && s.main == Reading
    ensures Counts(Opened(s, tag)) && Numbered(Opened(s, tag))
    ensures Run(s0, steps + [Read(tag)] + [Spawn], Opened(s, tag))
  {
    hide Run, Counts;
    var s1 := Next(s, Read(tag));
    assert s1.running[|s.tags| := Handling] == Opened(s, tag).running;
    assert Numbered(s1) && Next(s1, Spawn) == Opened(s, tag);
    hide Next, Opened, Numbered;
    RunSnoc(s0, steps, s, Read(tag), s1);
    RunSnoc(s0, steps + [Read(tag)], s1, Spawn, Opened(s, tag));
  }

  /** A request has been handled and its response sent. */
  function Replied(s: State, id: nat): (r: State)
    requires id < |s.tags|
    ensures r.tags == s.tags
  {
    s.(running := s.running[id := Sent], channel := s.channel + [Response(id, s.tags[id])])
  }

  lemma ReplySteps(s0: State, steps: seq<Step>, s: State, id: nat)
    requires Run(s0, steps, s) && Counts(s) && Numbered(s) && At(s, id, Handling)
    requires s.main != Closed && |s.channel| < CAPACITY
    ensures Counts(Replied(s, id)) && Numbered(Replied(s, id))
    ensures Run(s0, steps + [Handle(id)] + [Send(id)], Replied(s, id))
  {
    hide Run, Counts;
    var s1 := Next(s, Handle(id));
    assert s1.running[id := Sent] == Replied(s, id).running;
    assert Numbered(s1) && Next(s1, Send(id)) == Replied(s, id);
    hide Next, Replied, Numbered;
    RunSnoc(s0, steps, s, Handle(id), s1);
    RunSnoc(s0, steps + [Handle(id)], s1, Send(id), Replied(s, id));
  }

  /** Its context is released and its tag deleted. */
  function Retired(s: State, id: nat): State
    requires id < |s.tags|
  {
    s.(running := s.running[id := Unlisted], cancelled := s.cancelled + {id}, pending := s.pending - {s.tags[id]})
  }

  lemma RetireSteps(s0: State, steps: seq<Step>, s: State, id: nat)
    requires Run(s0, steps, s) && Counts(s) && Numbered(s) && At(s, id, Sent)
    ensures Run(s0, steps + [Cancel(id)] + [Unlist(id)], Retired(s, id))
  {
    hide Run, Counts;
    var s1 := Next(s, Cancel(id));
    assert s1.running[id := Unlisted] == Retired(s, id).running;
    assert Numbered(s1) && Next(s1, Unlist(id)) == Retired(s, id);
    hide Next, Retired, Numbered;
    RunSnoc(s0, steps, s, Cancel(id), s1);
    RunSnoc(s0, steps + [Cancel(id)], s1, Unlist(id), Retired(s, id));
  }

  /** A run from the start in which a tag is reused: requests 0 and 1 carry tag 1, and
      the Tflush of tag 1 cancels the newer and misses the older. When the older one is
      done, its delete takes the newer one's cancel out as well, which no Tflush can
      reach any more. */
  lemma {:induction false} ReusedTag() returns (s: State, t: State)
    ensures Run(Start(), [] + [Read(1)] + [Spawn] + [Read(1)] + [Spawn] + [Read(2)] + [Spawn] + [Flush(2, 1)], s)
    ensures s.tags == [1, 1, 2] && At(s, 0, Handling) && At(s, 1, Handling) && s.cancelled == {1}
    ensures Run(s, [] + [Handle(0)] + [Send(0)] + [Cancel(0)] + [Unlist(0)], t)
    ensures At(t, 1, Handling) && 1 !in t.pending
  {
    hide Run, Counts, Opened, Next, Replied, Retired, Numbered, Start;
    s := ReuseRun();
    var s4 := Replied(s, 0);
    t := Retired(s4, 0);
    OlderRetired(s, s4, t);
    RunNothing(s);
    ReplySteps(s, [], s, 0);
    RetireSteps(s, [] + [Handle(0)] + [Send(0)], s4, 0);
  }

  lemma {:induction false} ReuseRun() returns (s: State)
    ensures Run(Start(), [] + [Read(1)] + [Spawn] + [Read(1)] + [Spawn] + [Read(2)] + [Spawn] + [Flush(2, 1)], s)
    ensures Counts(s) && Numbered(s) && s.main == Reading && s.channel == []
    ensures s.tags == [1, 1, 2] && At(s, 0, Handling) && At(s, 1, Handling) && s.cancelled == {1}
  {
    hide Run, Counts, Opened, Next, Numbered, Start;
    var s0 := Start();
    var s1 := Opened(s0, 1);
    var s2 := Opened(s1, 1);
    var s3 := Opened(s2, 2);
    ThreeOpened(s0, s1, s2, s3);
    s := Next(s3, Flush(2, 1));
    OpenSteps(s0, [], s0, 1);
    OpenSteps(s0, [] + [Read(1)] + [Spawn], s1, 1);
    OpenSteps(s0, [] + [Read(1)] + [Spawn] + [Read(1)] + [Spawn], s2, 2);
    RunSnoc(s0, [] + [Read(1)] + [Spawn] + [Read(1)] + [Spawn] + [Read(2)] + [Spawn], s3, Flush(2, 1), s);
  }

  lemma RunNothing(s: State)
    requires Counts(s)
    ensures Run(s, [], s)
  {
  }

  lemma ThreeOpened(s0: State, s1: State, s2: State, s3: State)
    requires s0 == Start() && s1 == Opened(s0, 1) && s2 == Opened(s1, 1) && s3 == Opened(s2, 2)
    ensures s0.main == s1.main == s2.main == s3.main == Reading && At(s3, 2, Handling) && Numbered(s3)
    ensures Counts(s0) && Numbered(s0) && Run(s0, [], s0)
    ensures var s := Next(s3, Flush(2, 1));
            && s.tags == [1, 1, 2] && At(s, 0, Handling) && At(s, 1, Handling) && s.cancelled == {1}
            && s.main == Reading && s.channel == []
  {
  }

  lemma OlderRetired(s: State, s4: State, t: State)
    requires s.tags == [1, 1, 2] && At(s, 1, Handling) && s4 == Replied(s, 0) && t == Retired(s4, 0)
    ensures At(s4, 0, Sent) && At(t, 1, Handling) && 1 !in t.pending
  {
  }

  // ---- the drain after the last read --------------------------------------

  function Weight(p: Phase): nat {
    match p
    case Registered => 7 case Handling => 6 case Handled => 5 case Sent => 3 case Released => 2 case Unlisted => 1
  }

  /** Work left in the first n requests. */
  function Work(running: map<nat, Phase>, n: nat): nat {
    if n == 0 then 0
    else Work(running, n - 1) + if n - 1 in running then Weight(running[n - 1]) else 0
  }

  function Left(s: State): nat {
    Work(s.running, |s.tags|) + |s.channel| + if s.main == Waiting then 1 else 0
  }

  lemma {:induction false} WorkChanges(a: map<nat, Phase>, b: map<nat, Phase>, id: nat, n: nat)
    requires forall x :: x != id ==> (x in a <==> x in b) && (x in a ==> a[x] == b[x])
    ensures Work(b, n) - Work(a, n) ==
            if id >= n then 0
            else (if id in b then Weight(b[id]) else 0) - (if id in a then Weight(a[id]) else 0)
  {
    if n > 0 { WorkChanges(a, b, id, n - 1); }
  }

  /** Serve has read its last request. */
  predicate Draining(s: State) {
    s.main == Waiting || s.main == Closed
  }

  /** After the last read every step makes progress. */
  lemma DrainDecreases(s: State, step: Step)
    requires Inv(s) && Draining(s) && Enabled(s, step)
    ensures Left(Next(s, step)) < Left(s) && Draining(Next(s, step))
  {
    var n := Next(s, step);
    match step
    case Handle(id) => WorkChanges(s.running, n.running, id, |s.tags|);
    case Flush(id, _) => WorkChanges(s.running, n.running, id, |s.tags|);
    case Send(id) => WorkChanges(s.running, n.running, id, |s.tags|);
    case Cancel(id) => WorkChanges(s.running, n.running, id, |s.tags|);
    case Unlist(id) => WorkChanges(s.running, n.running, id, |s.tags|);
    case Done(id) => WorkChanges(s.running, n.running, id, |s.tags|);
    case _ =>
  }

  /** And until it has closed some step is always possible, as long as handlers return:
      a full channel never blocks for good. */
  lemma NeverStuck(s: State) returns (step: Step)
    requires Inv(s) && s.main != Closed
    ensures Enabled(s, step)
  {
    if s.channel != [] {
      step := Write;
    } else if s.main == Reading {
      step := ReadFails;
    } else if s.main.Starting? {
      step := Spawn;
    } else if s.running == map[] {
      assert |s.running| == 0;
      step := WaitReturns;
    } else {
      var id :| id in s.running;
      match s.running[id]
      case Handling => step := Handle(id);
      case Handled => step := Send(id);
      case Sent => step := Cancel(id);
      case Released => step := Unlist(id);
      case _ => step := Done(id);
    }
  }

  /** So from the last read on Serve takes at most Left(s) steps. */
  lemma {:induction false} DrainBounded(s: State, steps: seq<Step>, end: State)
    requires Inv(s) && Draining(s) && Run(s, steps, end)
    ensures Inv(end) && Draining(end) && |steps| + Left(end) <= Left(s)
    decreases |steps|
  {
    hide Inv, Left, Enabled, Counts, Next;
    if steps == [] {
      NothingRun(s, end);
    } else {
      var n := FirstStep(s, steps, end);
      DrainDecreases(s, steps[0]);
      DrainBounded(n, steps[1..], end);
    }
  }

  lemma NothingRun(s: State, end: State)
    requires Run(s, [], end)
    ensures s == end
  {
  }

  lemma FirstStep(s: State, steps: seq<Step>, end: State) returns (n: State)
    requires Inv(s) && steps != [] && Run(s, steps, end)
    ensures Counts(s) && Enabled(s, steps[0]) && Numbered(s) && n == Next(s, steps[0])
    ensures Inv(n) && Run(n, steps[1..], end)
  {
    n := Next(s, steps[0]);
    var one := [steps[0]];
    assert one[1..] == [];
    CountsKept(s, steps[0]);
    RunNothing(n);
    assert Run(s, one, n);
    RunKeepsInv(s, one, n);
  }

  /** A run that cannot be extended has ended: Serve has closed, and the writer has taken
      the response to every request that was read, one for each. */
  lemma {:induction false} MaximalRunIsComplete(steps: seq<Step>, end: State)
    requires Run(Start(), steps, end) && forall step :: !Enabled(end, step)
    ensures end.main == Closed && end.channel == [] && end.running == map[] && end.pending == map[]
    ensures |end.wire| == |end.tags|
    ensures forall id: nat :: id < |end.tags| ==> Response(id, end.tags[id]) in end.wire
  {
    assert Inv(Start());
    RunKeepsInv(Start(), steps, end);
    if end.main != Closed {
      var step := NeverStuck(end);
    }
    assert !Enabled(end, Write);
    ClosedIsComplete(steps, end);
    assert Responses(end) == end.wire;
  }
}
