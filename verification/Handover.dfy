/** Flushes on their way. Tclunk hands path and input over and frees the fid before
    handleWrite looks the path up, for some files in a goroutine of its own; until then
    any other step may come. */
module Handover {
  import opened Seqs
  import opened Text
  import opened Registry
  import opened World
  import Fids

  /** A call of handleWrite that has not looked its path up yet. */
  datatype Flight = Flight(path: string, input: string)

  /** One that has, with what it found. */
  datatype Delivery<S> = Delivery(flight: Flight, target: Target<S>)

  datatype Hub<!S(==)> = Hub(world: World<S>, flights: seq<Flight>, done: seq<Delivery<S>>)

  datatype Move<S> =
    | Does(action: Action<S>)
    | Deliver(i: nat)

  /** What an action hands over. */
  function Handed<S>(w: World<S>, a: Action<S>): seq<Flight> {
    match a
    case Request(conn, Clunk(k)) =>
      if conn < |w.conns| then
        match Fids.Flush(w.conns[conn], k)
        case Some((path, input)) => [Flight(path, input)]
        case None => []
      else []
    case _ => []
  }

  ghost function Moved<S>(h: Hub<S>, m: Move<S>): Hub<S>
    requires Good(h.world)
  {
    match m
    case Does(a) => Hub(Act(h.world, a), h.flights + Handed(h.world, a), h.done)
    case Deliver(i) =>
      if i < |h.flights| then
        var f := h.flights[i];
        Hub(h.world, h.flights[..i] + h.flights[i + 1..], h.done + [Delivery(f, Resolve(h.world.reg.sessions, f.path))])
      else h
  }

  lemma NextKeepsGood<S>(h: Hub<S>, m: Move<S>)
    requires Good(h.world)
    ensures Good(Moved(h, m).world)
  {
    hide Good;
    if m.Does? { ActKeepsGood(h.world, m.action); }
  }

  ghost function RunHub<S>(h: Hub<S>, moves: seq<Move<S>>): Hub<S>
    requires Good(h.world)
    decreases |moves|
  {
    if moves == [] then h
    else NextKeepsGood(h, moves[0]); RunHub(Moved(h, moves[0]), moves[1..])
  }

  /** Exactly the flushes an observer of the connection sees are handed over. */
  lemma HandedIsSeen<S>(w: World<S>, conn: nat, e: Fids.Event, path: string, input: string)
    requires Good(w) && conn < |w.conns|
    ensures Flight(path, input) in Handed(w, Request(conn, e)) <==>
            e.Clunk? && Fids.Flushed(e.fid, path, input) in Fids.See(w.conns[conn], e)
    ensures |Handed(w, Request(conn, e))| <= 1
  {
    hide Inv, Fids.Flush, Fids.TableOK;
  }

  // ---- nothing is lost or doubled on the way -----------------------------

  ghost function AllHanded<S>(h: Hub<S>, moves: seq<Move<S>>): seq<Flight>
    requires Good(h.world)
    decreases |moves|
  {
    if moves == [] then []
    else
      NextKeepsGood(h, moves[0]);
      (if moves[0].Does? then Handed(h.world, moves[0].action) else []) + AllHanded(Moved(h, moves[0]), moves[1..])
  }

  function Flown<S>(done: seq<Delivery<S>>): seq<Flight> {
    if done == [] then [] else Flown(done[..|done| - 1]) + [done[|done| - 1].flight]
  }

  lemma FlownSnoc<S>(done: seq<Delivery<S>>, d: Delivery<S>)
    ensures Flown(done + [d]) == Flown(done) + [d.flight]
  {
    SnocTake(done, d);
  }

  lemma RemoveAt<T>(s: seq<T>, i: nat)
    requires i < |s|
    ensures multiset(s[..i] + s[i + 1..]) + multiset{s[i]} == multiset(s)
  {
    assert s == s[..i] + [s[i]] + s[i + 1..];
  }

  lemma OneMove<S>(h: Hub<S>, m: Move<S>)
    requires Good(h.world)
    ensures var n := Moved(h, m);
            multiset(n.flights) + multiset(Flown(n.done)) ==
            multiset(h.flights) + multiset(Flown(h.done)) +
            multiset(if m.Does? then Handed(h.world, m.action) else [])
  {
    hide Good, Handed, Act, Resolve, Flown;
    if m.Deliver? && m.i < |h.flights| {
      var f := h.flights[m.i];
      RemoveAt(h.flights, m.i);
      FlownSnoc(h.done, Delivery(f, Resolve(h.world.reg.sessions, f.path)));
    }
  }

  /** Over any run every flush handed over is on its way or has been delivered, once. */
  lemma {:induction false} FlightsConserved<S>(h: Hub<S>, moves: seq<Move<S>>)
    requires Good(h.world)
    ensures var n := RunHub(h, moves);
            multiset(n.flights) + multiset(Flown(n.done)) ==
            multiset(h.flights) + multiset(Flown(h.done)) + multiset(AllHanded(h, moves))
    decreases |moves|
  {
    hide Good, Moved, Handed, Flown;
    if moves == [] {
    } else {
      NextKeepsGood(h, moves[0]);
      OneMove(h, moves[0]);
      FlightsConserved(Moved(h, moves[0]), moves[1..]);
    }
  }

  // ---- where a flush arrives ---------------------------------------------

  /** The registry steps of a run. */
  function RegSteps<S>(moves: seq<Move<S>>): seq<Step<S>> {
    if moves == [] then []
    else
      (match moves[0] case Does(Session(step)) => [step] case _ => []) + RegSteps(moves[1..])
  }

  lemma RegOfMove<S>(h: Hub<S>, m: Move<S>)
    requires Good(h.world)
    ensures Moved(h, m).world.reg ==
            match m case Does(Session(step)) => Next(h.world.reg, step) case _ => h.world.reg
  {
    hide Good, Next;
  }

  lemma {:induction false} RegOfRun<S>(h: Hub<S>, moves: seq<Move<S>>)
    requires Good(h.world)
    ensures RunHub(h, moves).world.reg == Run(h.world.reg, RegSteps(moves))
    decreases |moves|
  {
    hide Good, Moved, Next;
    if moves == [] {
    } else {
      NextKeepsGood(h, moves[0]);
      RegOfMove(h, moves[0]);
      RegOfRun(Moved(h, moves[0]), moves[1..]);
      TailOfConcat(match moves[0] case Does(Session(step)) => [step] case _ => [], RegSteps(moves[1..]));
    }
  }

  /** A flush of a fid that denoted a file of a session, delivered after any other moves,
      arrives at that file exactly when no kill, rename or insert displaced the session
      from its id meanwhile, or a rename brought it back to stay. A rename does not
      re-point it, as it does the fids. */
  lemma {:induction false} FlushReachesIff<S>(h: Hub<S>, conn: nat, k: nat, id: string, file: string, s: S,
                                             moves: seq<Move<S>>, i: nat)
    requires Good(h.world) && conn < |h.world.conns| && k in h.world.conns[conn]
    requires '/' !in id && AtId(h.world.reg, id, s)
    requires h.world.conns[conn][k].path == "/s/" + id + "/" + file && h.world.conns[conn][k].mode % 4 in {1, 2}
    ensures var clunked := Moved(h, Does(Request(conn, Fids.Clunk(k))));
            var flight := Flight("/s/" + id + "/" + file, TrimSpace(h.world.conns[conn][k].writeBuf));
            && clunked.flights == h.flights + [flight] && Good(clunked.world)
            && Resolve(clunked.world.reg.sessions, flight.path) == SessionFile(s, file)
            && var late := RunHub(clunked, moves);
               Good(late.world) &&
               (i < |late.flights| && late.flights[i] == flight ==>
                 Moved(late, Deliver(i)).done ==
                 late.done + [Delivery(flight, Resolve(late.world.reg.sessions, flight.path))]
                 && (Resolve(late.world.reg.sessions, flight.path) == SessionFile(s, file) <==>
                     var reg, steps := h.world.reg, RegSteps(moves);
                     Kept(reg, steps, id) || PutBack(reg, steps, id, s)))
  {
    var clunk: Move<S> := Does(Request(conn, Fids.Clunk(k)));
    var clunked := Moved(h, clunk);
    ClunkHands(h, conn, k);
    hide Good, Moved, Resolve, Next, Kept, PutBack, TrimSpace, Handed;
    NextKeepsGood(h, clunk);
    RegOfMove(h, clunk);
    RunKeepsGood(clunked, moves);
    RegOfRun(clunked, moves);
    var late := RunHub(clunked, moves);
    ResolveSession(h.world.reg.sessions, id, file);
    ResolveSession(late.world.reg.sessions, id, file);
    AtIdIff(h.world.reg, RegSteps(moves), id, s);
    if i < |late.flights| { DeliverAppends(late, i); }
  }

  lemma ClunkHands<S>(h: Hub<S>, conn: nat, k: nat)
    requires Good(h.world) && conn < |h.world.conns| && k in h.world.conns[conn]
    requires h.world.conns[conn][k].mode % 4 in {1, 2}
    ensures var f := h.world.conns[conn][k];
            Moved(h, Does(Request(conn, Fids.Clunk(k)))).flights == h.flights + [Flight(f.path, TrimSpace(f.writeBuf))]
  {
    hide Good, Act, TrimSpace;
  }

  lemma {:induction false} RunKeepsGood<S>(h: Hub<S>, moves: seq<Move<S>>)
    requires Good(h.world)
    ensures Good(RunHub(h, moves).world)
    decreases |moves|
  {
    hide Good, Moved;
    if moves == [] {
    } else {
      NextKeepsGood(h, moves[0]);
      RunKeepsGood(Moved(h, moves[0]), moves[1..]);
    }
  }

  lemma DeliverAppends<S>(h: Hub<S>, i: nat)
    requires Good(h.world) && i < |h.flights|
    ensures var f := h.flights[i];
            Moved(h, Deliver(i)).done == h.done + [Delivery(f, Resolve(h.world.reg.sessions, f.path))]
  {
    hide Good, Resolve;
  }

  /** At an input: a rename between the clunk and the delivery loses the write. */
  lemma {:induction false} RenameLosesFlush<S>(h: Hub<S>, a: S, input: string)
    requires Good(h.world) && h.world.reg.sessions == map["o" := a]
    requires h.flights == [Flight("/s/o/prompt", input)]
    ensures var renamed := Moved(h, Does(Session(Rename("o", "n", true))));
            && Good(renamed.world) && renamed.world.reg.sessions == map["n" := a]
            && Moved(renamed, Deliver(0)).done == h.done + [Delivery(Flight("/s/o/prompt", input), Elsewhere)]
  {
    hide Good, Moved, Resolve, Next;
    var rename: Move<S> := Does(Session(Rename("o", "n", true)));
    NextKeepsGood(h, rename);
    RegOfMove(h, rename);
    StepKeepsFlights(h, Rename("o", "n", true));
    RenameOne(h.world.reg, a);
    DeliverAppends(Moved(h, rename), 0);
    assert "/s/" + "o" + "/" + "prompt" == "/s/o/prompt";
    ResolveSession(Moved(h, rename).world.reg.sessions, "o", "prompt");
  }

  lemma StepKeepsFlights<S>(h: Hub<S>, step: Step<S>)
    requires Good(h.world)
    ensures var n := Moved(h, Does(Session(step))); n.flights == h.flights && n.done == h.done
  {
    hide Good, Act;
  }

  lemma RenameOne<S>(r: Registry<S>, a: S)
    requires r.sessions == map["o" := a]
    ensures Next(r, Rename("o", "n", true)).sessions == map["n" := a]
  {
  }

  /** At an input: two flushes of one client may be delivered in reverse order. */
  lemma {:induction false} FlushesReverse<S>(h: Hub<S>, f: Flight, g: Flight)
    requires Good(h.world) && h.flights == [f, g]
    ensures var first := Moved(h, Deliver(1));
            && Good(first.world) && Moved(first, Deliver(0)).flights == []
            && Flown(Moved(first, Deliver(0)).done) == Flown(h.done) + [g] + [f]
  {
    hide Resolve, Good;
    NextKeepsGood(h, Deliver(1));
    var first := Moved(h, Deliver(1));
    assert first.flights == [f];
    FlownSnoc(h.done, Delivery(g, Resolve(h.world.reg.sessions, g.path)));
    FlownSnoc(first.done, Delivery(f, Resolve(h.world.reg.sessions, f.path)));
  }
}
