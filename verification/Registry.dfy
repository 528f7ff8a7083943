/** The session registry as a step system: each step is one critical section of
    store/session.go, taken in any order by any number of goroutines. `S` is the
    identity of a Session object. */
module Registry {

  datatype Registry<!S(==)> = Registry(
    sessions: map<string, S>,     // SessionStore.sessions
    ids: map<S, string>,          // Session.id of every session ever created
    pending: map<nat, string>,    // creates between their check and their insert
    dying: set<S>,                // taken out by KillSession, not yet closed
    closes: multiset<S>,          // one entry for each Cancel and Core.Close
    overwritten: set<S>)          // replaced in the map by a racing insert

  function Init<S>(): Registry<S> {
    Registry(map[], map[], map[], {}, multiset{}, {})
  }

  datatype Step<S> =
    | CreateCheck(token: nat, id: string)            // session.go:341-346
    | CreateAbandon(token: nat)                      // NewCore or the backend fails
    | CreateInsert(token: nat, sess: S)              // session.go:393-398
    | KillTake(id: string)                           // session.go:270-273
    | KillClose(sess: S)                             // session.go:274-277
    | Rename(old_: string, new_: string, allowed: bool) // session.go:405-427

  /** A step that is not enabled, or whose check fails, changes nothing. */
  function Next<S>(r: Registry<S>, step: Step<S>): Registry<S> {
    match step
    case CreateCheck(t, id) =>
      if t in r.pending || id in r.sessions then r else r.(pending := r.pending[t := id])
    case CreateAbandon(t) => r.(pending := r.pending - {t})
    case CreateInsert(t, s) =>
      if t !in r.pending || s in r.ids then r
      else
        var id := r.pending[t];
        r.(sessions := r.sessions[id := s],
           ids := r.ids[s := id],
           pending := r.pending - {t},
           overwritten := r.overwritten + if id in r.sessions then {r.sessions[id]} else {})
    case KillTake(id) =>
      if id !in r.sessions then r
      else r.(sessions := r.sessions - {id}, dying := r.dying + {r.sessions[id]})
    case KillClose(s) =>
      if s !in r.dying then r
      else r.(dying := r.dying - {s}, closes := r.closes + multiset{s})
    case Rename(o, n, allowed) =>
      if !Renames(r, o, n, allowed) then r
      else
        var s := r.sessions[o];
        r.(sessions := r.sessions[n := s] - {o}, ids := r.ids[s := n])
  }

  /** renameSession gets past its checks; `allowed` stands for a core that is not
      running and accepts the new id. */
  predicate Renames<S>(r: Registry<S>, o: string, n: string, allowed: bool) {
    o in r.sessions && n !in r.sessions && allowed
  }

  function Run<S>(r: Registry<S>, steps: seq<Step<S>>): Registry<S>
    decreases steps
  {
    if steps == [] then r else Run(Next(r, steps[0]), steps[1..])
  }

  // ---- the ledger --------------------------------------------------------

  predicate Live<S>(r: Registry<S>, s: S) {
    s in r.ids && r.ids[s] in r.sessions && r.sessions[r.ids[s]] == s
  }

  function One(b: bool): nat { if b then 1 else 0 }

  predicate InOnePlace<S>(r: Registry<S>, s: S) {
    One(Live(r, s)) + One(s in r.dying) + r.closes[s] + One(s in r.overwritten) == 1
  }

  /** Every session in the map is stored under its own id, and every session ever
      created is in exactly one place: live, taken out, closed once, or overwritten. */
  ghost predicate Inv<S>(r: Registry<S>) {
    && (forall id :: id in r.sessions ==> Live(r, r.sessions[id]) && r.ids[r.sessions[id]] == id)
    && (forall s :: s in r.ids ==> InOnePlace(r, s))
    && r.dying <= r.ids.Keys && r.overwritten <= r.ids.Keys
    && (forall s :: s in r.closes ==> s in r.ids)
  }

  lemma InsertKeepsInv<S>(r: Registry<S>, t: nat, s: S)
    requires Inv(r) && t in r.pending && s !in r.ids
    ensures Inv(Next(r, CreateInsert(t, s)))
  {
    var q, id := Next(r, CreateInsert(t, s)), r.pending[t];
    assert r.closes[s] == 0;
    forall i | i in q.sessions ensures Live(q, q.sessions[i]) && q.ids[q.sessions[i]] == i {
      if i != id { assert Live(r, r.sessions[i]); }
    }
    forall x | x in q.ids ensures InOnePlace(q, x) {
      if x != s { assert InOnePlace(r, x); }
      if id in r.sessions { assert Live(r, r.sessions[id]); }
    }
  }

  lemma TakeKeepsInv<S>(r: Registry<S>, id: string)
    requires Inv(r) && id in r.sessions
    ensures Inv(Next(r, KillTake(id)))
  {
    var q := Next(r, KillTake(id));
    assert Live(r, r.sessions[id]);
    forall x | x in q.ids ensures InOnePlace(q, x) {
      assert InOnePlace(r, x);
    }
  }

  lemma CloseKeepsInv<S>(r: Registry<S>, s: S)
    requires Inv(r) && s in r.dying
    ensures Inv(Next(r, KillClose(s)))
  {
    var q := Next(r, KillClose(s));
    forall x | x in q.ids ensures InOnePlace(q, x) {
      assert InOnePlace(r, x);
      assert Live(q, x) == Live(r, x);
    }
  }

  lemma RenameKeepsInv<S>(r: Registry<S>, o: string, n: string)
    requires Inv(r) && Renames(r, o, n, true)
    ensures Inv(Next(r, Rename(o, n, true)))
  {
    var q, s := Next(r, Rename(o, n, true)), r.sessions[o];
    assert Live(r, s);
    forall x | x in q.ids ensures InOnePlace(q, x) {
      assert InOnePlace(r, x);
      assert Live(q, x) == Live(r, x);
    }
    forall i | i in q.sessions ensures Live(q, q.sessions[i]) && q.ids[q.sessions[i]] == i {
      if i != n { assert Live(r, r.sessions[i]); }
    }
  }

  lemma NextKeepsInv<S>(r: Registry<S>, step: Step<S>)
    requires Inv(r)
    ensures Inv(Next(r, step))
  {
    if Next(r, step) != r {
      match step
      case CreateInsert(t, s) => InsertKeepsInv(r, t, s);
      case KillTake(id) => TakeKeepsInv(r, id);
      case KillClose(s) => CloseKeepsInv(r, s);
      case Rename(o, n, allowed) => RenameKeepsInv(r, o, n);
      case _ => OtherKeepsInv(r, Next(r, step));
    }
  }

  /** Only `pending` differs. */
  lemma OtherKeepsInv<S>(r: Registry<S>, q: Registry<S>)
    requires Inv(r) && q == r.(pending := q.pending)
    ensures Inv(q)
  {
    assert forall x :: x in r.ids ==> InOnePlace(r, x) && Live(q, x) == Live(r, x);
  }

  /** The ledger over all runs and all interleavings. */
  lemma {:induction false} RunKeepsInv<S>(r: Registry<S>, steps: seq<Step<S>>)
    requires Inv(r)
    ensures Inv(Run(r, steps))
    decreases steps
  {
    if steps == [] {
    } else {
      NextKeepsInv(r, steps[0]);
      RunKeepsInv(Next(r, steps[0]), steps[1..]);
    }
  }

  /** What the ledger says about one session in any state a server can reach: closed
      at most once, never while it is in the map, and the map is injective. */
  lemma ReachableLedger<S>(steps: seq<Step<S>>, s: S)
    requires s in Run(Init(), steps).ids
    ensures var r := Run(Init<S>(), steps);
            && r.closes[s] <= 1
            && (r.closes[s] == 1 ==> s !in r.sessions.Values && s !in r.dying && s !in r.overwritten)
            && (r.closes[s] == 0 ==> s in r.sessions.Values || s in r.dying || s in r.overwritten)
            && (forall i, j :: i in r.sessions && j in r.sessions && r.sessions[i] == r.sessions[j] ==> i == j)
  {
    RunKeepsInv(Init<S>(), steps);
    var r := Run(Init<S>(), steps);
    if Live(r, s) {
      assert r.ids[s] in r.sessions;
    }
  }

  // ---- the create race ---------------------------------------------------

  /** The step puts a session under an id for which another create is between its
      check and its insert. */
  predicate Overlaps<S>(r: Registry<S>, step: Step<S>) {
    match step
    case CreateInsert(t, s) =>
      t in r.pending && s !in r.ids && exists u :: u in r.pending && u != t && r.pending[u] == r.pending[t]
    case Rename(o, n, allowed) =>
      Renames(r, o, n, allowed) && exists u :: u in r.pending && r.pending[u] == n
    case _ => false
  }

  predicate AnyOverlap<S>(r: Registry<S>, steps: seq<Step<S>>)
    decreases steps
  {
    steps != [] && (Overlaps(r, steps[0]) || AnyOverlap(Next(r, steps[0]), steps[1..]))
  }

  /** Every id a create has checked is still free. */
  predicate ChecksHold<S>(r: Registry<S>) {
    forall t :: t in r.pending ==> r.pending[t] !in r.sessions
  }

  /** The step inserts a session under an id that is taken by then. */
  predicate Meets<S>(r: Registry<S>, step: Step<S>) {
    step.CreateInsert? && step.token in r.pending && step.sess !in r.ids && r.pending[step.token] in r.sessions
  }

  predicate AnyTaken<S>(r: Registry<S>, steps: seq<Step<S>>)
    decreases steps
  {
    steps != [] && (Meets(r, steps[0]) || AnyTaken(Next(r, steps[0]), steps[1..]))
  }

  lemma {:induction false} OverwrittenGrows<S>(r: Registry<S>, steps: seq<Step<S>>)
    ensures r.overwritten <= Run(r, steps).overwritten
    decreases steps
  {
    if steps == [] {
    } else {
      OverwrittenGrows(Next(r, steps[0]), steps[1..]);
    }
  }

  /** The session that is replaced was live, so it had not been overwritten before. */
  lemma MeetsOverwrites<S>(r: Registry<S>, step: Step<S>)
    requires Inv(r)
    ensures Next(r, step).overwritten != r.overwritten <==> Meets(r, step)
  {
    if Meets(r, step) {
      var old_ := r.sessions[r.pending[step.token]];
      assert Live(r, old_) && InOnePlace(r, old_);
      assert old_ in Next(r, step).overwritten;
    }
  }

  /** A run loses a session exactly when some insert in it meets a taken id. */
  lemma {:induction false} RunLosesIff<S>(r: Registry<S>, steps: seq<Step<S>>)
    requires Inv(r)
    ensures Run(r, steps).overwritten != r.overwritten <==> AnyTaken(r, steps)
    decreases steps
  {
    if steps == [] {
    } else {
      var q := Next(r, steps[0]);
      NextKeepsInv(r, steps[0]);
      MeetsOverwrites(r, steps[0]);
      RunLosesIff(q, steps[1..]);
      OverwrittenGrows(q, steps[1..]);
      assert r.overwritten <= q.overwritten;
    }
  }

  /** Without an overlap of a create with a create or rename of the same id, no insert
      meets a taken id and no session is ever overwritten. */
  lemma {:induction false} NoOverlapNoLoss<S>(r: Registry<S>, steps: seq<Step<S>>)
    requires ChecksHold(r) && !AnyOverlap(r, steps)
    ensures !AnyTaken(r, steps) && Run(r, steps).overwritten == r.overwritten
    decreases steps
  {
    if steps == [] {
    } else {
      var q := Next(r, steps[0]);
      assert ChecksHold(q) && q.overwritten == r.overwritten;
      NoOverlapNoLoss(q, steps[1..]);
    }
  }

  // ---- which ids are in the map after a run ------------------------------

  /** The step takes the id out of the map if it is there. */
  predicate Removes<S>(r: Registry<S>, step: Step<S>, id: string) {
    match step
    case KillTake(i) => i == id
    case Rename(o, n, allowed) => o == id && Renames(r, o, n, allowed)
    case _ => false
  }

  /** The step puts a session under the id. */
  predicate Puts<S>(r: Registry<S>, step: Step<S>, id: string) {
    match step
    case CreateInsert(t, s) => t in r.pending && s !in r.ids && r.pending[t] == id
    case Rename(o, n, allowed) => n == id && Renames(r, o, n, allowed)
    case _ => false
  }

  /** No step of the run takes the id out. */
  predicate Stays<S>(r: Registry<S>, steps: seq<Step<S>>, id: string)
    decreases steps
  {
    steps == [] || (!Removes(r, steps[0], id) && Stays(Next(r, steps[0]), steps[1..], id))
  }

  /** Some step puts the id, and from then on it stays. */
  predicate PutForGood<S>(r: Registry<S>, steps: seq<Step<S>>, id: string)
    decreases steps
  {
    steps != [] &&
    ((Puts(r, steps[0], id) && Stays(Next(r, steps[0]), steps[1..], id))
     || PutForGood(Next(r, steps[0]), steps[1..], id))
  }

  /** One step: an id is there afterwards if it was put or was there and not removed. */
  lemma InMapNext<S>(r: Registry<S>, step: Step<S>, id: string)
    ensures id in Next(r, step).sessions <==> Puts(r, step, id) || (id in r.sessions && !Removes(r, step, id))
  {
  }

  /** The ids of the map after any run, from the run alone. */
  lemma {:induction false} InMapIff<S>(r: Registry<S>, steps: seq<Step<S>>, id: string)
    ensures id in Run(r, steps).sessions <==> (id in r.sessions && Stays(r, steps, id)) || PutForGood(r, steps, id)
    decreases steps
  {
    if steps == [] {
    } else {
      InMapNext(r, steps[0], id);
      InMapIff(Next(r, steps[0]), steps[1..], id);
      PutOverPut(r, steps[0], id);
    }
  }

  /** A step that puts an id does not remove it. */
  lemma PutOverPut<S>(r: Registry<S>, step: Step<S>, id: string)
    ensures !(Puts(r, step, id) && Removes(r, step, id))
  {
  }

  // ---- which session an id denotes after a run ---------------------------

  predicate AtId<S>(r: Registry<S>, id: string, s: S) {
    id in r.sessions && r.sessions[id] == s
  }

  /** The step takes the id away from its session, or replaces the session under it. */
  predicate Displaces<S>(r: Registry<S>, step: Step<S>, id: string) {
    Removes(r, step, id) || Puts(r, step, id)
  }

  /** The step puts this session under the id. */
  predicate PutsSession<S>(r: Registry<S>, step: Step<S>, id: string, s: S) {
    Puts(r, step, id) &&
    match step
    case CreateInsert(_, x) => x == s
    case Rename(o, _, _) => AtId(r, o, s)
    case _ => false
  }

  /** Nothing in the run displaces what the id denotes. */
  predicate Kept<S>(r: Registry<S>, steps: seq<Step<S>>, id: string)
    decreases steps
  {
    steps == [] || (!Displaces(r, steps[0], id) && Kept(Next(r, steps[0]), steps[1..], id))
  }

  /** Some step puts the session under the id, and from then on it is kept. */
  predicate PutBack<S>(r: Registry<S>, steps: seq<Step<S>>, id: string, s: S)
    decreases steps
  {
    steps != [] &&
    ((PutsSession(r, steps[0], id, s) && Kept(Next(r, steps[0]), steps[1..], id))
     || PutBack(Next(r, steps[0]), steps[1..], id, s))
  }

  lemma AtIdNext<S>(r: Registry<S>, step: Step<S>, id: string, s: S)
    ensures AtId(Next(r, step), id, s) <==> PutsSession(r, step, id, s) || (AtId(r, id, s) && !Displaces(r, step, id))
  {
  }

  /** The session an id denotes after any run, from the run alone. */
  lemma {:induction false} AtIdIff<S>(r: Registry<S>, steps: seq<Step<S>>, id: string, s: S)
    ensures AtId(Run(r, steps), id, s) <==> (AtId(r, id, s) && Kept(r, steps, id)) || PutBack(r, steps, id, s)
    decreases steps
  {
    hide Next, Displaces, PutsSession, AtId;
    if steps == [] {
    } else {
      AtIdNext(r, steps[0], id, s);
      AtIdIff(Next(r, steps[0]), steps[1..], id, s);
      PutDisplaces(r, steps[0], id, s);
    }
  }

  lemma PutDisplaces<S>(r: Registry<S>, step: Step<S>, id: string, s: S)
    ensures PutsSession(r, step, id, s) ==> Displaces(r, step, id)
  {
  }

  /** A session that exists already is put back by a rename only. */
  lemma PutBackIsRename<S>(r: Registry<S>, step: Step<S>, id: string, s: S)
    requires s in r.ids && PutsSession(r, step, id, s)
    ensures step.Rename? && step.new_ == id && AtId(r, step.old_, s)
  {
  }

  /** The steps are those of other creates, kills and renames. */
  predicate Others<S>(steps: seq<Step<S>>, token: nat) {
    forall i :: 0 <= i < |steps| ==>
      match steps[i]
      case CreateCheck(t, _) => t != token
      case CreateAbandon(t) => t != token
      case CreateInsert(t, _) => t != token
      case _ => true
  }

  lemma {:induction false} StaysPending<S>(r: Registry<S>, steps: seq<Step<S>>, token: nat)
    requires token in r.pending && Others(steps, token)
    ensures token in Run(r, steps).pending && Run(r, steps).pending[token] == r.pending[token]
    decreases steps
  {
    if steps == [] {
    } else {
      StaysPending(Next(r, steps[0]), steps[1..], token);
    }
  }

  /** One create, from its check to its insert: it costs another session its place
      exactly when in between a create or a rename put its id for good. */
  lemma {:induction false} CreateLosesIff<S>(r: Registry<S>, token: nat, id: string, between: seq<Step<S>>, s: S)
    requires Inv(r) && token !in r.pending && id !in r.sessions && Others(between, token)
    requires s !in Run(Next(r, CreateCheck(token, id)), between).ids
    ensures var checked := Next(r, CreateCheck(token, id));
            var q := Run(checked, between);
            Next(q, CreateInsert(token, s)).overwritten != q.overwritten <==> PutForGood(checked, between, id)
  {
    var checked := Next(r, CreateCheck(token, id));
    NextKeepsInv(r, CreateCheck(token, id));
    RunKeepsInv(checked, between);
    StaysPending(checked, between, token);
    InMapIff(checked, between, id);
    MeetsOverwrites(Run(checked, between), CreateInsert(token, s));
  }

  /** With an overlap a session is lost: it is neither live nor ever closed. */
  lemma RaceLosesSession<S>(a: S, b: S)
    requires a != b
    ensures var steps := [CreateCheck(0, "x"), CreateCheck(1, "x"), CreateInsert(0, a), CreateInsert(1, b)];
            var r := Run(Init(), steps);
            r.sessions == map["x" := b] && r.overwritten == {a} && a !in r.closes && a !in r.dying
  {
    var s0 := Init<S>();
    var s1 := Next(s0, CreateCheck(0, "x"));
    var s2 := Next(s1, CreateCheck(1, "x"));
    var s3 := Next(s2, CreateInsert(0, a));
    var s4 := Next(s3, CreateInsert(1, b));
    assert s4.sessions == map["x" := b] && s4.overwritten == {a};
    var e0, e1, e2, e3: Step<S> := CreateCheck(0, "x"), CreateCheck(1, "x"), CreateInsert(0, a), CreateInsert(1, b);
    assert [e0, e1, e2, e3][1..] == [e1, e2, e3];
    assert [e1, e2, e3][1..] == [e2, e3];
    assert [e2, e3][1..] == [e3];
    assert Run(s3, [e3]) == s4;
    assert Run(s2, [e2, e3]) == s4;
    assert Run(s1, [e1, e2, e3]) == s4;
  }

  // ---- shutdown ----------------------------------------------------------

  lemma {:induction false} KilledDoesNotStay<S>(r: Registry<S>, steps: seq<Step<S>>, id: string)
    requires KillTake(id) in steps
    ensures !Stays(r, steps, id)
    decreases steps
  {
    if steps[0] != KillTake(id) {
      KilledDoesNotStay(Next(r, steps[0]), steps[1..], id);
    }
  }

  /** Shutdown takes the ids it saw one by one, with any other steps in between. The
      sessions left are exactly those put for good by a create or rename meanwhile. */
  lemma {:induction false} ShutdownLeaves<S>(r: Registry<S>, steps: seq<Step<S>>)
    requires forall id :: id in r.sessions ==> KillTake(id) in steps
    ensures forall id :: id in Run(r, steps).sessions <==> PutForGood(r, steps, id)
    ensures Run(r, steps).sessions == map[] <==> forall id :: !PutForGood(r, steps, id)
  {
    var q := Run(r, steps);
    forall id ensures id in q.sessions <==> PutForGood(r, steps, id) {
      InMapIff(r, steps, id);
      if id in r.sessions {
        KilledDoesNotStay(r, steps, id);
      }
    }
    assert q.sessions == map[] <==> forall id :: id !in q.sessions;
  }

  /** The step neither creates nor renames. */
  predicate OnlyKills<S>(step: Step<S>) {
    !step.CreateInsert? && !step.Rename?
  }

  lemma {:induction false} NothingPut<S>(r: Registry<S>, steps: seq<Step<S>>, id: string)
    requires forall i :: 0 <= i < |steps| ==> OnlyKills(steps[i])
    ensures !PutForGood(r, steps, id)
    decreases steps
  {
    if steps == [] {
    } else {
      NothingPut(Next(r, steps[0]), steps[1..], id);
    }
  }

  /** In particular with other kills and failing creates alone the map is empty. */
  lemma {:induction false} ShutdownEmpties<S>(r: Registry<S>, steps: seq<Step<S>>)
    requires forall i :: 0 <= i < |steps| ==> OnlyKills(steps[i])
    requires forall id :: id in r.sessions ==> KillTake(id) in steps
    ensures Run(r, steps).sessions == map[]
  {
    ShutdownLeaves(r, steps);
    forall id ensures !PutForGood(r, steps, id) {
      NothingPut(r, steps, id);
    }
  }

  /** A rename between the snapshot and the kill lets a session survive Shutdown. */
  lemma RenameEscapesShutdown<S>(a: S)
    ensures var r := Registry(map["x" := a], map[a := "x"], map[], {}, multiset{}, {});
            Inv(r) && Run(r, [Rename("x", "y", true), KillTake("x")]).sessions == map["y" := a]
  {
    var r := Registry(map["x" := a], map[a := "x"], map[], {}, multiset{}, {});
    var e0, e1: Step<S> := Rename("x", "y", true), KillTake("x");
    assert [e0, e1][1..] == [e1];
    var q := Next(r, e0);
    assert q.sessions == map["y" := a];
    assert Run(q, [e1]) == Next(q, e1) == q;
  }
}
