/** The mutable session store and the server that ties it to the connections. */
module Server {
  import opened SessionLog
  import opened Sessions
  import opened Registry
  import opened Connections
  import World
  import Fids

  datatype Outcome = Ok | NotFound | Exists | Running | Refused | NoCwd | CoreFailed

  lemma FreshToken(used: set<nat>) returns (token: nat)
    ensures forall t :: t in used ==> t < token
    decreases |used|
  {
    if used == {} {
      token := 0;
    } else {
      var t :| t in used;
      var rest := FreshToken(used - {t});
      token := rest + t + 1;
      forall u | u in used ensures u < token { if u != t { assert u in used - {t}; } }
    }
  }

  /** A create that nothing interrupts. */
  function Created<S>(r: Registry<S>, id: string, s: S): Registry<S> {
    r.(sessions := r.sessions[id := s], ids := r.ids[s := id])
  }

  lemma CreatedIs<S>(r: Registry<S>, id: string, s: S)
    requires Inv(r) && id !in r.sessions && s !in r.ids
    ensures forall t :: t !in r.pending ==>
              Created(r, id, s) == Next(Next(r, CreateCheck(t, id)), CreateInsert(t, s))
  {
    forall t | t !in r.pending
      ensures Created(r, id, s) == Next(Next(r, CreateCheck(t, id)), CreateInsert(t, s))
    {
      assert r.pending[t := id] - {t} == r.pending;
    }
  }

  lemma CreatedFields<S>(r: Registry<S>, id: string, s: S)
    requires Inv(r) && id !in r.sessions && s !in r.ids
    ensures var q := Created(r, id, s);
            && Inv(q) && q.sessions == r.sessions[id := s] && q.ids == r.ids[s := id]
            && q.closes == r.closes && q.closes[s] == 0
  {
    CreatedIs(r, id, s);
    var t := FreshToken(r.pending.Keys);
    NextKeepsInv(r, CreateCheck(t, id));
    NextKeepsInv(Next(r, CreateCheck(t, id)), CreateInsert(t, s));
  }

  /** A kill that nothing interrupts. */
  function Killed<S>(r: Registry<S>, id: string): Registry<S> {
    if id in r.sessions then Next(Next(r, KillTake(id)), KillClose(r.sessions[id])) else r
  }

  lemma KilledFields<S>(r: Registry<S>, id: string)
    requires Inv(r)
    ensures var q := Killed(r, id);
            && Inv(q) && q.sessions == r.sessions - {id} && q.ids == r.ids
            && (id in r.sessions ==> r.sessions[id] in r.ids && r.ids[r.sessions[id]] == id)
            && (forall s :: s in r.ids ==> q.closes[s] == r.closes[s] + One(id in r.sessions && s == r.sessions[id]))
  {
    if id in r.sessions {
      NextKeepsInv(r, KillTake(id));
      NextKeepsInv(Next(r, KillTake(id)), KillClose(r.sessions[id]));
      assert Live(r, r.sessions[id]);
    } else {
      assert r.sessions - {id} == r.sessions;
    }
  }

  lemma KilledIs<S>(r: Registry<S>, id: string)
    requires Inv(r)
    ensures var q := Killed(r, id);
            && (forall s :: s in r.ids ==> (Live(q, s) <==> Live(r, s) && r.ids[s] != id))
            && (forall s :: s in r.ids ==> q.closes[s] == r.closes[s] + One(Live(r, s) && r.ids[s] == id))
  {
    KilledFields(r, id);
    hide Killed;
  }

  lemma RenamedFields<S>(r: Registry<S>, o: string, n: string)
    requires Inv(r) && Renames(r, o, n, true)
    ensures var q := Next(r, Rename(o, n, true));
            && Inv(q) && q.closes == r.closes
            && q.sessions == r.sessions[n := r.sessions[o]] - {o}
            && r.sessions[o] in r.ids && q.ids == r.ids[r.sessions[o] := n]
  {
    NextKeepsInv(r, Rename(o, n, true));
    assert Live(r, r.sessions[o]);
  }

  class SessionStore {
    var sessions: map<string, Session>
    ghost var reg: Registry<Session>

    constructor ()
      ensures Valid() && reg == Init() && sessions == map[]
    {
      sessions, reg := map[], Init();
    }

    /** The map is the ledger's map, every Session ever created carries its id, and it
        has been cancelled, and its core closed, as often as the ledger says. */
    ghost predicate Valid()
      reads this, reg.ids.Keys, set s | s in reg.ids :: s.core
    {
      && reg.sessions == sessions && Inv(reg)
      && (forall s :: s in reg.ids ==>
            s.id == reg.ids[s] && s.cancels == reg.closes[s] && s.core.closes == reg.closes[s])
      && forall s, t :: s in reg.ids && t in reg.ids && s != t ==> s.core != t.core
    }

    /** createSession after option parsing, run without interruption. */
    method CreateSession(id: string, cwd: string, coreOk: bool) returns (r: Outcome, sess: Session?)
      requires Valid()
      modifies this
      ensures Valid()
      ensures r == (if cwd == "" then NoCwd else if id in old(sessions) then Exists
                    else if !coreOk then CoreFailed else Ok)
      ensures r != Ok ==> reg == old(reg)
      ensures r == Ok ==> sess != null && fresh(sess) && sess.id == id && sess.LogState() == Log("", 0, 0)
                          && reg == Created(old(reg), id, sess)
    {
      sess := null;
      if cwd == "" {
        return NoCwd, null;
      }
      if id in sessions {
        return Exists, null;
      }
      if !coreOk {
        return CoreFailed, null;
      }
      var core := new Core(id);
      var s := new Session(id, core);
      Insert(id, s);
      r, sess := Ok, s;
    }

    method Insert(id: string, s: Session)
      requires Valid() && id !in sessions && s !in reg.ids && s.id == id && s.cancels == 0 && s.core.closes == 0
      requires forall t :: t in reg.ids ==> t.core != s.core
      modifies this
      ensures Valid() && reg == Created(old(reg), id, s)
    {
      hide Inv, Created, Next;
      ghost var q := Created(reg, id, s);
      CreatedFields(reg, id, s);
      sessions := sessions[id := s];
      reg := q;
    }

    method KillSession(id: string)
      requires Valid()
      modifies this, if id in sessions then {sessions[id] as object, sessions[id].core} else {}
      ensures Valid() && reg == Killed(old(reg), id)
      ensures id in old(sessions) ==> old(sessions)[id].core.closes == old(sessions[id].core.closes) + 1
    {
      hide Inv, Killed;
      KilledFields(reg, id);
      ghost var q := Killed(reg, id);
      if id in sessions {
        var sess := sessions[id];
        sessions := sessions - {id};
        sess.Cancel();
        sess.core.Close();
      }
      reg := q;
    }

    /** renameSession up to the callback: its four refusals, in order, and the map. */
    method RenameInMap(old_: string, new_: string) returns (r: Outcome, sess: Session?)
      requires Valid()
      modifies this, if old_ in sessions then {sessions[old_] as object, sessions[old_].core} else {}
      ensures Valid() && reg == Next(old(reg), Rename(old_, new_, r == Ok))
      ensures r == (if old_ !in old(sessions) then NotFound
                    else if new_ in old(sessions) then Exists
                    else if old(sessions[old_].core.running) then Running
                    else if old(sessions[old_].core.refusesID) then Refused
                    else Ok)
      ensures r == Ok ==> old_ in old(sessions) && sess == old(sessions)[old_]
                          && sess.id == new_ && sess.core.sessionID == new_
                          && sess.LogState() == old(sessions[old_].LogState())
                          && Renames(old(reg), old_, new_, true)
      ensures r != Ok ==> sessions == old(sessions) && sess == null
    {
      assert Next(reg, Rename(old_, new_, false)) == reg;
      hide Inv, Next;
      sess := null;
      if old_ !in sessions {
        return NotFound, null;
      }
      var s := sessions[old_];
      if new_ in sessions {
        return Exists, null;
      }
      if s.core.running {
        return Running, null;
      }
      var accepted := s.core.SetSessionID(new_);
      if !accepted {
        return Refused, null;
      }
      Move(s, old_, new_);
      r, sess := Ok, s;
    }

    method Move(s: Session, old_: string, new_: string)
      requires Valid() && Renames(reg, old_, new_, true) && s == sessions[old_]
      modifies this, s`id
      ensures Valid() && reg == Next(old(reg), Rename(old_, new_, true)) && s.id == new_
    {
      hide Inv, Next;
      RenamedFields(reg, old_, new_);
      s.id := new_;
      sessions := sessions[new_ := s] - {old_};
      reg := Next(reg, Rename(old_, new_, true));
    }

    method LogRename(sess: Session, old_: string, new_: string)
      requires Valid()
      modifies sess`log, sess`logVers
      ensures Valid() && reg == old(reg)
      ensures sess.LogState() ==
              Apply(old(sess.LogState()), Append(":: session renamed: " + old_ + " -> " + new_ + "\n"))
    {
      hide Inv, Apply;
      sess.AppendLog(":: session renamed: " + old_ + " -> " + new_ + "\n");
    }

    /** Shutdown with nothing else running: the map is empty, and exactly the sessions
        that were live have been cancelled and closed once more. */
    method Shutdown()
      requires Valid()
      modifies this, sessions.Values, set s | s in sessions.Values :: s.core
      ensures Valid() && sessions == map[]
      ensures forall s :: s in old(reg).ids ==>
                && s.cancels == old(s.cancels) + One(Live(old(reg), s))
                && s.core.closes == old(s.core.closes) + One(Live(old(reg), s))
    {
      var ids := sessions.Keys;
      hide Inv, Killed;
      while ids != {}
        invariant Valid() && reg.ids == old(reg).ids && sessions.Keys == ids
        invariant forall id :: id in sessions ==> id in old(sessions) && sessions[id] == old(sessions)[id]
        invariant forall s :: s in reg.ids ==>
                    && (Live(reg, s) ==> Live(old(reg), s))
                    && reg.closes[s] == old(reg).closes[s] + One(Live(old(reg), s) && !Live(reg, s))
        decreases ids
      {
        var id :| id in ids;
        KilledFields(reg, id);
        KilledIs(reg, id);
        hide Live;
        KillSession(id);
        ids := ids - {id};
      }
    }
  }

  class Server {
    const store: SessionStore
    var conns: seq<ConnState>
    ghost var fidObjects: set<Fid>  // at least the fid objects of all connections

    constructor ()
      ensures Valid() && fresh(store) && conns == [] && store.reg == Init()
    {
      store := new SessionStore();
      conns, fidObjects := [], {};
    }

    /** No two connections share a fid object. */
    ghost predicate Separate()
      reads this, conns
    {
      forall i, j :: 0 <= i < j < |conns| ==> conns[i] != conns[j] && conns[i].footprint !! conns[j].footprint
    }

    ghost predicate ConnsValid()
      reads this, conns, fidObjects
    {
      && Separate()
      && forall i :: 0 <= i < |conns| ==> conns[i].footprint <= fidObjects && conns[i].Valid()
    }

    ghost predicate Valid()
      reads this, conns, fidObjects, store, store.reg.ids.Keys, set s | s in store.reg.ids :: s.core
    {
      ConnsValid() && store.Valid()
    }

    ghost function Tables(): seq<Fids.Table>
      requires ConnsValid()
      reads this, conns, fidObjects
    {
      seq(|conns|, (i: nat)
        requires i < |conns| && conns[i].footprint <= fidObjects && conns[i].Owned()
        reads this, conns, fidObjects
        => conns[i].View())
    }

    /** The callback New installs: it walks all fids of all connections. */
    method OnRename(old_: string, new_: string)
      requires ConnsValid()
      modifies fidObjects
      ensures ConnsValid()
      ensures Tables() == World.RewriteTables(old_, new_, old(Tables()))
    {
      hide Fids.RewriteTable, Fids.TableOK, ConnState.View, ConnState.Owned;
      var i := 0;
      while i < |conns|
        invariant 0 <= i <= |conns| && Separate()
        invariant forall j :: 0 <= j < |conns| ==> conns[j].Valid() && conns[j].footprint == old(conns[j].footprint)
        invariant forall j :: 0 <= j < |conns| ==>
                    conns[j].View() == if j < i then Fids.RewriteTable(old_, new_, old(conns[j].View()))
                                       else old(conns[j].View())
      {
        conns[i].RewriteFids(old_, new_);
        i := i + 1;
      }
    }

    /** renameSession: the map, the callback under the same lock, then the log line.
        It is one atomic registry step of the world. */
    method RenameSession(old_: string, new_: string) returns (r: Outcome, sess: Session?)
      requires Valid()
      modifies store, fidObjects
      modifies if old_ in store.sessions then {store.sessions[old_] as object, store.sessions[old_].core} else {}
      ensures Valid()
      ensures World.World(store.reg, Tables()) ==
              World.RegAct(World.World(old(store.reg), old(Tables())), Rename(old_, new_, r == Ok))
      ensures r == Ok ==>
                && old_ in old(store.sessions) && sess == old(store.sessions)[old_] && sess.id == new_
                && sess.LogState() == Apply(old(store.sessions[old_].LogState()),
                                            Append(":: session renamed: " + old_ + " -> " + new_ + "\n"))
      ensures r != Ok ==> store.sessions == old(store.sessions)
    {
      hide Inv, Next, Apply, SessionStore.Valid, ConnState.View, ConnState.Owned, ConnState.Valid;
      r, sess := store.RenameInMap(old_, new_);
      assert ConnsValid() && Tables() == old(Tables());
      if r == Ok {
        OnRename(old_, new_);
        store.LogRename(sess, old_, new_);
      }
    }
  }
}
