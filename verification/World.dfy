/** The server as a whole: the session registry and the fid tables of every
    connection, under any interleaving of requests and registry steps. */
module World {
  import opened Text
  import opened Paths
  import opened Registry
  import Fids

  // ---- what a path denotes among the sessions ----------------------------

  datatype Target<S> = Elsewhere | SessionDir(sess: S) | SessionFile(sess: S, file: string)

  function Resolve<S>(sessions: map<string, S>, path: string): Target<S> {
    var parts := Parts(path);
    if parts[0] != "s" || |parts| < 2 then Elsewhere
    else if |parts| == 2 then
      if parts[1] in FIXED_FILES || parts[1] !in sessions then Elsewhere
      else SessionDir(sessions[parts[1]])
    else if parts[1] !in sessions then Elsewhere
    else SessionFile(sessions[parts[1]], parts[2])
  }

  /** The only paths that denote something of a session. */
  lemma ResolvedForm<S>(sessions: map<string, S>, path: string) returns (id: string)
    requires Absolute(path) && Resolve(sessions, path) != Elsewhere
    ensures '/' !in id && id in sessions
    ensures match Resolve(sessions, path)
            case SessionDir(s) => path == "/s/" + id && s == sessions[id] && id !in FIXED_FILES
            case SessionFile(s, f) => path == "/s/" + id + "/" + f && s == sessions[id]
  {
    hide Parts, FIXED_FILES;
    ResolvedParts(sessions, path);
    PartsForm(path);
    id := Parts(path)[1];
  }

  lemma ResolvedParts<S>(sessions: map<string, S>, path: string)
    requires Resolve(sessions, path) != Elsewhere
    ensures var parts := Parts(path); |parts| > 1 && parts[0] == "s" && parts[1] in sessions
    ensures |Parts(path)| == 2 || |Parts(path)| == 3
  {
    hide Parts, FIXED_FILES;
  }

  /** Splitting in two loses nothing, and only the last part can hold a separator. */
  lemma SplitTwo(t: string)
    ensures var parts := SplitN(t, '/', 2);
            && '/' !in parts[0]
            && t == if |parts| == 1 then parts[0] else parts[0] + "/" + parts[1]
  {
    var i := Index(t, '/');
    if i >= 0 {
      assert SplitN(t[i + 1..], '/', 1) == [t[i + 1..]];
      assert t == t[..i] + "/" + t[i + 1..];
    }
  }

  lemma PartsForm(path: string)
    requires Absolute(path) && |Parts(path)| > 1
    ensures var parts := Parts(path);
            && '/' !in parts[0] && '/' !in parts[1]
            && path == "/" + parts[0] + "/" + (if |parts| == 2 then parts[1] else parts[1] + "/" + parts[2])
  {
    var t, parts := path[1..], Parts(path);
    assert path == "/" + t && TrimPrefix(path, "/") == t;
    var i := Index(t, '/');
    var a, u := t[..i], t[i + 1..];
    assert parts == [a] + SplitN(u, '/', 2);
    SplitTwo(u);
    CutAt(t, i);
  }

  lemma CutAt(t: string, i: nat)
    requires i < |t| && t[i] == '/'
    ensures "/" + t == "/" + t[..i] + "/" + t[i + 1..]
  {
  }

  /** And back, for an id without a slash. */
  lemma ResolveSession<S>(sessions: map<string, S>, id: string, file: string)
    requires '/' !in id
    ensures Resolve(sessions, "/s/" + id) ==
            if id in FIXED_FILES || id !in sessions then Elsewhere else SessionDir(sessions[id])
    ensures Resolve(sessions, "/s/" + id + "/" + file) ==
            if id !in sessions then Elsewhere else SessionFile(sessions[id], file)
  {
    PartsOfSession(id, file);
    hide Parts;
  }

  lemma PartsOfSession(id: string, file: string)
    requires '/' !in id
    ensures Parts("/s/" + id) == ["s", id]
    ensures Parts("/s/" + id + "/" + file) == ["s", id, file]
  {
    hide Parts;
    var rest := id + "/" + file;
    assert "/s/" + id == "/" + "s" + "/" + id && "/s/" + id + "/" + file == "/" + "s" + "/" + rest;
    PartsBelow("s", id);
    PartsBelow("s", rest);
    SplitHead(id, file, 2);
    SplitHead(id, "", 2);
    assert SplitN(file, '/', 1) == [file];
    hide SplitN;
  }

  // ---- rename ------------------------------------------------------------

  /** Whether a handle lies below "/s/<o>" depends on its whole id. */
  lemma {:induction false} BelowIsSameId(o: string, id: string, file: string)
    requires '/' !in o && '/' !in id
    ensures "/s/" + o + "/" <= "/s/" + id + "/" + file ==> o == id
    ensures !("/s/" + o + "/" <= "/s/" + id)
    ensures "/s/" + o != "/s/" + id + "/" + file
    ensures "/s/" + o == "/s/" + id ==> o == id
  {
    var p, q, below := "/s/" + id, "/s/" + id + "/" + file, "/s/" + o + "/";
    assert p[3..] == id && ("/s/" + o)[3..] == o && below[3 + |o|] == '/';
    assert forall i :: 3 <= i < |p| ==> p[i] == id[i - 3];
    assert '/' in q[3..] by { assert q[3..][|id|] == '/'; }
    if below <= q {
      var tail := q[|below|..];
      assert q[3..] == o + ['/'] + tail && q[3..] == id + ['/'] + file;
      IndexAt(o, '/', tail);
      IndexAt(id, '/', file);
      assert q[3..][..|o|] == o && q[3..][..|id|] == id;
    }
  }

  /** The rename callback leaves a handle of another session alone, in particular
      one whose id merely extends the old id. */
  lemma OtherIdUntouched(o: string, n: string, id: string, file: string)
    requires '/' !in o && '/' !in id && id != o
    ensures Fids.RewritePath(o, n, "/s/" + id) == "/s/" + id
    ensures Fids.RewritePath(o, n, "/s/" + id + "/" + file) == "/s/" + id + "/" + file
  {
    BelowIsSameId(o, id, file);
  }

  predicate Injective<S(==)>(sessions: map<string, S>) {
    forall i, j :: i in sessions && j in sessions && sessions[i] == sessions[j] ==> i == j
  }

  function Renamed<S>(sessions: map<string, S>, o: string, n: string): map<string, S>
    requires o in sessions
  {
    sessions[n := sessions[o]] - {o}
  }

  /** The new id is one under which every kind of handle can be found again. */
  predicate GoodTarget<S>(n: string, t: Target<S>) {
    '/' !in n && (t.SessionDir? ==> n !in FIXED_FILES)
  }

  /** The heart of the rename: a handle that denoted something of a live session
      before denotes the same session and file afterwards. For handles of the renamed
      session that holds exactly when the new id has no slash and, for a handle on the
      session directory, is not one of the fixed /s names; nothing checks either. */
  lemma {:induction false} RenameKeepsTarget<S>(sessions: map<string, S>, o: string, n: string, path: string)
    requires o in sessions && n !in sessions && '/' !in o && Injective(sessions)
    requires Absolute(path) && Resolve(sessions, path) != Elsewhere
    ensures var before := Resolve(sessions, path);
            var after := Resolve(Renamed(sessions, o, n), Fids.RewritePath(o, n, path));
            after == before <==> before.sess != sessions[o] || GoodTarget(n, before)
  {
    hide Resolve, Parts;
    var id := ResolvedForm(sessions, path);
    var before := Resolve(sessions, path);
    var file := if before.SessionFile? then before.file else "";
    var sessions' := Renamed(sessions, o, n);
    if id != o {
      OtherIdUntouched(o, n, id, file);
      hide Fids.RewritePath;
      ResolveSession(sessions', id, file);
    } else {
      var path' := Fids.RewritePath(o, n, path);
      var prefix := "/s/" + o;
      if before.SessionFile? {
        assert path == prefix + "/" + file;
        assert path[|prefix|..] == "/" + file;
        assert path' == "/s/" + n + "/" + file;
      } else {
        assert path[|prefix|..] == "";
        assert path' == "/s/" + n;
      }
      if '/' !in n {
        ResolveSession(sessions', n, file);
      } else {
        SlashedIdLost(sessions, o, n, path');
      }
    }
  }

  /** The first component of an id with a slash in it. */
  function Head(id: string): string {
    var i := Index(id, '/');
    if i < 0 then id else id[..i]
  }

  /** A path that denoted nothing of a session denotes something after the rename. */
  predicate Awakens<S>(sessions: map<string, S>, o: string, n: string, path: string)
    requires o in sessions
  {
    if '/' in n then path == "/s/" + o && Head(n) in Renamed(sessions, o, n)
    else "/s/" + n + "/" <= path || (n !in FIXED_FILES && path in {"/s/" + n, "/s/" + o})
  }

  /** The other handles: exactly those come to denote something of a session that were
      left over under the new id, or that lie on a fixed file whose name was the old id.
      What they denote is the renamed session unless the new id has a slash. */
  lemma {:induction false} RenameAwakens<S>(sessions: map<string, S>, o: string, n: string, path: string)
    requires o in sessions && n !in sessions && '/' !in o && Injective(sessions)
    requires Absolute(path) && Resolve(sessions, path) == Elsewhere
    ensures var after := Resolve(Renamed(sessions, o, n), Fids.RewritePath(o, n, path));
            && (after != Elsewhere <==> Awakens(sessions, o, n, path))
            && (after != Elsewhere ==> (after.sess == sessions[o] <==> '/' !in n))
  {
    hide Resolve, Parts, Head;
    var sessions' := Renamed(sessions, o, n);
    if path == "/s/" + o {
      FixedAwakens(sessions, o, n);
    } else {
      BelowResolves(sessions, o, path);
      assert Fids.RewritePath(o, n, path) == path;
      NewIdAwakens(sessions, o, n, path);
    }
  }

  /** Every handle below a live session's directory denotes a file of it. */
  lemma BelowResolves<S>(sessions: map<string, S>, o: string, path: string)
    requires o in sessions && '/' !in o
    ensures "/s/" + o + "/" <= path ==> Resolve(sessions, path) != Elsewhere
  {
    hide Resolve;
    var below := "/s/" + o + "/";
    if below <= path {
      var file := path[|below|..];
      assert path == "/s/" + o + "/" + file;
      ResolveSession(sessions, o, file);
    }
  }

  lemma AfterHead(id: string) returns (file: string)
    requires '/' in id
    ensures '/' !in Head(id) && id == Head(id) + "/" + file
  {
    var k :| 0 <= k < |id| && id[k] == '/';
    var i := Index(id, '/');
    assert i >= 0;
    file := id[i + 1..];
  }

  lemma FixedAwakens<S>(sessions: map<string, S>, o: string, n: string)
    requires o in sessions && n !in sessions && '/' !in o && Injective(sessions)
    requires Resolve(sessions, "/s/" + o) == Elsewhere
    ensures var after := Resolve(Renamed(sessions, o, n), Fids.RewritePath(o, n, "/s/" + o));
            && (after != Elsewhere <==> Awakens(sessions, o, n, "/s/" + o))
            && (after != Elsewhere ==> (after.sess == sessions[o] <==> '/' !in n))
  {
    hide Resolve, Head;
    var sessions', path := Renamed(sessions, o, n), "/s/" + o;
    assert path[|path|..] == "" && "/s/" + n + "" == "/s/" + n;
    assert Fids.RewritePath(o, n, path) == "/s/" + n;
    if '/' in n {
      var file := AfterHead(n);
      var head := Head(n);
      assert "/s/" + n == "/s/" + head + "/" + file;
      ResolveSession(sessions', head, file);
      assert head != n;
    } else {
      ResolveSession(sessions', n, "");
      NotBelowItself(n, path, o);
    }
  }

  /** A session directory lies below no session directory. */
  lemma NotBelowItself(n: string, path: string, o: string)
    requires '/' !in o && '/' !in n && path == "/s/" + o
    ensures !("/s/" + n + "/" <= path)
  {
    BelowIsSameId(n, o, "");
  }

  lemma {:induction false} NewIdAwakens<S>(sessions: map<string, S>, o: string, n: string, path: string)
    requires o in sessions && n !in sessions && '/' !in o && Injective(sessions)
    requires Absolute(path) && Resolve(sessions, path) == Elsewhere && path != "/s/" + o
    ensures var after := Resolve(Renamed(sessions, o, n), path);
            && (after != Elsewhere <==> Awakens(sessions, o, n, path))
            && (after != Elsewhere ==> (after.sess == sessions[o] <==> '/' !in n))
  {
    hide Resolve, Head;
    var sessions' := Renamed(sessions, o, n);
    var after := Resolve(sessions', path);
    if after != Elsewhere {
      var id := ResolvedForm(sessions', path);
      var file := if after.SessionFile? then after.file else "";
      ResolveSession(sessions, id, file);
      assert id == n;
      assert after.SessionFile? ==> "/s/" + n + "/" <= path;
    }
    if '/' !in n {
      var below := "/s/" + n + "/";
      if below <= path {
        var file := path[|below|..];
        assert path == "/s/" + n + "/" + file;
        ResolveSession(sessions', n, file);
      } else if path == "/s/" + n {
        ResolveSession(sessions', n, "");
      }
    }
  }

  /** A stale handle on a file of the new id becomes one into the renamed session. */
  lemma StaleHandleAwakens<S>(a: S, file: string)
    ensures var before: map<string, S> := map["o" := a];
            && Resolve(before, "/s/n/" + file) == Elsewhere
            && Resolve(Renamed(before, "o", "n"), Fids.RewritePath("o", "n", "/s/n/" + file)) == SessionFile(a, file)
  {
    var before: map<string, S> := map["o" := a];
    hide Resolve;
    ResolveSession(before, "n", file);
    ResolveSession(Renamed(before, "o", "n"), "n", file);
    assert "/s/" + "n" + "/" + file == "/s/n/" + file;
    OtherIdUntouched("o", "n", "n", file);
  }

  /** Where it fails, at inputs: a new id with a slash loses the handles on the files of
      the session, and the name of a fixed file those on its directory. */
  lemma RenameLosesHandle<S>(a: S)
    ensures var before: map<string, S> := map["o" := a];
            && Resolve(before, "/s/o/chat") == SessionFile(a, "chat") && Resolve(before, "/s/o") == SessionDir(a)
            && Resolve(Renamed(before, "o", "x/y"), Fids.RewritePath("o", "x/y", "/s/o/chat")) == Elsewhere
            && Resolve(Renamed(before, "o", "new"), Fids.RewritePath("o", "new", "/s/o")) == Elsewhere
  {
    var before: map<string, S> := map["o" := a];
    hide Resolve;
    ResolveSession(before, "o", "chat");
    assert "/s/" + "o" + "/" + "chat" == "/s/o/chat" && "/s/" + "o" == "/s/o";
    var slashed, fixed := Renamed(before, "o", "x/y"), Renamed(before, "o", "new");
    assert "/s/o/chat"[|"/s/o"|..] == "/chat" && "/s/o"[|"/s/o"|..] == "";
    assert Fids.RewritePath("o", "x/y", "/s/o/chat") == "/s/x/y/chat";
    assert Fids.RewritePath("o", "new", "/s/o") == "/s/new";
    ResolveSession(slashed, "x", "y/chat");
    assert "/s/" + "x" + "/" + "y/chat" == "/s/x/y/chat";
    assert "x" !in slashed;
    ResolveSession(fixed, "new", "");
    assert "/s/" + "new" == "/s/new";
  }

  /** With a slash in it the new id cannot be found through any path. */
  lemma SlashedIdLost<S>(sessions: map<string, S>, o: string, n: string, path: string)
    requires o in sessions && n !in sessions && Injective(sessions) && '/' in n && Absolute(path)
    ensures var after := Resolve(Renamed(sessions, o, n), path);
            after == Elsewhere || after.sess != sessions[o]
  {
    var sessions' := Renamed(sessions, o, n);
    if Resolve(sessions', path) != Elsewhere {
      var id := ResolvedForm(sessions', path);
      assert id != n && id != o && sessions'[id] == sessions[id];
    }
  }

  // ---- the whole server --------------------------------------------------

  datatype World<!S(==)> = World(reg: Registry<S>, conns: seq<Fids.Table>)

  datatype Action<S> =
    | Connect
    | Disconnect(conn: nat)
    | Request(conn: nat, event: Fids.Event)
    | Session(step: Step<S>)

  ghost predicate Good<S>(w: World<S>) {
    && Inv(w.reg)
    && forall i :: 0 <= i < |w.conns| ==> Fids.TableOK(w.conns[i])
  }

  function RewriteTables(o: string, n: string, ts: seq<Fids.Table>): (r: seq<Fids.Table>)
    ensures |r| == |ts| && forall i :: 0 <= i < |ts| ==> r[i] == Fids.RewriteTable(o, n, ts[i])
  {
    seq(|ts|, (i: nat) requires i < |ts| => Fids.RewriteTable(o, n, ts[i]))
  }

  /** A registry step. A successful rename rewrites every table before it returns. */
  function RegAct<S>(w: World<S>, step: Step<S>): World<S> {
    World(Next(w.reg, step),
          if step.Rename? && Renames(w.reg, step.old_, step.new_, step.allowed)
          then RewriteTables(step.old_, step.new_, w.conns)
          else w.conns)
  }

  /** One atomic step. */
  ghost function Act<S>(w: World<S>, a: Action<S>): World<S>
    requires Good(w)
  {
    match a
    case Connect => w.(conns := w.conns + [map[]])
    case Disconnect(i) => if i < |w.conns| then w.(conns := w.conns[..i] + w.conns[i + 1..]) else w
    case Request(i, e) =>
      if i < |w.conns| && !e.Renamed? then w.(conns := w.conns[i := Fids.StepTable(w.conns[i], e)]) else w
    case Session(step) => RegAct(w, step)
  }

  /** A request changes the table of its own connection alone, a new connection starts
      without fids, and the end of one takes its fids with it; only a rename reaches
      several connections. */
  lemma {:induction false} ActsOnOwnTable<S>(w: World<S>, i: nat, e: Fids.Event)
    requires Good(w)
    ensures Act(w, Request(i, e)).reg == w.reg && |Act(w, Request(i, e)).conns| == |w.conns|
    ensures forall j :: 0 <= j < |w.conns| ==>
              Act(w, Request(i, e)).conns[j] ==
              if j == i && !e.Renamed? then Fids.StepTable(w.conns[j], e) else w.conns[j]
    ensures Act(w, Connect) == World(w.reg, w.conns + [map[]])
    ensures i < |w.conns| ==>
              var n := Act(w, Disconnect(i));
              && n.reg == w.reg && |n.conns| == |w.conns| - 1
              && forall j :: 0 <= j < |n.conns| ==> n.conns[j] == w.conns[if j < i then j else j + 1]
  {
    hide Inv, Fids.StepTable;
  }

  lemma ActKeepsGood<S>(w: World<S>, a: Action<S>)
    requires Good(w)
    ensures Good(Act(w, a))
  {
    if a.Session? { NextKeepsInv(w.reg, a.step); }
  }

  ghost function RunWorld<S>(w: World<S>, actions: seq<Action<S>>): World<S>
    requires Good(w)
    decreases |actions|
  {
    if actions == [] then w
    else ActKeepsGood(w, actions[0]); RunWorld(Act(w, actions[0]), actions[1..])
  }

  /** The whole-run invariant: in every state reached from an empty server by any
      interleaving of requests on any connections with registry steps, every fid has an
      absolute path and the qid of that path, every session is stored under its own id,
      and every session ever created is in exactly one place. */
  lemma {:induction false} WholeRunInvariant<S>(w: World<S>, actions: seq<Action<S>>)
    requires Good(w)
    ensures Good(RunWorld(w, actions))
    decreases |actions|
  {
    if actions == [] {
    } else {
      ActKeepsGood(w, actions[0]);
      WholeRunInvariant(Act(w, actions[0]), actions[1..]);
    }
  }

  // ---- with legal names --------------------------------------------------

  /** Clients and session options use one-component names, and no session takes the
      id of a fixed file. */
  ghost predicate LegalAction<S>(a: Action<S>) {
    match a
    case Request(_, e) => Fids.LegalEvent(e)
    case Session(CreateCheck(_, id)) => LegalId(id)
    case Session(Rename(_, n, _)) => LegalId(n)
    case _ => true
  }

  predicate LegalId(id: string) {
    LegalName(id) && id !in FIXED_FILES
  }

  ghost predicate LegalReg<S>(r: Registry<S>) {
    && (forall id :: id in r.sessions ==> LegalId(id))
    && (forall t :: t in r.pending ==> LegalId(r.pending[t]))
  }

  ghost predicate LegalConns(conns: seq<Fids.Table>) {
    forall i :: 0 <= i < |conns| ==> Fids.AllNormal(conns[i])
  }

  ghost predicate AllLegal<S>(w: World<S>) {
    LegalReg(w.reg) && LegalConns(w.conns)
  }

  lemma RegStepLegal<S>(r: Registry<S>, step: Step<S>)
    requires LegalReg(r) && LegalAction(Session(step))
    ensures LegalReg(Next(r, step))
  {
    hide LegalId;
  }

  lemma LegalStep<S>(w: World<S>, a: Action<S>)
    requires Good(w) && AllLegal(w) && LegalAction(a)
    ensures AllLegal(Act(w, a))
  {
    hide Fids.AllNormal, Fids.StepTable, Fids.RewriteTable, Fids.TableOK, Inv, Next;
    match a
    case Connect => NoFidsNormal();
    case Request(i, e) =>
      if i < |w.conns| && !e.Renamed? { Fids.StepKeepsNormal(w.conns[i], e); }
    case Session(step) =>
      RegStepLegal(w.reg, step);
      if step.Rename? && Renames(w.reg, step.old_, step.new_, step.allowed) {
        assert LegalId(step.old_);
        RenameLegal(w.conns, step.old_, step.new_);
      }
    case _ =>
  }

  lemma RenameLegal(conns: seq<Fids.Table>, o: string, n: string)
    requires LegalConns(conns) && LegalId(o) && LegalId(n)
    requires forall i :: 0 <= i < |conns| ==> Fids.TableOK(conns[i])
    ensures LegalConns(RewriteTables(o, n, conns))
  {
    hide Fids.AllNormal, Fids.RewriteTable, Fids.TableOK;
    forall i | 0 <= i < |conns| ensures Fids.AllNormal(Fids.RewriteTable(o, n, conns[i])) {
      Fids.StepKeepsNormal(conns[i], Fids.Renamed(o, n));
    }
  }

  lemma NoFidsNormal()
    ensures Fids.AllNormal(map[])
  {
  }

  lemma {:induction false} LegalRun<S>(w: World<S>, actions: seq<Action<S>>)
    requires Good(w) && AllLegal(w)
    requires forall i :: 0 <= i < |actions| ==> LegalAction(actions[i])
    ensures AllLegal(RunWorld(w, actions))
    decreases |actions|
  {
    if actions == [] {
    } else {
      ActKeepsGood(w, actions[0]);
      LegalStep(w, actions[0]);
      LegalRun(Act(w, actions[0]), actions[1..]);
    }
  }

  /** In a legal state a successful rename re-points every handle on every connection:
      same session object, same file. A handle in the session gets the new id in its path
      and the qid path of that, and keeps everything else: whether it is a directory, its
      open mode, its write buffer and its baseline. A fid outside the session keeps its
      whole state. */
  lemma RenameRepointsHandle<S>(w: World<S>, o: string, n: string, conn: nat, k: nat)
    requires Good(w) && AllLegal(w) && LegalAction<S>(Session(Rename(o, n, true)))
    requires Renames(w.reg, o, n, true) && conn < |w.conns| && k in w.conns[conn]
    ensures var w' := Act(w, Session(Rename(o, n, true)));
            var f, f' := w.conns[conn][k], w'.conns[conn][k];
            && f'.qid.path == Fids.QidPath(f'.path)
            && f'.qid.dir == f.qid.dir && f'.mode == f.mode && f'.writeBuf == f.writeBuf && f'.waitBase == f.waitBase
            && (f.path == "/s/" + o ==> f'.path == "/s/" + n)
            && ("/s/" + o + "/" <= f.path ==> f'.path == "/s/" + n + f.path[|"/s/" + o|..])
            && w'.conns[conn].Keys == w.conns[conn].Keys
            && (Resolve(w.reg.sessions, f.path) != Elsewhere ==>
                  Resolve(w'.reg.sessions, f'.path) == Resolve(w.reg.sessions, f.path))
            && (f.path != "/s/" + o && !("/s/" + o + "/" <= f.path) ==> f' == f)
  {
    hide Good, AllLegal, Act, Resolve, Inv, Next, Renames, Fids.RewriteFid, Fids.RewritePath, Fids.QidPath;
    var f := w.conns[conn][k];
    RenamedFid(w, o, n, conn, k);
    RewrittenFid(o, n, f);
    if Resolve(w.reg.sessions, f.path) != Elsewhere {
      RenameKeepsTarget(w.reg.sessions, o, n, f.path);
    }
  }

  lemma RenamedFid<S>(w: World<S>, o: string, n: string, conn: nat, k: nat)
    requires Good(w) && AllLegal(w) && LegalAction<S>(Session(Rename(o, n, true)))
    requires Renames(w.reg, o, n, true) && conn < |w.conns| && k in w.conns[conn]
    ensures o in w.reg.sessions && n !in w.reg.sessions && Injective(w.reg.sessions) && '/' !in o && '/' !in n
    ensures n !in FIXED_FILES && Absolute(w.conns[conn][k].path)
    ensures var w' := Act(w, Session(Rename(o, n, true)));
            && Good(w') && |w'.conns| == |w.conns| && w'.conns[conn].Keys == w.conns[conn].Keys
            && w'.conns[conn][k] == Fids.RewriteFid(o, n, w.conns[conn][k])
            && w'.reg.sessions == Renamed(w.reg.sessions, o, n)
            && w'.conns[conn][k].qid.path == Fids.QidPath(w'.conns[conn][k].path)
  {
    ActKeepsGood(w, Session(Rename(o, n, true)));
    hide Fids.RewriteFid, Fids.RewritePath, Fids.QidPath, InOnePlace, FIXED_FILES;
    var w' := Act(w, Session(Rename(o, n, true)));
    assert w'.conns[conn] == Fids.RewriteTable(o, n, w.conns[conn]);
    assert LegalId(o);
  }

  /** What the callback does to one fid. */
  lemma RewrittenFid(o: string, n: string, f: Fids.FidState)
    ensures var f' := Fids.RewriteFid(o, n, f);
            && f'.path == Fids.RewritePath(o, n, f.path)
            && f'.qid.dir == f.qid.dir && f'.mode == f.mode && f'.writeBuf == f.writeBuf && f'.waitBase == f.waitBase
            && (f.path == "/s/" + o ==> f'.path == "/s/" + n)
            && ("/s/" + o + "/" <= f.path ==> f'.path == "/s/" + n + f.path[|"/s/" + o|..])
            && (f.path != "/s/" + o && !("/s/" + o + "/" <= f.path) ==> f' == f)
  {
    hide Fids.QidPath;
    if f.path == "/s/" + o {
      assert f.path[|"/s/" + o|..] == "" && "/s/" + n + "" == "/s/" + n;
    }
  }

  /** So after any legal run of the server. */
  lemma RenameAfterAnyRun<S>(actions: seq<Action<S>>, o: string, n: string, conn: nat, k: nat) returns (w: World<S>)
    requires forall i :: 0 <= i < |actions| ==> LegalAction(actions[i])
    requires LegalAction<S>(Session(Rename(o, n, true)))
    ensures Good(World(Init<S>(), [])) && w == RunWorld(World(Init<S>(), []), actions) && Good(w)
    ensures Renames(w.reg, o, n, true) && conn < |w.conns| && k in w.conns[conn] ==>
              var w' := Act(w, Session(Rename(o, n, true)));
              Resolve(w.reg.sessions, w.conns[conn][k].path) != Elsewhere ==>
                Resolve(w'.reg.sessions, w'.conns[conn][k].path) == Resolve(w.reg.sessions, w.conns[conn][k].path)
  {
    var w0 := World(Init<S>(), []);
    w := RunWorld(w0, actions);
    WholeRunInvariant(w0, actions);
    LegalRun(w0, actions);
    if Renames(w.reg, o, n, true) && conn < |w.conns| && k in w.conns[conn] {
      RenameRepointsHandle(w, o, n, conn, k);
    }
  }
}
