/** The mutable fid objects of one connection and the handlers that update them. */
module Connections {
  import opened Text
  import opened Paths
  import opened Transfer
  import opened Fids

  class Fid {
    var path: string
    var qid: Qid
    var mode: nat
    var writeBuf: string
    var waitBase: string

    constructor (path: string, qid: Qid)
      ensures State() == NewFid(path, qid)
    {
      this.path, this.qid, mode, writeBuf, waitBase := path, qid, 0, "", "";
    }

    function State(): FidState
      reads this
    {
      FidState(path, qid, mode, writeBuf, waitBase)
    }

    /** The accumulation step of Server.write: grow with zeros, then copy over. */
    method Accumulate(w: Chunk)
      modifies `writeBuf
      ensures writeBuf == Overlay(old(writeBuf), w)
    {
      var end := w.off + |w.data|;
      if end > |writeBuf| {
        writeBuf := writeBuf + seq(end - |writeBuf|, _ => '\0');
      }
      writeBuf := writeBuf[..w.off] + w.data + writeBuf[end..];
    }

    /** The body of the rename callback. */
    method Rewrite(old_: string, new_: string)
      modifies `path, `qid
      ensures State() == RewriteFid(old_, new_, old(State()))
      ensures qid.dir == old(qid.dir)
    {
      var oldPrefix, newPrefix := "/s/" + old_, "/s/" + new_;
      if path == oldPrefix || oldPrefix + "/" <= path {
        path := newPrefix + path[|oldPrefix|..];
        qid := Qid(qid.dir, QidPath(path));
      }
    }
  }

  class ConnState {
    var fids: map<nat, Fid>
    ghost var footprint: set<Fid>

    constructor ()
      ensures Valid() && View() == map[] && fresh(footprint)
    {
      fids := map[];
      footprint := {};
    }

    /** The objects in use, no two fid numbers sharing one. */
    ghost predicate Owned()
      reads this, footprint
    {
      && (forall k :: k in fids ==> fids[k] in footprint)
      && (forall i, j :: i in fids && j in fids && i != j ==> fids[i] != fids[j])
    }

    ghost function View(): Table
      requires Owned()
      reads this, footprint
    {
      map k | k in fids :: fids[k].State()
    }

    ghost predicate Valid()
      reads this, footprint
    {
      Owned() && TableOK(View())
    }

    /** Framing: the objects of other fids are as they were. */
    twostate predicate OthersSame(k: nat)
      reads this, footprint
    {
      && Owned() && old(Owned())
      && (forall j :: j != k ==> (j in fids <==> j in old(fids)))
      && (forall j :: j in fids && j != k ==> fids[j].State() == old(fids[j].State()))
    }

    twostate lemma OneChanged(k: nat)
      requires OthersSame(k) && k in fids
      ensures View() == old(View())[k := fids[k].State()]
    {
    }

    twostate lemma OneGone(k: nat)
      requires OthersSame(k) && k !in fids
      ensures View() == old(View()) - {k}
    {
    }

    /** cs.fids[k] = &fid{path, qid}: a new object under k. */
    method Bind(k: nat, path: string, qid: Qid)
      requires Owned()
      modifies this
      ensures Owned() && fresh(footprint - old(footprint))
      ensures View() == old(View())[k := NewFid(path, qid)]
    {
      var f := new Fid(path, qid);
      fids := fids[k := f];
      footprint := footprint + {f};
      OneChanged(k);
    }

    method Attach(k: nat)
      requires Valid()
      modifies this
      ensures Valid() && fresh(footprint - old(footprint))
      ensures View() == AttachTable(old(View()), k)
    {
      Bind(k, "/", Qid(true, 0));
    }

    /** Twalk: None is Rerror, otherwise the qids of the reply. */
    method Walk(k: nat, newfid: nat, names: seq<string>, ns: Namespace) returns (reply: Option<seq<Qid>>)
      requires Valid()
      modifies this
      ensures Valid() && fresh(footprint - old(footprint))
      ensures View() == WalkTable(old(View()), k, newfid, names, ns)
      ensures reply == WalkReply(old(View()), k, names, ns)
    {
      hide QidPath, WalkStep, WalkTo, Reach, WalkQids;
      ghost var t := View();
      ghost var t' := WalkTable(t, k, newfid, names, ns);
      if k !in fids {
        return None;
      }
      var f := fids[k];
      assert t[k] == f.State();
      if names == [] {
        assert t' == t[newfid := NewFid(f.path, f.qid)];
        Bind(newfid, f.path, f.qid);
        return Some([]);
      }
      var wqids, cur := WalkLoop(f.path, names, ns);
      reply := if |wqids| == 0 then None else Some(wqids);
      if |wqids| == |names| {
        assert t' == t[newfid := NewFid(cur, wqids[|wqids| - 1])] by {
          WalkQidAt(ns, f.path, names, |names| - 1);
          assert names[..|names|] == names;
        }
        Bind(newfid, cur, wqids[|wqids| - 1]);
      } else {
        assert t' == t;
      }
    }

    /** The loop of Server.walk. */
    static method WalkLoop(start: string, names: seq<string>, ns: Namespace) returns (wqids: seq<Qid>, cur: string)
      requires Absolute(start)
      ensures wqids == WalkQids(ns, start, names)
      ensures |wqids| == |names| ==> cur == WalkTo(start, names)
    {
      wqids, cur := [], start;
      var i := 0;
      while i < |names|
        invariant 0 <= i <= |names| && |wqids| == i
        invariant cur == WalkTo(start, names[..i]) && wqids == WalkQids(ns, start, names[..i])
      {
        var next := WalkStep(cur, names[i]);
        WalkTurn(ns, start, names, i);
        if ns(next) == Missing {
          return;
        }
        wqids := wqids + [Qid(ns(next) == Dir, QidPath(next))];
        cur := next;
        i := i + 1;
      }
      assert names[..i] == names;
    }

    method Open(k: nat, mode: nat) returns (ok: bool)
      requires Valid()
      modifies if k in fids then {fids[k]} else {}
      ensures Valid() && footprint == old(footprint)
      ensures ok == (k in old(View()))
      ensures View() == OpenTable(old(View()), k, mode)
    {
      ok := k in fids;
      if ok {
        fids[k].mode := mode;
        OneChanged(k);
      }
    }

    /** Tcreate; `stored` is what the store or MkdirAll answers if asked. */
    method Create(k: nat, name: string, mkdir: bool, mode: nat, stored: bool) returns (ok: bool)
      requires Valid()
      modifies if k in fids then {fids[k]} else {}
      ensures Valid() && footprint == old(footprint)
      ensures ok == (k in old(View()) && Creates(old(View())[k].path, mkdir, stored))
      ensures View() == CreateTable(old(View()), k, name, mkdir, mode, stored)
    {
      ghost var t := View();
      if k !in fids {
        return false;
      }
      var f := fids[k];
      assert t[k] == f.State();
      if mkdir {
        if !CanMkdir(f.path) || !stored {
          return false;
        }
      } else if CreatesEntry(f.path) && !stored {
        return false;
      }
      var newPath := PathJoin(f.path, name);
      hide QidPath, PathJoin, CreatesEntry, CanMkdir;
      assert CreateTable(t, k, name, mkdir, mode, stored) ==
             t[k := t[k].(path := newPath, qid := Qid(mkdir, QidPath(newPath)), mode := mode)];
      f.path := newPath;
      f.qid := Qid(mkdir, QidPath(newPath));
      f.mode := mode;
      OneChanged(k);
      ok := true;
    }

    method Write(k: nat, w: Chunk) returns (ok: bool)
      requires Valid() && w.off + |w.data| <= MAX_INT
      modifies if k in fids then {fids[k]} else {}
      ensures Valid() && footprint == old(footprint)
      ensures ok == (k in old(View()))
      ensures View() == WriteTable(old(View()), k, w)
    {
      if k !in fids {
        return false;
      }
      var f := fids[k];
      assert View()[k] == f.State();
      f.Accumulate(w);
      OneChanged(k);
      ok := true;
    }

    /** The end of a blocking read: the fid may be gone by then. */
    method SetWaitBase(k: nat, base: string)
      requires Valid()
      modifies if k in fids then {fids[k]} else {}
      ensures Valid() && footprint == old(footprint)
      ensures View() == WaitTable(old(View()), k, base)
    {
      if k in fids {
        fids[k].waitBase := base;
        OneChanged(k);
      }
    }

    /** The fid part of a Twstat rename outside /s. */
    method Wstat(k: nat, name: string, stored: bool)
      requires Valid()
      modifies if k in fids then {fids[k]} else {}
      ensures Valid() && footprint == old(footprint)
      ensures View() == WstatTable(old(View()), k, name, stored)
    {
      ghost var t := View();
      if k !in fids {
        return;
      }
      var f := fids[k];
      assert t[k] == f.State();
      var newPath := WstatPath(f.path, name);
      if newPath == None || !stored {
        return;
      }
      assert WstatTable(t, k, name, stored) ==
             t[k := t[k].(path := newPath.value, qid := Qid(t[k].qid.dir, QidPath(newPath.value)))];
      f.path := newPath.value;
      f.qid := Qid(f.qid.dir, QidPath(f.path));
      OneChanged(k);
    }

    /** Tclunk: what is handed to handleWrite, if anything. */
    method Clunk(k: nat) returns (flush: Option<(string, string)>)
      requires Valid()
      modifies this
      ensures Valid() && footprint == old(footprint)
      ensures View() == old(View()) - {k}
      ensures flush == Flush(old(View()), k)
      ensures flush.Some? <==> k in old(View()) && old(View())[k].mode % 4 in {1, 2}
    {
      flush := None;
      if k in fids {
        var f := fids[k];
        assert View()[k] == f.State();
        if f.mode % 4 == 1 || f.mode % 4 == 2 {
          flush := Some((f.path, TrimSpace(f.writeBuf)));
        }
        fids := fids - {k};
        OneGone(k);
      }
    }

    method Remove(k: nat) returns (path: Option<string>)
      requires Valid()
      modifies this
      ensures Valid() && footprint == old(footprint)
      ensures View() == old(View()) - {k}
      ensures path == if k in old(View()) then Some(old(View())[k].path) else None
    {
      path := None;
      if k in fids {
        assert View()[k] == fids[k].State();
        path := Some(fids[k].path);
        fids := fids - {k};
        OneGone(k);
      }
    }

    /** The inner loop of the rename callback. */
    method RewriteFids(old_: string, new_: string)
      requires Valid()
      modifies footprint
      ensures Valid() && footprint == old(footprint)
      ensures View() == RewriteTable(old_, new_, old(View()))
    {
      hide RewriteFid, QidPath, TableOK, Fid.State;
      ghost var t := View();
      var todo := fids.Keys;
      while todo != {}
        invariant todo <= fids.Keys && fids == old(fids) && Owned()
        invariant forall k :: k in fids ==>
                    fids[k].State() == if k in todo then t[k] else RewriteFid(old_, new_, t[k])
        decreases |todo|
      {
        var k :| k in todo;
        fids[k].Rewrite(old_, new_);
        todo := todo - {k};
      }
      assert View() == RewriteTable(old_, new_, t);
    }
  }
}
