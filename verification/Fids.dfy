/** The fid table of one connection: what each request does to it, walking as a
    fold, and what reaches handleWrite when fids are clunked. */
module Fids {
  import opened Seqs
  import opened Text
  import opened Paths
  import opened Transfer

  // ---- qids --------------------------------------------------------------

  /** Bitwise exclusive or of two numbers below 2^bits. */
  function Xor(a: nat, b: nat, bits: nat): nat {
    if bits == 0 then 0 else (a + b) % 2 + 2 * Xor(a / 2, b / 2, bits - 1)
  }

  /** 64-bit FNV-1a, as hash/fnv computes it. Nothing below depends on its values. */
  function Fnv1a(s: string): nat {
    if s == "" then 0xcbf2_9ce4_8422_2325
    else
      var h := Fnv1a(s[..|s| - 1]);
      ((h - h % 256 + Xor(h % 256, s[|s| - 1] as int % 256, 8)) * 0x100_0000_01b3) % 0x1_0000_0000_0000_0000
  }

  function QidPath(path: string): nat {
    if path == "/" then 0 else Fnv1a(path)
  }

  /** The published test vectors of 64-bit FNV-1a for "" and "a". */
  lemma Fnv1aVectors()
    ensures Fnv1a("") == 0xcbf2_9ce4_8422_2325 && Fnv1a("a") == 0xaf63_dc4c_8601_ec8c
  {
    XorVector();
    hide Xor;
    assert "a"[..0] == "" && Fnv1a("") % 256 == 0x25;
  }

  lemma XorVector()
    ensures Xor(0x25, 0x61, 8) == 0x44
  {
    assert Xor(1, 3, 3) == 2;
    assert Xor(2, 6, 4) == 4;
    assert Xor(4, 12, 5) == 8;
    assert Xor(9, 24, 6) == 17;
    assert Xor(18, 48, 7) == 34;
  }

  datatype Qid = Qid(dir: bool, path: nat)

  datatype FidState = FidState(path: string, qid: Qid, mode: nat, writeBuf: string, waitBase: string)

  type Table = map<nat, FidState>

  function NewFid(path: string, qid: Qid): FidState {
    FidState(path, qid, 0, "", "")
  }

  /** plan9.OWRITE is 1 and plan9.ORDWR is 2. */
  predicate Writable(mode: nat) {
    mode % 4 == 1 || mode % 4 == 2
  }

  // ---- walk --------------------------------------------------------------

  /** What pathType answers for a path. */
  datatype Kind = Missing | File | Dir

  type Namespace = string -> Kind

  function QidOf(ns: Namespace, path: string): Qid {
    Qid(ns(path) == Dir, QidPath(path))
  }

  function WalkStep(cur: string, name: string): (next: string)
    requires Absolute(cur)
    ensures Absolute(next)
  {
    if name == ".." then PathParent(cur) else PathJoin(cur, name)
  }

  /** Where the names lead, whether or not anything is there. */
  function WalkTo(cur: string, names: seq<string>): (next: string)
    requires Absolute(cur)
    ensures Absolute(next)
    decreases names
  {
    if names == [] then cur else WalkTo(WalkStep(cur, names[0]), names[1..])
  }

  /** How many of the names the server walks before one is missing. */
  function Reach(ns: Namespace, cur: string, names: seq<string>): (n: nat)
    requires Absolute(cur)
    ensures n <= |names|
    decreases names
  {
    if names == [] then 0
    else
      var next := WalkStep(cur, names[0]);
      if ns(next) == Missing then 0 else 1 + Reach(ns, next, names[1..])
  }

  lemma {:induction false} WalkToSplit(cur: string, a: seq<string>, b: seq<string>)
    requires Absolute(cur)
    ensures WalkTo(cur, a + b) == WalkTo(WalkTo(cur, a), b)
    decreases a
  {
    TailOfConcat(a, b);
    if a == [] {
    } else {
      WalkToSplit(WalkStep(cur, a[0]), a[1..], b);
    }
  }

  lemma {:induction false} ReachSplit(ns: Namespace, cur: string, a: seq<string>, b: seq<string>)
    requires Absolute(cur)
    ensures Reach(ns, cur, a + b) ==
            if Reach(ns, cur, a) < |a| then Reach(ns, cur, a) else |a| + Reach(ns, WalkTo(cur, a), b)
    decreases a
  {
    TailOfConcat(a, b);
    if a == [] {
    } else {
      ReachSplit(ns, WalkStep(cur, a[0]), a[1..], b);
    }
  }

  /** The reply covers the longest prefix along which every step exists. */
  lemma {:induction false} ReachIsLongest(ns: Namespace, cur: string, names: seq<string>)
    requires Absolute(cur)
    ensures forall i :: 0 < i <= Reach(ns, cur, names) ==> ns(WalkTo(cur, names[..i])) != Missing
    ensures Reach(ns, cur, names) < |names| ==>
              ns(WalkTo(cur, names[..Reach(ns, cur, names) + 1])) == Missing
    decreases names
  {
    if names == [] {
    } else {
      var next := WalkStep(cur, names[0]);
      ReachIsLongest(ns, next, names[1..]);
      forall i | 0 < i <= |names| ensures WalkTo(cur, names[..i]) == WalkTo(next, names[1..][..i - 1]) {
        assert names[..i][1..] == names[1..][..i - 1];
      }
    }
  }

  /** Walking on component lists: ".." drops the last one and stops at the root. */
  function Follow(cs: seq<string>, names: seq<string>): seq<string>
    decreases names
  {
    if names == [] then cs
    else if names[0] == ".." then Follow(if cs == [] then [] else cs[..|cs| - 1], names[1..])
    else Follow(cs + [names[0]], names[1..])
  }

  predicate WalkNames(names: seq<string>) {
    forall i :: 0 <= i < |names| ==> names[i] == ".." || LegalName(names[i])
  }

  /** From a normal path, legal names lead to the normal path of the folded
      components: the string operations never leave the tree. */
  lemma {:induction false} WalkFollows(cs: seq<string>, names: seq<string>)
    requires Legal(cs) && WalkNames(names)
    ensures Absolute(PathOf(cs)) && Legal(Follow(cs, names))
    ensures WalkTo(PathOf(cs), names) == PathOf(Follow(cs, names))
    decreases names
  {
    hide PathOf, Legal, LegalName, WalkStep;
    if names == [] {
      ParentAndBaseOf(cs);
    } else {
      var next := FollowStep(cs, names[0]);
      WalkFollows(next, names[1..]);
    }
  }

  lemma FollowStep(cs: seq<string>, name: string) returns (next: seq<string>)
    requires Legal(cs) && (name == ".." || LegalName(name))
    ensures next == if name != ".." then cs + [name] else if cs == [] then [] else cs[..|cs| - 1]
    ensures Absolute(PathOf(cs)) && Legal(next) && WalkStep(PathOf(cs), name) == PathOf(next)
  {
    ParentAndBaseOf(cs);
    if name == ".." {
      next := if cs == [] then [] else cs[..|cs| - 1];
    } else {
      JoinOf(cs, name);
      next := cs + [name];
    }
  }

  // ---- what each request does to the table -------------------------------

  predicate TableOK(t: Table) {
    forall k :: k in t ==> Absolute(t[k].path) && t[k].qid.path == QidPath(t[k].path)
  }

  function AttachTable(t: Table, k: nat): (t': Table)
    ensures TableOK(t) ==> TableOK(t')
  {
    t[k := NewFid("/", Qid(true, 0))]
  }

  function OpenTable(t: Table, k: nat, mode: nat): (t': Table)
    ensures TableOK(t) ==> TableOK(t')
  {
    if k in t then t[k := t[k].(mode := mode)] else t
  }

  function WriteTable(t: Table, k: nat, w: Chunk): (t': Table)
    ensures TableOK(t) ==> TableOK(t')
  {
    if k in t then t[k := t[k].(writeBuf := Overlay(t[k].writeBuf, w))] else t
  }

  function WaitTable(t: Table, k: nat, base: string): (t': Table)
    ensures TableOK(t) ==> TableOK(t')
  {
    if k in t then t[k := t[k].(waitBase := base)] else t
  }

  function WalkTable(t: Table, k: nat, newfid: nat, names: seq<string>, ns: Namespace): (t': Table)
    requires TableOK(t)
    ensures TableOK(t')
  {
    if k !in t || Reach(ns, t[k].path, names) < |names| then t
    else if names == [] then t[newfid := NewFid(t[k].path, t[k].qid)]
    else
      var path := WalkTo(t[k].path, names);
      t[newfid := NewFid(path, QidOf(ns, path))]
  }

  /** Two walks in a row are one walk of the joined names: they succeed together and
      leave the same new fid. */
  lemma WalkComposes(t: Table, k: nat, mid: nat, last: nat, a: seq<string>, b: seq<string>, ns: Namespace)
    requires TableOK(t) && k in t && Reach(ns, t[k].path, a) == |a|
    ensures TableOK(WalkTable(t, k, mid, a, ns))
    ensures var two := WalkTable(WalkTable(t, k, mid, a, ns), mid, last, b, ns);
            var one := WalkTable(t, k, last, a + b, ns);
            && (Reach(ns, WalkTo(t[k].path, a), b) == |b| <==> Reach(ns, t[k].path, a + b) == |a + b|)
            && (Reach(ns, t[k].path, a + b) == |a + b| ==> last in two && last in one && two[last] == one[last])
  {
    WalkToSplit(t[k].path, a, b);
    ReachSplit(ns, t[k].path, a, b);
    if b == [] { assert a + b == a; }
    if a == [] { assert a + b == b; }
  }

  /** The qids of the reply, one for each name walked. */
  function WalkQids(ns: Namespace, cur: string, names: seq<string>): (qids: seq<Qid>)
    requires Absolute(cur)
    ensures |qids| == Reach(ns, cur, names)
    decreases names
  {
    if names == [] then []
    else
      var next := WalkStep(cur, names[0]);
      if ns(next) == Missing then [] else [QidOf(ns, next)] + WalkQids(ns, next, names[1..])
  }

  /** One more name, seen from the start: where it leads and what it answers. */
  lemma {:induction false} WalkSnoc(ns: Namespace, cur: string, a: seq<string>, x: string)
    requires Absolute(cur) && Reach(ns, cur, a) == |a|
    ensures var next := WalkStep(WalkTo(cur, a), x);
            && WalkTo(cur, a + [x]) == next
            && WalkQids(ns, cur, a + [x]) ==
               WalkQids(ns, cur, a) + (if ns(next) == Missing then [] else [QidOf(ns, next)])
    decreases a
  {
    hide WalkStep, QidOf;
    if a == [] {
      assert a + [x] == [x] && [x][1..] == [];
    } else {
      var first, last := WalkStep(cur, a[0]), WalkStep(WalkTo(cur, a), x);
      TailOfConcat(a, [x]);
      WalkSnoc(ns, first, a[1..], x);
      Assoc([QidOf(ns, first)], WalkQids(ns, first, a[1..]), if ns(last) == Missing then [] else [QidOf(ns, last)]);
    }
  }

  /** The walk stops at the first missing name. */
  lemma {:induction false} WalkStops(ns: Namespace, cur: string, a: seq<string>, b: seq<string>)
    requires Absolute(cur) && Reach(ns, cur, a) == |a| && b != []
    requires ns(WalkStep(WalkTo(cur, a), b[0])) == Missing
    ensures WalkQids(ns, cur, a + b) == WalkQids(ns, cur, a)
    decreases a
  {
    TailOfConcat(a, b);
    if a == [] {
    } else {
      WalkStops(ns, WalkStep(cur, a[0]), a[1..], b);
    }
  }

  /** One turn of the walk loop. */
  lemma WalkTurn(ns: Namespace, start: string, names: seq<string>, i: nat)
    requires Absolute(start) && i < |names| && Reach(ns, start, names[..i]) == i
    ensures var next := WalkStep(WalkTo(start, names[..i]), names[i]);
            && WalkTo(start, names[..i + 1]) == next
            && (ns(next) == Missing ==> WalkQids(ns, start, names) == WalkQids(ns, start, names[..i]))
            && (ns(next) != Missing ==>
                  WalkQids(ns, start, names[..i + 1]) == WalkQids(ns, start, names[..i]) + [QidOf(ns, next)])
  {
    WalkSnoc(ns, start, names[..i], names[i]);
    TakeSnoc(names, i);
    if ns(WalkStep(WalkTo(start, names[..i]), names[i])) == Missing {
      WalkStops(ns, start, names[..i], names[i..]);
      TakeDrop(names, i);
    }
  }

  /** Rwalk or, as None, Rerror. */
  function WalkReply(t: Table, k: nat, names: seq<string>, ns: Namespace): Option<seq<Qid>>
    requires TableOK(t)
  {
    if k !in t || (names != [] && Reach(ns, t[k].path, names) == 0) then None
    else Some(WalkQids(ns, t[k].path, names))
  }

  /** Qid i of the reply is the qid of the file i + 1 names away. */
  lemma {:induction false} WalkQidAt(ns: Namespace, cur: string, names: seq<string>, i: nat)
    requires Absolute(cur) && i < Reach(ns, cur, names)
    ensures WalkQids(ns, cur, names)[i] == QidOf(ns, WalkTo(cur, names[..i + 1]))
    ensures WalkQids(ns, cur, names)[i].dir <==> ns(WalkTo(cur, names[..i + 1])) == Dir
    ensures WalkQids(ns, cur, names)[i].path == QidPath(WalkTo(cur, names[..i + 1]))
    decreases i
  {
    var next := WalkStep(cur, names[0]);
    assert names[..i + 1][1..] == names[1..][..i];
    if i > 0 {
      WalkQidAt(ns, next, names[1..], i - 1);
    }
  }

  /** create makes a store entry only under the writable directories; elsewhere it
      just points the fid at the new path. */
  predicate CreatesEntry(path: string) {
    path in {"/a", "/m", "/t", "/tmp", "/sk"} || Under("t", path)
  }

  predicate CanMkdir(path: string) {
    path == "/t" || Under("t", path)
  }

  /** `stored` is the answer of the store (or of MkdirAll) when it is asked. */
  predicate Creates(path: string, mkdir: bool, stored: bool) {
    if mkdir then CanMkdir(path) && stored else CreatesEntry(path) ==> stored
  }

  function CreateTable(t: Table, k: nat, name: string, mkdir: bool, mode: nat, stored: bool): (t': Table)
    ensures TableOK(t) ==> TableOK(t')
  {
    if k !in t || !Creates(t[k].path, mkdir, stored) then t
    else
      var path := PathJoin(t[k].path, name);
      t[k := t[k].(path := path, qid := Qid(mkdir, QidPath(path)), mode := mode)]
  }

  /** The path a wstat rename gives a fid outside /s, or None when it renames nothing. */
  function WstatPath(path: string, name: string): Option<string> {
    var old_ := PathBase(path);
    if name == "" || name == old_ then None
    else if Under("a", path) then Some("/a/" + name)
    else if Under("m", path) then Some("/m/" + name)
    else if Under("sk", path) then Some("/sk/" + name)
    else if Under("t", path) then
      assert path[2] == '/';
      var oldRel := path[3..];
      Some("/t/" + oldRel[..|oldRel| - |old_|] + name)
    else None
  }

  function WstatTable(t: Table, k: nat, name: string, stored: bool): (t': Table)
    ensures TableOK(t) ==> TableOK(t')
  {
    if k !in t || WstatPath(t[k].path, name) == None || !stored then t
    else
      var path := WstatPath(t[k].path, name).value;
      t[k := t[k].(path := path, qid := Qid(t[k].qid.dir, QidPath(path)))]
  }

  /** The rename callback on one path. */
  function RewritePath(old_: string, new_: string, path: string): string {
    var oldPrefix := "/s/" + old_;
    if path == oldPrefix || oldPrefix + "/" <= path then "/s/" + new_ + path[|oldPrefix|..] else path
  }

  function RewriteFid(old_: string, new_: string, f: FidState): FidState {
    var path := RewritePath(old_, new_, f.path);
    if path == f.path && !(f.path == "/s/" + old_ || "/s/" + old_ + "/" <= f.path) then f
    else f.(path := path, qid := f.qid.(path := QidPath(path)))
  }

  function RewriteTable(old_: string, new_: string, t: Table): (t': Table)
    ensures TableOK(t) ==> TableOK(t')
  {
    map k | k in t :: RewriteFid(old_, new_, t[k])
  }

  datatype Event =
    | Attach(fid: nat)
    | Walk(fid: nat, newfid: nat, names: seq<string>, ns: Namespace)
    | Open(fid: nat, mode: nat)
    | Create(fid: nat, name: string, mkdir: bool, mode: nat, stored: bool)
    | Write(fid: nat, chunk: Chunk)
    | WaitRead(fid: nat, base: string)
    | Wstat(fid: nat, name: string, stored: bool)
    | Clunk(fid: nat)
    | Remove(fid: nat)
    | Renamed(old_: string, new_: string)  // some session, on any connection

  /** Every fid keeps an absolute path and the qid of exactly that path, whatever
      names clients send and whatever the stores answer. */
  function StepTable(t: Table, e: Event): (t': Table)
    requires TableOK(t)
    ensures TableOK(t')
  {
    match e
    case Attach(k) => AttachTable(t, k)
    case Walk(k, n, names, ns) => WalkTable(t, k, n, names, ns)
    case Open(k, mode) => OpenTable(t, k, mode)
    case Create(k, name, mkdir, mode, stored) => CreateTable(t, k, name, mkdir, mode, stored)
    case Write(k, w) => WriteTable(t, k, w)
    case WaitRead(k, base) => WaitTable(t, k, base)
    case Wstat(k, name, stored) => WstatTable(t, k, name, stored)
    case Clunk(k) => t - {k}
    case Remove(k) => t - {k}
    case Renamed(o, n) => RewriteTable(o, n, t)
  }

  // ---- normal paths ------------------------------------------------------

  ghost predicate AllNormal(t: Table) {
    forall k :: k in t ==> Normal(t[k].path)
  }

  /** Names a well-behaved client and a legal rename use. */
  predicate LegalEvent(e: Event) {
    match e
    case Walk(_, _, names, _) => WalkNames(names)
    case Create(_, name, _, _, _) => LegalName(name)
    case Wstat(_, name, _) => name == "" || LegalName(name)
    case Renamed(o, n) => LegalName(o) && LegalName(n)
    case _ => true
  }

  /** A wstat rename leads to a sibling exactly for a path with two components or
      under /t; a deeper path under /a, /m or /sk, which only Tcreate on a file can
      produce, comes out directly under its top directory. */
  lemma {:induction false} WstatPathNormal(cs: seq<string>, name: string)
    requires Legal(cs) && LegalName(name) && WstatPath(PathOf(cs), name).Some?
    ensures |cs| >= 2 && cs[0] in {"a", "m", "sk", "t"}
    ensures WstatPath(PathOf(cs), name).value ==
            PathOf(if cs[0] == "t" then cs[..|cs| - 1] + [name] else [cs[0], name])
    ensures WstatPath(PathOf(cs), name).value == PathOf(cs[..|cs| - 1] + [name])
            <==> |cs| == 2 || cs[0] == "t"
  {
    WstatTop(cs, name);
    hide WstatPath, PathOf, Body;
    TwoComponents(cs[0], name);
    var sibling := cs[..|cs| - 1] + [name];
    assert Legal(sibling);
    if cs[0] == "t" {
      WstatTool(cs, name);
    } else {
      if |cs| == 2 { assert sibling == [cs[0], name]; }
      if PathOf(sibling) == PathOf([cs[0], name]) { PathOfInjective(sibling, [cs[0], name]); }
    }
  }

  lemma {:induction false} WstatTop(cs: seq<string>, name: string)
    requires Legal(cs) && WstatPath(PathOf(cs), name).Some?
    ensures |cs| >= 2 && cs[0] in {"a", "m", "sk", "t"} && Under(cs[0], PathOf(cs))
    ensures cs[0] != "t" ==> WstatPath(PathOf(cs), name).value == "/" + cs[0] + "/" + name
    ensures cs[0] == "t" ==>
              var rel, old_ := PathOf(cs)[3..], PathBase(PathOf(cs));
              |old_| <= |rel| && WstatPath(PathOf(cs), name).value == "/t/" + rel[..|rel| - |old_|] + name
  {
    BaseFits(PathOf(cs));
    hide PathBase, PathOf, Body, Legal;
    UnderDirectory(cs, "a");
    UnderDirectory(cs, "m");
    UnderDirectory(cs, "sk");
    UnderDirectory(cs, "t");
    assert "/" + "a" + "/" == "/a/" && "/" + "m" + "/" == "/m/" && "/" + "sk" + "/" == "/sk/";
  }

  lemma BaseFits(path: string)
    ensures Under("t", path) ==> |PathBase(path)| <= |path| - 3
  {
    if Under("t", path) { assert path[2] == '/'; }
  }

  /** Under /t the new path keeps the parent. */
  lemma {:induction false} WstatTool(cs: seq<string>, name: string)
    requires Legal(cs) && |cs| >= 2 && Under("t", PathOf(cs))
    ensures var rel, old_ := PathOf(cs)[3..], PathBase(PathOf(cs));
            |old_| <= |rel| &&
            "/t/" + rel[..|rel| - |old_|] + name == PathOf(cs[..|cs| - 1] + [name])
  {
    hide PathBase, PathParent, PathOf, Body, Under, Legal;
    ParentAndBaseOf(cs);
    var front, old_ := cs[..|cs| - 1], cs[|cs| - 1];
    FrontBody(cs);
    PathSnoc(front, name);
    PathSnoc(front, old_);
    KeepParent(PathOf(cs), Body(front), old_, name);
  }

  lemma FrontBody(cs: seq<string>)
    requires Legal(cs) && |cs| >= 2
    ensures cs == cs[..|cs| - 1] + [cs[|cs| - 1]] && |Body(cs[..|cs| - 1])| >= 2
  {
    BodyHead(cs[..|cs| - 1]);
  }

  lemma PathSnoc(front: seq<string>, name: string)
    ensures PathOf(front + [name]) == Body(front) + "/" + name
  {
    SnocTake(front, name);
  }

  lemma KeepParent(p: string, parent: string, old_: string, name: string)
    requires p == parent + "/" + old_ && |parent| >= 2 && Under("t", p)
    ensures |old_| <= |p[3..]|
    ensures "/t/" + p[3..][..|p[3..]| - |old_|] + name == parent + "/" + name
  {
    var n := |p| - |old_|;
    assert p[..n] == parent + "/";
    assert p[..3] == "/t/";
    assert p[..n] == p[..3] + p[3..n];
    assert p[3..][..n - 3] == p[3..n];
  }

  lemma {:induction false} RewritePathNormal(old_: string, new_: string, cs: seq<string>)
    requires Legal(cs) && LegalName(old_) && LegalName(new_)
    ensures RewritePath(old_, new_, PathOf(cs)) ==
            PathOf(if |cs| >= 2 && cs[0] == "s" && cs[1] == old_ then cs[1 := new_] else cs)
  {
    var path, prefix := PathOf(cs), "/s/" + old_;
    if |cs| >= 2 && cs[0] == "s" && cs[1] == old_ {
      BelowSession(old_, cs[2..]);
      BelowSession(new_, cs[2..]);
      assert cs == ["s", old_] + cs[2..] && cs[1 := new_] == ["s", new_] + cs[2..];
      if |cs| > 2 { BodyHead(cs[2..]); assert prefix + "/" <= path; }
      assert path[|prefix|..] == Body(cs[2..]);
    } else {
      NotBelowSession(old_, cs);
    }
  }

  /** Ids that merely extend the old one as strings do not match. */
  lemma {:induction false} NotBelowSession(old_: string, cs: seq<string>)
    requires Legal(cs) && LegalName(old_)
    requires !(|cs| >= 2 && cs[0] == "s" && cs[1] == old_)
    ensures PathOf(cs) != "/s/" + old_ && !("/s/" + old_ + "/" <= PathOf(cs))
  {
    var path, below := PathOf(cs), "/s/" + old_ + "/";
    TwoComponents("s", old_);
    if path == "/s/" + old_ {
      PathOfInjective(cs, ["s", old_]);
    }
    if below <= path {
      assert Under("s", path) by { assert "/" + "s" + "/" == below[..3]; }
      UnderDirectory(cs, "s");
      var rest := cs[1..];
      BodyFront(cs[0], rest);
      assert cs == [cs[0]] + rest;
      assert path == "/s" + PathOf(rest) && below == "/s" + ("/" + old_ + "/");
      PrefixShift("/s", "/" + old_ + "/", PathOf(rest));
      UnderDirectory(rest, old_);
    }
  }

  lemma PrefixShift(a: string, b: string, c: string)
    requires a + b <= a + c
    ensures b <= c
  {
    assert b == (a + b)[|a|..] && c == (a + c)[|a|..];
  }

  lemma BelowSession(id: string, rest: seq<string>)
    ensures PathOf(["s", id] + rest) == "/s/" + id + Body(rest)
  {
    BodyFront(id, rest);
    BodyFront("s", [id] + rest);
    hide Body;
    Assoc(["s"], [id], rest);
    assert ["s"] + [id] == ["s", id];
    assert "/" + "s" + ("/" + id + Body(rest)) == "/s/" + id + Body(rest);
  }

  lemma WalkNormal(path: string, names: seq<string>)
    requires Normal(path) && Absolute(path) && WalkNames(names)
    ensures Normal(WalkTo(path, names))
  {
    var cs :| Legal(cs) && path == PathOf(cs);
    WalkFollows(cs, names);
  }

  lemma JoinNormal(path: string, name: string)
    requires Normal(path) && LegalName(name)
    ensures Normal(PathJoin(path, name))
  {
    var cs :| Legal(cs) && path == PathOf(cs);
    JoinOf(cs, name);
    assert Legal(cs + [name]);
  }

  lemma WstatNormal(path: string, name: string)
    requires Normal(path) && LegalName(name) && WstatPath(path, name).Some?
    ensures Normal(WstatPath(path, name).value)
  {
    hide WstatPath;
    var cs :| Legal(cs) && path == PathOf(cs);
    WstatPathNormal(cs, name);
    assert Legal(cs[..|cs| - 1] + [name]) && Legal([cs[0], name]);
  }

  lemma RewriteNormal(path: string, o: string, n: string)
    requires Normal(path) && LegalName(o) && LegalName(n)
    ensures Normal(RewritePath(o, n, path))
  {
    var cs :| Legal(cs) && path == PathOf(cs);
    RewritePathNormal(o, n, cs);
    assert Legal(if |cs| >= 2 && cs[0] == "s" && cs[1] == o then cs[1 := n] else cs);
  }

  lemma WalkTableNormal(t: Table, k: nat, n: nat, names: seq<string>, ns: Namespace)
    requires TableOK(t) && AllNormal(t) && WalkNames(names)
    ensures AllNormal(WalkTable(t, k, n, names, ns))
  {
    hide Normal, WalkNames, WalkTo, Reach, QidPath;
    if k in t { WalkNormal(t[k].path, names); }
  }

  lemma CreateTableNormal(t: Table, k: nat, name: string, mkdir: bool, mode: nat, stored: bool)
    requires AllNormal(t) && LegalName(name)
    ensures AllNormal(CreateTable(t, k, name, mkdir, mode, stored))
  {
    hide Normal, PathJoin, Creates, QidPath;
    if k in t { JoinNormal(t[k].path, name); }
  }

  lemma WstatTableNormal(t: Table, k: nat, name: string, stored: bool)
    requires AllNormal(t) && (name == "" || LegalName(name))
    ensures AllNormal(WstatTable(t, k, name, stored))
  {
    if k in t && name != "" && WstatPath(t[k].path, name).Some? { WstatNormal(t[k].path, name); }
    hide Normal, QidPath;
    assert name == "" && k in t ==> WstatPath(t[k].path, name) == None;
    hide WstatPath;
  }

  lemma RewriteTableNormal(t: Table, o: string, n: string)
    requires AllNormal(t) && LegalName(o) && LegalName(n)
    ensures AllNormal(RewriteTable(o, n, t))
  {
    hide Normal, QidPath, RewritePath;
    forall k | k in t ensures Normal(RewritePath(o, n, t[k].path)) { RewriteNormal(t[k].path, o, n); }
  }

  /** With legal names every fid of every reachable table has a normal path. */
  lemma StepKeepsNormal(t: Table, e: Event)
    requires TableOK(t) && AllNormal(t) && LegalEvent(e)
    ensures AllNormal(StepTable(t, e))
  {
    assert Legal([]) && PathOf([]) == "/";
    assert Normal("/");
    hide Normal, TableOK, WalkTable, CreateTable, WstatTable, RewriteTable, WalkNames, LegalName;
    match e
    case Walk(j, n, names, ns) => WalkTableNormal(t, j, n, names, ns);
    case Create(j, name, mkdir, mode, stored) => CreateTableNormal(t, j, name, mkdir, mode, stored);
    case Wstat(j, name, stored) => WstatTableNormal(t, j, name, stored);
    case Renamed(o, n) => RewriteTableNormal(t, o, n);
    case _ =>
  }

  // ---- what is flushed ---------------------------------------------------

  /** What clunking a fid hands to handleWrite. */
  function Flush(t: Table, k: nat): Option<(string, string)> {
    if k in t && Writable(t[k].mode) then Some((t[k].path, TrimSpace(t[k].writeBuf))) else None
  }

  /** What an outside observer sees of one fid number. */
  datatype Seen =
    | Bound(fid: nat)
    | Mode(fid: nat, mode: nat)
    | Put(fid: nat, chunk: Chunk)
    | Dropped(fid: nat)
    | Flushed(fid: nat, path: string, input: string)  // handleWrite(path, input)

  function See(t: Table, e: Event): seq<Seen>
    requires TableOK(t)
  {
    match e
    case Attach(k) => [Bound(k)]
    case Walk(k, n, names, ns) =>
      if k in t && Reach(ns, t[k].path, names) == |names| then [Bound(n)] else []
    case Open(k, mode) => if k in t then [Mode(k, mode)] else []
    case Create(k, _, mkdir, mode, stored) =>
      if k in t && Creates(t[k].path, mkdir, stored) then [Mode(k, mode)] else []
    case Write(k, w) => if k in t then [Put(k, w)] else []
    case Clunk(k) =>
      (match Flush(t, k)
       case Some((path, input)) => [Flushed(k, path, input)]
       case None => if k in t then [Dropped(k)] else [])
    case Remove(k) => if k in t then [Dropped(k)] else []
    case _ => []
  }

  /** The mode and the writes of the current use of a fid number, read off the
      trace alone; None when it is not in use. */
  function Since(trace: seq<Seen>, k: nat): Option<(nat, seq<Chunk>)> {
    if trace == [] then None
    else SinceNext(Since(trace[..|trace| - 1], k), trace[|trace| - 1], k)
  }

  function SinceNext(before: Option<(nat, seq<Chunk>)>, last: Seen, k: nat): Option<(nat, seq<Chunk>)> {
    if last.fid != k then before
    else match last
      case Bound(_) => Some((0, []))
      case Mode(_, m) => if before.Some? then Some((m, before.value.1)) else None
      case Put(_, w) => if before.Some? then Some((before.value.0, before.value.1 + [w])) else None
      case _ => None
  }

  predicate Agrees(f: FidState, use: (nat, seq<Chunk>)) {
    f.mode == use.0 && f.writeBuf == Assemble(use.1)
  }

  ghost predicate Matches(t: Table, trace: seq<Seen>) {
    forall k: nat ::
      && (k in t <==> Since(trace, k).Some?)
      && (k in t ==> Agrees(t[k], Since(trace, k).value))
  }

  lemma StepMatches(t: Table, trace: seq<Seen>, e: Event)
    requires TableOK(t) && Matches(t, trace)
    ensures Matches(StepTable(t, e), trace + See(t, e))
  {
    var t', seen := StepTable(t, e), See(t, e);
    forall k: nat
      ensures k in t' <==> Since(trace + seen, k).Some?
      ensures k in t' ==> Agrees(t'[k], Since(trace + seen, k).value)
    {
      hide See, StepTable, Agrees, Since;
      if seen == [] {
        UnseenAt(t, e, k, Since(trace, k));
        assert trace + seen == trace;
      } else {
        assert seen == [seen[0]];
        SinceSnoc(trace, seen[0], k);
        SeenAt(t, e, k, Since(trace, k));
      }
    }
  }

  /** What one event does to one fid number is what the observer concludes. */
  lemma SeenAt(t: Table, e: Event, k: nat, before: Option<(nat, seq<Chunk>)>)
    requires TableOK(t) && See(t, e) != []
    requires k in t <==> before.Some?
    requires k in t ==> Agrees(t[k], before.value)
    ensures See(t, e) == [See(t, e)[0]]
    ensures var after := SinceNext(before, See(t, e)[0], k);
            (k in StepTable(t, e) <==> after.Some?) && (after.Some? ==> Agrees(StepTable(t, e)[k], after.value))
  {
    hide Overlay, TrimSpace, Reach, WalkTo, Creates, WstatPath, RewritePath, QidPath, PathJoin, TableOK;
    if e.Write? {
      if k in t { AssembleSnoc(before.value.1, e.chunk); }
    } else if e.Attach? || e.Walk? {
      assert Assemble([]) == "";
    }
    hide Assemble;
  }

  lemma UnseenAt(t: Table, e: Event, k: nat, before: Option<(nat, seq<Chunk>)>)
    requires TableOK(t) && See(t, e) == []
    requires k in t <==> before.Some?
    requires k in t ==> Agrees(t[k], before.value)
    ensures (k in StepTable(t, e) <==> before.Some?) && (before.Some? ==> Agrees(StepTable(t, e)[k], before.value))
  {
    hide Assemble, Overlay, TrimSpace, Reach, WalkTo, Creates, WstatPath, RewritePath, QidPath, PathJoin;
  }

  lemma SinceSnoc(trace: seq<Seen>, last: Seen, k: nat)
    ensures Since(trace + [last], k) == SinceNext(Since(trace, k), last, k)
  {
    SnocTake(trace, last);
  }

  lemma AssembleSnoc(ws: seq<Chunk>, w: Chunk)
    ensures Assemble(ws + [w]) == Overlay(Assemble(ws), w)
  {
    SnocTake(ws, w);
  }

  function RunEvents(t: Table, events: seq<Event>): (Table, seq<Seen>)
    requires TableOK(t)
    decreases |events|
  {
    if events == [] then (t, [])
    else
      var (t', seen) := RunEvents(StepTable(t, events[0]), events[1..]);
      (t', See(t, events[0]) + seen)
  }

  lemma {:induction false} RunMatches(t: Table, trace: seq<Seen>, events: seq<Event>)
    requires TableOK(t) && Matches(t, trace)
    ensures TableOK(RunEvents(t, events).0)
    ensures Matches(RunEvents(t, events).0, trace + RunEvents(t, events).1)
    decreases |events|
  {
    if events == [] {
      assert trace + [] == trace;
    } else {
      StepMatches(t, trace, events[0]);
      var rest := RunEvents(StepTable(t, events[0]), events[1..]).1;
      RunMatches(StepTable(t, events[0]), trace + See(t, events[0]), events[1..]);
      assert trace + See(t, events[0]) + rest == trace + (See(t, events[0]) + rest);
    }
  }

  /** A trace in which every flush hands over the trimmed overlay of the writes of
      its fid since it was bound, and only for a fid whose open mode ends in the two
      bits of OWRITE (1) or ORDWR (2). */
  ghost predicate FlushesAreAssembled(trace: seq<Seen>) {
    forall j :: 0 <= j < |trace| && trace[j].Flushed? ==>
      var use := Since(trace[..j], trace[j].fid);
      use.Some? && use.value.0 % 4 in {1, 2} && trace[j].input == TrimSpace(Assemble(use.value.1))
  }

  lemma StepFlushes(t: Table, trace: seq<Seen>, e: Event)
    requires TableOK(t) && Matches(t, trace) && FlushesAreAssembled(trace)
    ensures FlushesAreAssembled(trace + See(t, e))
  {
    var seen := See(t, e);
    var longer := trace + seen;
    forall j | 0 <= j < |longer| && longer[j].Flushed?
      ensures var use := Since(longer[..j], longer[j].fid);
              use.Some? && use.value.0 % 4 in {1, 2} && longer[j].input == TrimSpace(Assemble(use.value.1))
    {
      if j < |trace| {
        assert longer[..j] == trace[..j] && longer[j] == trace[j];
      } else {
        assert longer[..j] == trace && longer[j] == seen[0];
      }
    }
  }

  /** Over any run of one connection, in any interleaving of requests on any fids. */
  lemma {:induction false} EveryFlushIsAssembled(t: Table, trace: seq<Seen>, events: seq<Event>)
    requires TableOK(t) && Matches(t, trace) && FlushesAreAssembled(trace)
    ensures FlushesAreAssembled(trace + RunEvents(t, events).1)
    decreases |events|
  {
    if events == [] {
      assert trace + [] == trace;
    } else {
      var seen := See(t, events[0]);
      var longer := trace + seen;
      StepMatches(t, trace, events[0]);
      StepFlushes(t, trace, events[0]);
      var rest := RunEvents(StepTable(t, events[0]), events[1..]).1;
      EveryFlushIsAssembled(StepTable(t, events[0]), longer, events[1..]);
      assert longer + rest == trace + (seen + rest);
    }
  }

  /** From an end of use until the next binding a fid number is not in use. */
  lemma {:induction false} UnusedUntilBound(trace: seq<Seen>, i: nat, j: nat, k: nat)
    requires i < j <= |trace| && trace[i].fid == k && (trace[i].Flushed? || trace[i].Dropped?)
    requires forall b :: i < b < j ==> trace[b] != Bound(k)
    ensures Since(trace[..j], k) == None
    decreases j
  {
    assert trace[..j][..j - 1] == trace[..j - 1];
    if j > i + 1 {
      UnusedUntilBound(trace, i, j - 1, k);
    }
  }

  /** Exactly once: two flushes of a fid number, two racing clunks included, always
      have a fresh binding between them, so no use is flushed twice or after remove. */
  lemma FlushedAtMostOnce(trace: seq<Seen>, i: nat, j: nat)
    requires FlushesAreAssembled(trace)
    requires i < j < |trace| && trace[j].Flushed? && trace[i].fid == trace[j].fid
    requires trace[i].Flushed? || trace[i].Dropped?
    ensures exists b :: i < b < j && trace[b] == Bound(trace[j].fid)
  {
    if forall b :: i < b < j ==> trace[b] != Bound(trace[j].fid) {
      UnusedUntilBound(trace, i, j, trace[j].fid);
    }
  }

  /** And at least once: clunking a bound fid whose mode ends in 1 or 2 hands over that
      overlay, whichever events came before; nothing but a clunk does. */
  lemma ClunkFlushes(events: seq<Event>, e: Event)
    ensures var (t, trace) := RunEvents(map[], events);
            TableOK(t) &&
            ((exists s :: s in See(t, e) && s.Flushed?) <==>
              e.Clunk? && Since(trace, e.fid).Some? && Since(trace, e.fid).value.0 % 4 in {1, 2})
    ensures var (t, trace) := RunEvents(map[], events);
            e.Clunk? && Since(trace, e.fid).Some? && Since(trace, e.fid).value.0 % 4 in {1, 2} ==>
              See(t, e) == [Flushed(e.fid, t[e.fid].path, TrimSpace(Assemble(Since(trace, e.fid).value.1)))]
              && e.fid !in StepTable(t, e)
  {
    RunMatches(map[], [], events);
    var (t, trace) := RunEvents(map[], events);
    assert [] + trace == trace;
    assert See(t, e) != [] ==> See(t, e) == [See(t, e)[0]];
    if e.Clunk? && Since(trace, e.fid).Some? && Since(trace, e.fid).value.0 % 4 in {1, 2} {
      assert See(t, e)[0] in See(t, e);
    }
  }

  // ---- from the mode of the open to the flush ----------------------------

  /** The event neither binds, opens, creates through, nor frees fid k. */
  predicate Leaves(e: Event, k: nat) {
    match e
    case Attach(j) => j != k
    case Walk(_, j, _, _) => j != k
    case Open(j, _) => j != k
    case Create(j, _, _, _, _) => j != k
    case Clunk(j) => j != k
    case Remove(j) => j != k
    case _ => true
  }

  lemma ModeStays(t: Table, e: Event, k: nat)
    requires TableOK(t) && k in t && Leaves(e, k)
    ensures k in StepTable(t, e) && StepTable(t, e)[k].mode == t[k].mode
  {
    hide Overlay, Reach, WalkTo, Creates, WstatPath, RewritePath, QidPath, PathJoin;
  }

  lemma {:induction false} ModeStaysOverRun(t: Table, events: seq<Event>, k: nat)
    requires TableOK(t) && k in t && forall i :: 0 <= i < |events| ==> Leaves(events[i], k)
    ensures k in RunEvents(t, events).0 && RunEvents(t, events).0[k].mode == t[k].mode
    ensures TableOK(RunEvents(t, events).0)
    decreases |events|
  {
    hide StepTable, See, TableOK, Leaves;
    if events == [] {
    } else {
      ModeStays(t, events[0], k);
      ModeStaysOverRun(StepTable(t, events[0]), events[1..], k);
    }
  }

  /** The mode a fid is opened or created with decides what its clunk does, whatever
      other requests come in between: 1 and 2, alone or with other bits above the low
      two, hand the trimmed buffer over, and 0 and 3 hand over nothing. */
  lemma {:induction false} OpenModeDecides(t: Table, open: Event, k: nat, mode: nat, rest: seq<Event>)
    requires TableOK(t) && k in t && forall i :: 0 <= i < |rest| ==> Leaves(rest[i], k)
    requires open == Open(k, mode) || (open.Create? && open.fid == k && open.mode == mode
                                       && Creates(t[k].path, open.mkdir, open.stored))
    ensures var last := RunEvents(StepTable(t, open), rest).0;
            && TableOK(last) && k in last
            && See(last, Clunk(k)) == (if mode % 4 == 1 || mode % 4 == 2
                                       then [Flushed(k, last[k].path, TrimSpace(last[k].writeBuf))]
                                       else [Dropped(k)])
            && (mode in {0, 3, 16, 19} ==> See(last, Clunk(k)) == [Dropped(k)])
            && (mode in {1, 2, 17, 18} ==>
                  See(last, Clunk(k)) == [Flushed(k, last[k].path, TrimSpace(last[k].writeBuf))])
  {
    hide RunEvents, StepTable, TableOK, TrimSpace, Creates, Leaves, See;
    OpenSetsMode(t, open, k, mode);
    ModeStaysOverRun(StepTable(t, open), rest, k);
    ClunkSees(RunEvents(StepTable(t, open), rest).0, k);
  }

  lemma ClunkSees(t: Table, k: nat)
    requires TableOK(t) && k in t
    ensures See(t, Clunk(k)) == if t[k].mode % 4 == 1 || t[k].mode % 4 == 2
                                then [Flushed(k, t[k].path, TrimSpace(t[k].writeBuf))] else [Dropped(k)]
  {
    hide TrimSpace, TableOK;
  }

  lemma OpenSetsMode(t: Table, open: Event, k: nat, mode: nat)
    requires TableOK(t) && k in t
    requires open == Open(k, mode) || (open.Create? && open.fid == k && open.mode == mode
                                       && Creates(t[k].path, open.mkdir, open.stored))
    ensures k in StepTable(t, open) && StepTable(t, open)[k].mode == mode
  {
    hide Creates, PathJoin, QidPath;
  }

  // ---- what single requests leave behind ---------------------------------

  /** Tattach binds a fresh fid to the root directory and leaves the others alone. */
  lemma AttachBindsRoot(t: Table, k: nat)
    requires TableOK(t)
    ensures StepTable(t, Attach(k)) == t[k := FidState("/", Qid(true, QidPath("/")), 0, "", "")] && QidPath("/") == 0
  {
  }

  /** A walk that succeeds binds a fresh fid to where the names lead, a directory exactly
      if the namespace says so there; without names it keeps path and qid. One that stops
      on the way binds nothing. */
  lemma WalkBinds(t: Table, k: nat, newfid: nat, names: seq<string>, ns: Namespace)
    requires TableOK(t) && k in t
    ensures Reach(ns, t[k].path, names) < |names| ==> StepTable(t, Walk(k, newfid, names, ns)) == t
    ensures Reach(ns, t[k].path, names) == |names| ==>
            var path := WalkTo(t[k].path, names);
            StepTable(t, Walk(k, newfid, names, ns)) ==
            t[newfid := FidState(path, if names == [] then t[k].qid else Qid(ns(path) == Dir, QidPath(path)),
                                 0, "", "")]
  {
  }

  /** The reply is an error exactly for an unbound fid and when the first name is missing;
      otherwise it has a qid for each name walked. */
  lemma WalkReplyIs(t: Table, k: nat, names: seq<string>, ns: Namespace)
    requires TableOK(t)
    ensures WalkReply(t, k, names, ns) == None <==>
            k !in t || (names != [] && ns(WalkStep(t[k].path, names[0])) == Missing)
    ensures WalkReply(t, k, names, ns).Some? ==> |WalkReply(t, k, names, ns).value| == Reach(ns, t[k].path, names)
  {
  }

  /** Tcreate moves the fid to the joined path. It asks for an entry below /t, /a, /m,
      /tmp or /sk, for a directory below /t alone, and refuses a directory elsewhere. */
  lemma {:induction false} CreateMoves(t: Table, k: nat, cs: seq<string>, name: string, mkdir: bool, mode: nat,
                                       stored: bool)
    requires TableOK(t) && k in t && Legal(cs) && t[k].path == PathOf(cs)
    ensures var f := t[k];
            var below := cs != [] && cs[0] == "t";
            var asks := below || (|cs| == 1 && cs[0] in {"a", "m", "tmp", "sk"});
            StepTable(t, Create(k, name, mkdir, mode, stored)) ==
            if (mkdir && !below) || (asks && !stored) then t
            else t[k := FidState(PathOf(cs + [name]), Qid(mkdir, QidPath(PathOf(cs + [name]))),
                                 mode, f.writeBuf, f.waitBase)]
  {
    hide PathOf, Under, PathJoin, QidPath, Legal, TableOK, CreatesEntry, CanMkdir;
    JoinOf(cs, name);
    Asked(cs);
  }

  lemma {:induction false} Asked(cs: seq<string>)
    requires Legal(cs)
    ensures CanMkdir(PathOf(cs)) <==> cs != [] && cs[0] == "t"
    ensures CreatesEntry(PathOf(cs)) <==>
            cs != [] && (cs[0] == "t" || (|cs| == 1 && cs[0] in {"a", "m", "tmp", "sk"}))
  {
    hide PathOf, Under, Legal;
    TopDirectories(cs);
    assert |cs| == 1 ==> cs == [cs[0]];
  }

  lemma {:induction false} TopDirectories(cs: seq<string>)
    requires Legal(cs)
    ensures forall d :: d in {"a", "m", "t", "tmp", "sk"} ==> (PathOf(cs) == "/" + d <==> cs == [d])
    ensures Under("t", PathOf(cs)) <==> |cs| >= 2 && cs[0] == "t"
    ensures PathOf(cs) == "/t" <==> cs == ["t"]
    ensures PathOf(cs) in {"/a", "/m", "/t", "/tmp", "/sk"} <==> |cs| == 1 && cs[0] in {"a", "m", "t", "tmp", "sk"}
  {
    hide PathOf, Body;
    UnderDirectory(cs, "t");
    IsTop(cs, "a"); IsTop(cs, "m"); IsTop(cs, "t"); IsTop(cs, "tmp"); IsTop(cs, "sk");
    hide Under, Legal;
    assert "/" + "a" == "/a" && "/" + "m" == "/m" && "/" + "t" == "/t" && "/" + "tmp" == "/tmp" && "/" + "sk" == "/sk";
    assert |cs| == 1 ==> cs == [cs[0]];
  }

  lemma IsTop(cs: seq<string>, d: string)
    requires Legal(cs) && LegalName(d)
    ensures PathOf(cs) == "/" + d <==> cs == [d]
  {
    BodyFront(d, []);
    assert [d] + [] == [d] && Legal([d]);
    hide Body;
    assert PathOf([d]) == "/" + d;
    if PathOf(cs) == "/" + d { PathOfInjective(cs, [d]); }
  }

  /** A wstat renames exactly a path of two or more components under /a, /m, /sk or /t,
      to another non-empty name, and then changes path and qid path alone. */
  lemma {:induction false} WstatRenamesIff(t: Table, k: nat, cs: seq<string>, name: string, stored: bool)
    requires TableOK(t) && k in t && Legal(cs) && t[k].path == PathOf(cs) && (name == "" || LegalName(name))
    ensures var f := t[k];
            var renames := |cs| >= 2 && cs[0] in {"a", "m", "sk", "t"} && name != "" && name != cs[|cs| - 1];
            var path := PathOf(if |cs| >= 2 && cs[0] != "t" then [cs[0], name]
                               else if cs != [] then cs[..|cs| - 1] + [name] else []);
            StepTable(t, Wstat(k, name, stored)) ==
            if !renames || !stored then t
            else t[k := FidState(path, Qid(f.qid.dir, QidPath(path)), f.mode, f.writeBuf, f.waitBase)]
  {
    hide WstatPath, PathOf, Legal, LegalName, QidPath, TableOK;
    WstatSomeIff(cs, name);
    if WstatPath(PathOf(cs), name).Some? { WstatPathNormal(cs, name); }
  }

  lemma {:induction false} WstatSomeIff(cs: seq<string>, name: string)
    requires Legal(cs)
    ensures WstatPath(PathOf(cs), name).Some? <==>
            |cs| >= 2 && cs[0] in {"a", "m", "sk", "t"} && name != "" && name != cs[|cs| - 1]
  {
    hide PathOf, Body, PathBase;
    ParentAndBaseOf(cs);
    UnderDirectory(cs, "a");
    UnderDirectory(cs, "m");
    UnderDirectory(cs, "sk");
    UnderDirectory(cs, "t");
  }

  /** A blocking read sets the baseline of its fid and nothing else. */
  lemma WaitSetsBase(t: Table, k: nat, base: string)
    requires TableOK(t)
    ensures StepTable(t, WaitRead(k, base)) ==
            if k !in t then t
            else t[k := FidState(t[k].path, t[k].qid, t[k].mode, t[k].writeBuf, base)]
  {
  }
}
