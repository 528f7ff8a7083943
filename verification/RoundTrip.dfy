/** What a client writes to a file of a flat store is what any client reads back. */
module RoundTrip {
  import opened Seqs
  import opened Text
  import opened Paths
  import opened Transfer
  import opened Routing
  import opened Fids

  // ---- the disk under the flat stores ------------------------------------

  /** Writable stores kept in a plain directory. */
  predicate FlatStore(s: Store) {
    s in {Agents, Memory, Tools, Tmp}
  }

  /** Where a file lies: the names below the directory of its store. */
  datatype Place = Place(store: Store, names: seq<string>)

  datatype Node = Bytes(data: string) | Folder

  type Disk = map<Place, Node>

  /** The directory of a store is always there. */
  predicate IsFolder(disk: Disk, p: Place) {
    p.names == [] || (p in disk && disk[p].Folder?)
  }

  /** filepath.Join(dir, key) drops empty names and ".". It would also resolve "..",
      which no legal name is. */
  function Undotted(names: seq<string>): seq<string> {
    if names == [] then []
    else (if names[0] in {"", "."} then [] else [names[0]]) + Undotted(names[1..])
  }

  function PlaceOf(c: Cell): Place {
    Place(c.store, Undotted(Split(c.key, '/')))
  }

  /** The directories MkdirAll makes sure of. */
  function Parents(p: Place): set<Place> {
    set i | 0 < i < |p.names| :: Place(p.store, p.names[..i])
  }

  /** A file can be written unless a directory stands in its place or a file in that of
      one of its parents. */
  predicate CanWrite(disk: Disk, p: Place) {
    !IsFolder(disk, p) && forall q :: q in Parents(p) && q in disk ==> disk[q].Folder?
  }

  /** ToolStore serves one synthetic entry over its directory. */
  const TOOL_INDEX := Cell(Tools, "idx")

  /** storeWrite: MkdirAll, then WriteFile. None is an error: the entry is read-only, or
      the disk refuses. */
  function StoreWrite(disk: Disk, c: Cell, data: string): Option<Disk>
    requires FlatStore(c.store)
  {
    var p := PlaceOf(c);
    if c == TOOL_INDEX || !CanWrite(disk, p) then None
    else Some((map q | q in disk.Keys + Parents(p) :: if q in Parents(p) then Folder else disk[q])[p := Bytes(data)])
  }

  /** storeRead; `index` is the listing ToolStore computes from its files. */
  function StoreRead(disk: Disk, c: Cell, index: Disk -> string): Option<string>
    requires FlatStore(c.store)
  {
    if c == TOOL_INDEX then Some(index(disk))
    else match PlaceOf(c)
      case p => if p in disk && disk[p].Bytes? then Some(disk[p].data) else None
  }

  /** A write shows through every cell of its place and through no other. */
  lemma WriteShows(disk: Disk, c: Cell, data: string, d: Cell, index: Disk -> string)
    requires FlatStore(c.store) && FlatStore(d.store) && d != TOOL_INDEX
    requires StoreWrite(disk, c, data).Some?
    ensures StoreRead(StoreWrite(disk, c, data).value, d, index) ==
            if PlaceOf(d) == PlaceOf(c) then Some(data) else StoreRead(disk, d, index)
  {
    hide PlaceOf, FlatStore;
    var p, q := PlaceOf(c), PlaceOf(d);
    assert p !in Parents(p);
  }

  /** When a write gets through, and what it leaves: the file is not the tool index, its
      place is neither the directory of the store nor another directory, and no file
      stands where one of its parents should be; then the file holds the data, every
      parent is a directory, and nothing else has changed. */
  lemma {:induction false} WriteDoes(disk: Disk, c: Cell, data: string)
    requires FlatStore(c.store)
    ensures var p := PlaceOf(c);
            StoreWrite(disk, c, data).Some? <==>
              && c != Cell(Tools, "idx") && p.names != [] && (p in disk ==> disk[p].Bytes?)
              && forall i :: 0 < i < |p.names| ==>
                   Place(p.store, p.names[..i]) in disk ==> disk[Place(p.store, p.names[..i])] == Folder
    ensures StoreWrite(disk, c, data).Some? ==>
              var p, disk' := PlaceOf(c), StoreWrite(disk, c, data).value;
              && p in disk' && disk'[p] == Bytes(data)
              && (forall i :: 0 < i < |p.names| ==>
                    Place(p.store, p.names[..i]) in disk' && disk'[Place(p.store, p.names[..i])] == Folder)
              && forall q :: q != p && (forall i :: 0 < i < |p.names| ==> q != Place(p.store, p.names[..i])) ==>
                   (q in disk' <==> q in disk) && (q in disk ==> disk'[q] == disk[q])
  {
    hide PlaceOf, FlatStore;
    var p := PlaceOf(c);
    assert p !in Parents(p);
    forall i | 0 < i < |p.names| ensures Place(p.store, p.names[..i]) in Parents(p) {
    }
  }

  /** Every parent of a file or directory is a directory. */
  ghost predicate Tree(disk: Disk) {
    forall p, i :: p in disk && 0 < i < |p.names| ==>
      Place(p.store, p.names[..i]) in disk && disk[Place(p.store, p.names[..i])] == Folder
  }

  /** A write keeps the disk a tree. */
  lemma {:induction false} WriteKeepsTree(disk: Disk, c: Cell, data: string)
    requires FlatStore(c.store) && Tree(disk) && StoreWrite(disk, c, data).Some?
    ensures Tree(StoreWrite(disk, c, data).value)
  {
    WriteDoes(disk, c, data);
    hide PlaceOf, FlatStore, StoreWrite;
    var w, disk' := PlaceOf(c), StoreWrite(disk, c, data).value;
    forall p, i | p in disk' && 0 < i < |p.names|
      ensures Place(p.store, p.names[..i]) in disk' && disk'[Place(p.store, p.names[..i])] == Folder
    {
      var q := Place(p.store, p.names[..i]);
      if p == w {
      } else if j :| 0 < j < |w.names| && p == Place(w.store, w.names[..j]) {
        assert p.names[..i] == w.names[..i] && q == Place(w.store, w.names[..i]);
      } else {
        assert p in disk;
        assert q in disk && disk[q] == Folder;
        assert q != w;
      }
    }
  }

  /** Cleaning a key drops the empty names and the dots and nothing else. */
  lemma {:induction false} UndottedIs(a: seq<string>, b: seq<string>)
    ensures Undotted(a + b) == Undotted(a) + Undotted(b)
    ensures Undotted(["."]) == [] && Undotted([""]) == []
    ensures (forall n :: n in a ==> n != "." && n != "") ==> Undotted(a) == a
    decreases |a|
  {
    TailOfConcat(a, b);
    if a == [] {
      assert a + b == b;
    } else {
      UndottedIs(a[1..], b);
      assert a[0] in a && forall n :: n in a[1..] ==> n in a;
      HeadTail(a);
      Assoc(if a[0] in {"", "."} then [] else [a[0]], Undotted(a[1..]), Undotted(b));
    }
  }

  // ---- which paths share a file ------------------------------------------

  /** Splitting what is below the top directory gives the names back. */
  lemma {:induction false} SplitBody(cs: seq<string>)
    requires Legal(cs) && cs != []
    ensures |Body(cs)| > 0 && Split(Body(cs)[1..], '/') == cs
    decreases |cs|
  {
    var first, rest := cs[0], cs[1..];
    BodyFront(first, rest);
    assert cs == [first] + rest;
    var s := Body(cs)[1..];
    assert s == first + Body(rest);
    if rest == [] {
      assert s == first && Index(first, '/') < 0;
    } else {
      SplitBody(rest);
      BodyHead(rest);
      var tail := Body(rest)[1..];
      IndexAt(first, '/', tail);
      assert s == first + ['/'] + tail;
      assert s[..|first|] == first && s[|first| + 1..] == tail;
    }
  }

  /** The key of a file of a flat store holds the names below the top directory. */
  lemma {:induction false} KeyNames(cs: seq<string>, c: Cell)
    requires Legal(cs) && StatCell(PathOf(cs)) == Some(c) && FlatStore(c.store)
    ensures |cs| >= 2 && c == Cell(TopStore(cs[0]), c.key) && cs[0] in {"a", "m", "t", "tmp"}
    ensures Split(c.key, '/') == cs[1..]
    ensures cs[0] != "t" ==> |cs| == 2
  {
    hide StatCell, PathOf, Body, Top;
    StatIs(cs);
    Tops(cs[0]);
    SplitBody(cs[1..]);
    BelowTop(cs);
  }

  /** The flat store of a top directory. */
  function TopStore(top: string): Store {
    match Top(top)
    case 1 => Agents
    case 3 => Memory
    case 8 => Tmp
    case _ => Tools
  }

  lemma BelowTop(cs: seq<string>)
    requires Legal(cs) && |cs| >= 2
    ensures |Body(cs[1..])| > 0 && Body(cs[1..])[1..] == Rest(cs) && (|cs| == 2 ==> Rest(cs) == cs[1])
  {
    BodyFront(cs[1], cs[2..]);
    assert cs[1..] == [cs[1]] + cs[2..];
  }

  /** Two paths of flat stores are one file exactly when they are equal up to "."
      components. Outside the tools directory that means they are equal. */
  lemma {:induction false} SamePlaceIff(a: seq<string>, b: seq<string>, c: Cell, d: Cell)
    requires Legal(a) && StatCell(PathOf(a)) == Some(c) && FlatStore(c.store)
    requires Legal(b) && StatCell(PathOf(b)) == Some(d) && FlatStore(d.store)
    ensures PlaceOf(c) == PlaceOf(d) <==> Undotted(a) == Undotted(b)
    ensures a[0] != "t" ==> (PlaceOf(c) == PlaceOf(d) <==> a == b)
  {
    hide StatCell, PathOf, LegalName;
    KeyNames(a, c);
    KeyNames(b, d);
    hide Split;
    TopStores(a[0], b[0]);
    hide TopStore;
    UndottedFront(a);
    UndottedFront(b);
    if |a| == 2 && |b| == 2 {
      OneName(a[1], b[1]);
      assert a[1..] == [a[1]] && b[1..] == [b[1]];
      hide Undotted;
      assert a == [a[0], a[1]] && b == [b[0], b[1]];
    }
  }

  lemma TopStores(a: string, b: string)
    requires a in {"a", "m", "t", "tmp"} && b in {"a", "m", "t", "tmp"}
    ensures TopStore(a) == TopStore(b) <==> a == b
    ensures TopStore(a) == Tools <==> a == "t"
  {
  }

  lemma UndottedFront(cs: seq<string>)
    requires cs != [] && cs[0] !in {"", "."}
    ensures Undotted(cs) == [cs[0]] + Undotted(cs[1..])
    ensures Undotted(cs)[0] == cs[0] && Undotted(cs)[1..] == Undotted(cs[1..])
  {
  }

  lemma OneName(x: string, y: string)
    requires LegalName(x) && LegalName(y)
    ensures Undotted([x]) == Undotted([y]) <==> x == y
  {
    assert Undotted([x]) == if x == "." then [] else [x];
    assert Undotted([y]) == if y == "." then [] else [y];
  }

  /** At an input: /t/./x and /t/x have different keys and are one file. */
  lemma {:induction false} DottedPathShares()
    ensures var a, b := ["t", ".", "x"], ["t", "x"];
            && Legal(a) && Legal(b) && PathOf(a) == "/t/./x" && PathOf(b) == "/t/x"
            && StatCell(PathOf(a)) == Some(Cell(Tools, "./x")) && StatCell(PathOf(b)) == Some(Cell(Tools, "x"))
            && PlaceOf(Cell(Tools, "./x")) == PlaceOf(Cell(Tools, "x"))
  {
    var a, b := ["t", ".", "x"], ["t", "x"];
    DottedPaths();
    hide PathOf, StatCell, Body, PlaceOf;
    StatIs(a);
    StatIs(b);
    Tops("t");
    assert CellOf(a) == Some(Cell(Tools, "./x"));
    assert CellOf(b) == Some(Cell(Tools, "x"));
    UndottedAt(a, b);
    SamePlaceIff(a, b, Cell(Tools, "./x"), Cell(Tools, "x"));
  }

  lemma DottedPaths()
    ensures var a, b := ["t", ".", "x"], ["t", "x"];
            && Legal(a) && Legal(b) && PathOf(a) == "/t/./x" && PathOf(b) == "/t/x"
            && Rest(a) == "./x" && Rest(b) == "x"
  {
    TwoComponents("t", "x");
    TwoComponents(".", "x");
    BodyFront("x", []);
    BodyFront("t", [".", "x"]);
    assert ["x"] + [] == ["x"] && ["t"] + [".", "x"] == ["t", ".", "x"];
    assert ["t", ".", "x"][2..] == ["x"] && ["t", "x"][2..] == [];
  }

  lemma UndottedAt(a: seq<string>, b: seq<string>)
    requires a == ["t", ".", "x"] && b == ["t", "x"]
    ensures Undotted(a) == Undotted(b)
  {
    assert a[1..] == [".", "x"] && a[1..][1..] == ["x"] && b[1..] == ["x"];
    assert Undotted(a[1..]) == Undotted(["x"]);
  }

  /** The directory of a store, reached as /a/. or /tmp/., cannot be written. */
  lemma DotIsNoFile(disk: Disk, s: Store, data: string)
    requires FlatStore(s)
    ensures StoreWrite(disk, Cell(s, "."), data) == None
  {
    assert Split(".", '/') == ["."];
    assert Undotted(["."]) == [];
  }

  // ---- the round trip ----------------------------------------------------

  /** End to end: in any run of a connection, if the writes of fid k since it was bound
      tile the payload (in any order, interleaved with any other requests) and k is open
      for writing on a file of a flat store, then clunking k hands the trimmed payload to
      the store cell that every later read of that path uses. The write succeeds exactly
      when that is not the tool index and the disk lets the file be written. Then reading
      to the end in any positive pieces gives the trimmed payload through every path that
      denotes the same file, and every other file reads as before. */
  lemma {:induction false} WrittenIsRead(events: seq<Event>, k: nat, ws: seq<Chunk>, mode: nat, payload: string,
                                         path: string, c: Cell, disk: Disk, index: Disk -> string, count: nat -> nat)
    requires Since(RunEvents(map[], events).1, k) == Some((mode, ws)) && mode % 4 in {1, 2}
    requires Tiles(ws, payload) && |payload| <= 9223372036854775807
    requires k in RunEvents(map[], events).0 && RunEvents(map[], events).0[k].path == path
    requires Normal(path) && StatCell(path) == Some(c) && FlatStore(c.store)
    requires forall o :: count(o) > 0
    ensures var t := RunEvents(map[], events).0;
            && TableOK(t)
            && See(t, Clunk(k)) == [Flushed(k, path, TrimSpace(payload))]
            && WriteCell(path) == ReadCell(path) == Some(c)
    ensures StoreWrite(disk, c, TrimSpace(payload)).Some? <==> c != TOOL_INDEX && CanWrite(disk, PlaceOf(c))
    ensures StoreWrite(disk, c, TrimSpace(payload)).Some? ==>
              var disk' := StoreWrite(disk, c, TrimSpace(payload)).value;
              forall d: Cell :: FlatStore(d.store) && d != TOOL_INDEX ==>
                if PlaceOf(d) == PlaceOf(c) then
                  && StoreRead(disk', d, index).Some?
                  && |StoreRead(disk', d, index).value| <= MAX_INT
                  && ReadToEnd(StoreRead(disk', d, index).value, 0, count) == TrimSpace(payload)
                else StoreRead(disk', d, index) == StoreRead(disk, d, index)
  {
    hide RunEvents, Since, See, TableOK, StatCell, TrimSpace, Normal, FIXED_FILES, ReadSlice, PlaceOf,
         CanWrite, FlatStore, StoreRead;
    FlatRouting(path, c);
    ClunkFlushes(events, Clunk(k));
    TilesRebuild(ws, payload);
    var data := TrimSpace(payload);
    TrimShorter(payload);
    ReadToEndIsContent(data, 0, count);
    assert data[0..] == data;
    if c != TOOL_INDEX && CanWrite(disk, PlaceOf(c)) {
      assert StoreWrite(disk, c, data).Some?;
      hide StoreWrite;
      forall d: Cell | FlatStore(d.store) && d != TOOL_INDEX
        ensures StoreRead(StoreWrite(disk, c, data).value, d, index) ==
                if PlaceOf(d) == PlaceOf(c) then Some(data) else StoreRead(disk, d, index)
      {
        WriteShows(disk, c, data, d, index);
      }
    }
  }

  lemma FlatRouting(path: string, c: Cell)
    requires Normal(path) && StatCell(path) == Some(c) && FlatStore(c.store)
    ensures WriteCell(path) == ReadCell(path) == Some(c)
  {
    hide StatCell, PathOf, Legal, FIXED_FILES, ReadCell, WriteCell, LengthCells, RemoveCell;
    var cs :| Legal(cs) && path == PathOf(cs);
    RoutingAgrees(cs);
  }

  lemma TrimShorter(s: string)
    ensures |TrimSpace(s)| <= |s|
  {
    TrimLeftShorter(s);
  }

  lemma {:induction false} TrimLeftShorter(s: string)
    ensures |TrimLeft(s)| <= |s|
    decreases |s|
  {
    if SpaceWidth(s) > 0 { TrimLeftShorter(s[SpaceWidth(s)..]); }
  }
}
