/** Which store and key a path leads to, operation by operation, and the round trip
    of a file through one of the flat stores. */
module Routing {
  import opened Text
  import opened Paths
  import opened Transfer
  import Seqs

  datatype Store =
    | Agents | Prompts | Memory | Skills | Tools | Utils | Plugins | Tmp | Transcripts
    | Backends | Help
    | SessionIndex               // the session store: fixed files and session ids
    | SessionFiles(id: string)   // the file table of one session

  datatype Cell = Cell(store: Store, key: string)

  // ---- the five case distinctions of server.go ---------------------------

  /** isSessionStoreFile. */
  predicate IsSessionStoreFile(path: string) {
    "/s/" <= path && '/' !in path[3..] && path[3..] in FIXED_FILES
  }

  /** pathType: the store it asks, for a path that is not statically a directory. */
  function StatCell(path: string): Option<Cell> {
    var parts := Parts(path);
    if path == "/" then None
    else if |parts| == 2 && parts[0] == "s" then Some(Cell(SessionIndex, parts[1]))
    else if |parts| == 2 && parts[0] == "u" then Some(Cell(Utils, parts[1]))
    else if |parts| == 2 && parts[0] == "x" then Some(Cell(Plugins, parts[1]))
    else if |parts| == 2 && parts[0] == "tr" then Some(Cell(Transcripts, parts[1]))
    else if |parts| == 2 && parts[0] == "tmp" then Some(Cell(Tmp, parts[1]))
    else if |parts| == 1 && parts[0] == "backends" then Some(Cell(Backends, ""))
    else if |parts| == 1 && parts[0] == "help" then Some(Cell(Help, ""))
    else if |parts| == 2 && parts[0] == "a" then Some(Cell(Agents, parts[1]))
    else if |parts| == 2 && parts[0] == "p" then Some(Cell(Prompts, parts[1]))
    else if |parts| == 2 && parts[0] == "m" then Some(Cell(Memory, parts[1]))
    else if |parts| == 2 && parts[0] == "sk" then Some(Cell(Skills, parts[1]))
    else if |parts| == 2 && parts[0] == "t" then Some(Cell(Tools, parts[1]))
    else if |parts| == 3 && parts[0] == "t" then Some(Cell(Tools, parts[1] + "/" + parts[2]))
    else if |parts| == 3 && parts[0] == "s" then Some(Cell(SessionFiles(parts[1]), parts[2]))
    else None
  }

  /** read, for a fid that is not a directory. */
  function ReadCell(path: string): Option<Cell> {
    if IsSessionStoreFile(path) then Some(Cell(SessionIndex, PathBase(path)))
    else if path == "/backends" then Some(Cell(Backends, ""))
    else if path == "/help" then Some(Cell(Help, ""))
    else if Under("a", path) then Some(Cell(Agents, PathBase(path)))
    else if Under("p", path) then Some(Cell(Prompts, PathBase(path)))
    else if Under("m", path) then Some(Cell(Memory, PathBase(path)))
    else if Under("sk", path) then Some(Cell(Skills, PathBase(path)))
    else if Under("t", path) then Some(Cell(Tools, TrimPrefix(path, "/t/")))
    else if Under("u", path) then Some(Cell(Utils, PathBase(path)))
    else if Under("x", path) then Some(Cell(Plugins, PathBase(path)))
    else if Under("tmp", path) then Some(Cell(Tmp, PathBase(path)))
    else if Under("tr", path) then Some(Cell(Transcripts, PathBase(path)))
    else if Under("s", path) && |Parts(path)| == 3 then Some(Cell(SessionFiles(Parts(path)[1]), Parts(path)[2]))
    else None
  }

  /** handleWrite. */
  function WriteCell(path: string): Option<Cell> {
    if path == "/s/new" then Some(Cell(SessionIndex, "new"))
    else if Under("a", path) then Some(Cell(Agents, PathBase(path)))
    else if Under("m", path) then Some(Cell(Memory, PathBase(path)))
    else if Under("sk", path) then Some(Cell(Skills, PathBase(path)))
    else if Under("t", path) then Some(Cell(Tools, TrimPrefix(path, "/t/")))
    else if Under("tmp", path) then Some(Cell(Tmp, PathBase(path)))
    else if Under("s", path) && |Parts(path)| == 3 then Some(Cell(SessionFiles(Parts(path)[1]), Parts(path)[2]))
    else None
  }

  /** remove; a session file is removed by doing nothing. */
  function RemoveCell(path: string): Option<Cell> {
    if Under("a", path) then Some(Cell(Agents, PathBase(path)))
    else if Under("m", path) then Some(Cell(Memory, PathBase(path)))
    else if Under("sk", path) then Some(Cell(Skills, PathBase(path)))
    else if Under("t", path) then Some(Cell(Tools, TrimPrefix(path, "/t/")))
    else if Under("tmp", path) then Some(Cell(Tmp, PathBase(path)))
    else if Under("tr", path) then Some(Cell(Transcripts, PathBase(path)))
    else if Under("s", path) && path != "/s/new" then
      var parts := SplitN(TrimPrefix(path, "/s/"), '/', 2);
      if |parts| == 2 then None else Some(Cell(SessionIndex, parts[0]))
    else None
  }

  /** makeStat's clause for the log of a session: the last component is "chat", however
      deep below the session directory. */
  function ChatCell(path: string): Option<Cell> {
    var parts := Parts(path);
    if Under("s", path) && |parts| == 3 && PathBase(path) == "chat" then Some(Cell(SessionFiles(parts[1]), "chat"))
    else None
  }

  /** The length part of makeStat: the stores asked in turn until one gives a length
      other than 0. */
  function LengthCells(path: string): seq<Cell> {
    (match ChatCell(path) case Some(c) => [c] case None => []) +
    (match LengthCell(path) case Some(c) => [c] case None => [])
  }

  /** The store asked once the clauses for logs have left the length at 0. */
  function LengthCell(path: string): Option<Cell> {
    if Under("m", path) then Some(Cell(Memory, PathBase(path)))
    else if IsSessionStoreFile(path) then Some(Cell(SessionIndex, PathBase(path)))
    else if path == "/backends" then Some(Cell(Backends, ""))
    else if path == "/help" then Some(Cell(Help, ""))
    else if Under("a", path) then Some(Cell(Agents, PathBase(path)))
    else if Under("p", path) then Some(Cell(Prompts, PathBase(path)))
    else if Under("sk", path) then Some(Cell(Skills, PathBase(path)))
    else if Under("t", path) then Some(Cell(Tools, TrimPrefix(path, "/t/")))
    else if Under("u", path) then Some(Cell(Utils, PathBase(path)))
    else if Under("x", path) then Some(Cell(Plugins, PathBase(path)))
    else if Under("tmp", path) then Some(Cell(Tmp, PathBase(path)))
    else if Under("tr", path) then Some(Cell(Transcripts, PathBase(path)))
    else if Under("s", path) then
      var parts := SplitN(TrimPrefix(path, "/s/"), '/', 2);
      if |parts| == 2 then Some(Cell(SessionFiles(parts[0]), parts[1])) else None
    else None
  }

  // ---- agreement ---------------------------------------------------------

  /** The path may be a file: pathType asks a store for it, and directly under /s it is
      one of the fixed files, not a session. */
  predicate FilePath(cs: seq<string>) {
    var cell := StatCell(PathOf(cs));
    cell.Some? && (cell.value.store == SessionIndex ==> cell.value.key in FIXED_FILES)
  }

  /** The stores handleWrite reaches. */
  predicate AcceptsWrites(c: Cell) {
    c.store in {Agents, Memory, Skills, Tools, Tmp} || c.store.SessionFiles? || c == Cell(SessionIndex, "new")
  }

  predicate AcceptsRemoves(c: Cell) {
    c.store in {Agents, Memory, Skills, Tools, Tmp, Transcripts} || (c.store == SessionIndex && c.key != "new")
  }

  /** A number for each top-level name, so that the names need comparing only once. */
  function Top(n: string): nat {
    match n
    case "a" => 1 case "p" => 2 case "m" => 3 case "sk" => 4 case "t" => 5 case "u" => 6
    case "x" => 7 case "tmp" => 8 case "tr" => 9 case "s" => 10 case "backends" => 11 case "help" => 12
    case _ => 0
  }

  lemma Tops(n: string)
    ensures (n == "a" <==> Top(n) == 1) && (n == "p" <==> Top(n) == 2) && (n == "m" <==> Top(n) == 3)
    ensures (n == "sk" <==> Top(n) == 4) && (n == "t" <==> Top(n) == 5) && (n == "u" <==> Top(n) == 6)
    ensures (n == "x" <==> Top(n) == 7) && (n == "tmp" <==> Top(n) == 8) && (n == "tr" <==> Top(n) == 9)
    ensures (n == "s" <==> Top(n) == 10) && (n == "backends" <==> Top(n) == 11) && (n == "help" <==> Top(n) == 12)
  {
  }

  /** The cell of a file path, from its components. */
  function CellOf(cs: seq<string>): Option<Cell> {
    if cs == [] then None
    else if |cs| == 1 then
      match Top(cs[0])
      case 11 => Some(Cell(Backends, ""))
      case 12 => Some(Cell(Help, ""))
      case _ => None
    else if |cs| == 2 then
      match Top(cs[0])
      case 1 => Some(Cell(Agents, cs[1]))
      case 2 => Some(Cell(Prompts, cs[1]))
      case 3 => Some(Cell(Memory, cs[1]))
      case 4 => Some(Cell(Skills, cs[1]))
      case 5 => Some(Cell(Tools, cs[1]))
      case 6 => Some(Cell(Utils, cs[1]))
      case 7 => Some(Cell(Plugins, cs[1]))
      case 8 => Some(Cell(Tmp, cs[1]))
      case 9 => Some(Cell(Transcripts, cs[1]))
      case 10 => Some(Cell(SessionIndex, cs[1]))
      case _ => None
    else
      match Top(cs[0])
      case 5 => Some(Cell(Tools, Rest(cs)))
      case 10 => Some(Cell(SessionFiles(cs[1]), Deep(cs)))
      case _ => None
  }

  /** What is below the second component. */
  function Deep(cs: seq<string>): string
    requires |cs| >= 3
  {
    var b := Body(cs[2..]);
    if b == "" then "" else b[1..]
  }

  /** What is below the top directory. */
  function Rest(cs: seq<string>): string
    requires |cs| >= 2
  {
    cs[1] + Body(cs[2..])
  }

  lemma {:induction false} Shape(cs: seq<string>)
    requires Legal(cs) && cs != []
    ensures |cs| == 1 ==> PathOf(cs) == "/" + cs[0]
    ensures |cs| >= 2 ==> PathOf(cs) == "/" + cs[0] + "/" + Rest(cs)
    ensures |cs| == 2 ==> Rest(cs) == cs[1]
    ensures |cs| >= 3 ==> Rest(cs) == cs[1] + "/" + Deep(cs) && Body(cs[2..]) != ""
  {
    BodyFront(cs[0], cs[1..]);
    Seqs.HeadTail(cs);
    if |cs| >= 2 {
      BodyFront(cs[1], cs[2..]);
      Seqs.HeadTail(cs[1..]);
      if |cs| >= 3 { BodyHead(cs[2..]); }
    }
    hide Body;
  }

  /** Cutting a literal top directory off. */
  lemma {:induction false} TrimTop(cs: seq<string>)
    requires Legal(cs) && |cs| >= 2
    ensures cs[0] == "t" ==> TrimPrefix(PathOf(cs), "/t/") == Rest(cs)
    ensures cs[0] == "s" ==> "/s/" <= PathOf(cs) && PathOf(cs)[3..] == TrimPrefix(PathOf(cs), "/s/") == Rest(cs)
    ensures cs[0] != "s" ==> !("/s/" <= PathOf(cs))
  {
    hide Body, SplitN, Rest, PathOf;
    Shape(cs);
    UnderDirectory(cs, "s");
    assert "/" + "s" + "/" == "/s/";
  }

  lemma {:induction false} RestSplit(cs: seq<string>)
    requires Legal(cs) && |cs| >= 2
    ensures SplitN(Rest(cs), '/', 2) == if |cs| == 2 then [cs[1]] else [cs[1], Deep(cs)]
    ensures '/' in Rest(cs) <==> |cs| > 2
  {
    Shape(cs);
    PartsRest(cs);
    hide Body, SplitN, PathOf;
    if |cs| > 2 { assert Rest(cs)[|cs[1]|] == '/'; }
  }

  /** The only one-component files. */
  lemma {:induction false} FixedPath(cs: seq<string>)
    requires Legal(cs) && cs != []
    ensures PathOf(cs) == "/s/new" <==> cs == ["s", "new"]
    ensures PathOf(cs) == "/backends" <==> cs == ["backends"]
    ensures PathOf(cs) == "/help" <==> cs == ["help"]
  {
    OneComponent("backends");
    OneComponent("help");
    TwoComponents("s", "new");
    assert "/" + "backends" == "/backends" && "/" + "help" == "/help" && "/" + "s" + "/" + "new" == "/s/new";
    hide PathOf;
    if PathOf(cs) == "/s/new" { PathOfInjective(cs, ["s", "new"]); }
    if PathOf(cs) == "/backends" { PathOfInjective(cs, ["backends"]); }
    if PathOf(cs) == "/help" { PathOfInjective(cs, ["help"]); }
  }

  lemma OneComponent(name: string)
    requires LegalName(name)
    ensures Legal([name]) && PathOf([name]) == "/" + name
  {
    BodyFront(name, []);
    assert [name] + [] == [name];
  }

  lemma {:induction false} SessionFilePath(cs: seq<string>)
    requires Legal(cs) && cs != []
    ensures IsSessionStoreFile(PathOf(cs)) <==> |cs| == 2 && cs[0] == "s" && cs[1] in FIXED_FILES
  {
    Shape(cs);
    hide FIXED_FILES;
    if |cs| >= 2 {
      TrimTop(cs);
      RestSplit(cs);
      hide Rest, PathOf, Body, SplitN, TrimPrefix;
    } else {
      assert |cs[0]| >= 2 ==> PathOf(cs)[2] == cs[0][1];
      assert "/s/"[2] == '/';
    }
  }

  lemma {:induction false} StatIs(cs: seq<string>)
    requires Legal(cs)
    ensures StatCell(PathOf(cs)) == CellOf(cs)
  {
    PartsOf(cs);
    if cs != [] {
      BodyHead(cs);
      Shape(cs);
      Tops(cs[0]);
    }
    hide Parts, Body, FIXED_FILES, Top;
  }

  /** What the case distinctions of one path look at. */
  ghost predicate Looked(cs: seq<string>)
    requires cs != []
  {
    var path, top := PathOf(cs), Top(cs[0]);
    && (Under("a", path) <==> |cs| >= 2 && top == 1)
    && (Under("p", path) <==> |cs| >= 2 && top == 2)
    && (Under("m", path) <==> |cs| >= 2 && top == 3)
    && (Under("sk", path) <==> |cs| >= 2 && top == 4)
    && (Under("t", path) <==> |cs| >= 2 && top == 5)
    && (Under("u", path) <==> |cs| >= 2 && top == 6)
    && (Under("x", path) <==> |cs| >= 2 && top == 7)
    && (Under("tmp", path) <==> |cs| >= 2 && top == 8)
    && (Under("tr", path) <==> |cs| >= 2 && top == 9)
    && (Under("s", path) <==> |cs| >= 2 && top == 10)
    && (path == "/backends" <==> |cs| == 1 && top == 11)
    && (path == "/help" <==> |cs| == 1 && top == 12)
    && (path == "/s/new" <==> |cs| == 2 && top == 10 && cs[1] == "new")
    && (IsSessionStoreFile(path) <==> |cs| == 2 && top == 10 && cs[1] in FIXED_FILES)
    && PathBase(path) == cs[|cs| - 1]
    && |Parts(path)| == Min(|cs|, 3)
    && (|cs| >= 3 ==> Parts(path)[1] == cs[1] && Parts(path)[2] == Deep(cs))
    && (|cs| >= 2 && top == 5 ==> TrimPrefix(path, "/t/") == Rest(cs))
    && (|cs| >= 2 && top == 10 ==>
          SplitN(TrimPrefix(path, "/s/"), '/', 2) == if |cs| == 2 then [cs[1]] else [cs[1], Deep(cs)])
    && (|cs| == 2 ==> Rest(cs) == cs[1])
  }

  lemma {:induction false} Looks(cs: seq<string>)
    requires Legal(cs) && cs != []
    ensures Looked(cs)
  {
    hide Parts, Under, SplitN, PathBase, TrimPrefix, IsSessionStoreFile, PathOf, Body, FIXED_FILES, Top, Rest,
         PathParent;
    LooksUnder(cs);
    FixedPath(cs);
    SessionFilePath(cs);
    LooksParts(cs);
    Tops(cs[0]);
  }

  lemma {:induction false} LooksParts(cs: seq<string>)
    requires Legal(cs) && cs != []
    ensures var path, top := PathOf(cs), Top(cs[0]);
            && PathBase(path) == cs[|cs| - 1]
            && |Parts(path)| == Min(|cs|, 3)
            && (|cs| >= 3 ==> Parts(path)[1] == cs[1] && Parts(path)[2] == Deep(cs))
            && (|cs| >= 2 && top == 5 ==> TrimPrefix(path, "/t/") == Rest(cs))
            && (|cs| >= 2 && top == 10 ==>
                  SplitN(TrimPrefix(path, "/s/"), '/', 2) == if |cs| == 2 then [cs[1]] else [cs[1], Deep(cs)])
            && (|cs| == 2 ==> Rest(cs) == cs[1])
  {
    hide Parts, SplitN, PathBase, TrimPrefix, PathOf, Top, Rest, PathParent;
    PartsOf(cs);
    ParentAndBaseOf(cs);
    Shape(cs);
    Tops(cs[0]);
    if |cs| >= 2 {
      TrimTop(cs);
      RestSplit(cs);
    }
  }

  lemma {:induction false} LooksUnder(cs: seq<string>)
    requires Legal(cs) && cs != []
    ensures var path, top, deep := PathOf(cs), Top(cs[0]), |cs| >= 2;
            && (Under("a", path) <==> deep && top == 1) && (Under("p", path) <==> deep && top == 2)
            && (Under("m", path) <==> deep && top == 3) && (Under("sk", path) <==> deep && top == 4)
            && (Under("t", path) <==> deep && top == 5) && (Under("u", path) <==> deep && top == 6)
            && (Under("x", path) <==> deep && top == 7) && (Under("tmp", path) <==> deep && top == 8)
            && (Under("tr", path) <==> deep && top == 9) && (Under("s", path) <==> deep && top == 10)
  {
    Tops(cs[0]);
    hide Under, PathOf, Top;
    UnderDirectory(cs, "a"); UnderDirectory(cs, "p"); UnderDirectory(cs, "m"); UnderDirectory(cs, "sk");
    UnderDirectory(cs, "t"); UnderDirectory(cs, "u"); UnderDirectory(cs, "x"); UnderDirectory(cs, "tmp");
    UnderDirectory(cs, "tr"); UnderDirectory(cs, "s");
  }

  lemma {:induction false} ReadAgrees(cs: seq<string>, c: Cell)
    requires Legal(cs) && cs != [] && Looked(cs) && CellOf(cs) == Some(c)
    requires c.store == SessionIndex ==> c.key in FIXED_FILES
    ensures ReadCell(PathOf(cs)) == Some(c)
  {
    hide Parts, Body, Under, SplitN, PathBase, TrimPrefix, IsSessionStoreFile, PathOf, Rest, Deep, FIXED_FILES,
         Top, Legal;
  }

  lemma {:induction false} LengthAgrees(cs: seq<string>, c: Cell)
    requires Legal(cs) && cs != [] && Looked(cs) && CellOf(cs) == Some(c)
    requires c.store == SessionIndex ==> c.key in FIXED_FILES
    ensures LengthCell(PathOf(cs)) == Some(c)
  {
    hide Parts, Body, Under, SplitN, PathBase, TrimPrefix, IsSessionStoreFile, PathOf, Rest, Deep, FIXED_FILES,
         Top, Legal;
  }

  /** A path under a session directory that ends in "chat" without being its chat file. */
  predicate DeepChat(cs: seq<string>) {
    |cs| > 3 && cs[0] == "s" && cs[|cs| - 1] == "chat"
  }

  /** Stat takes the length from the path's own cell exactly when the path is not deeper
      than three components and ends in "chat"; then it comes from the chat file first. */
  lemma {:induction false} LengthsAgree(cs: seq<string>, c: Cell)
    requires Legal(cs) && cs != [] && Looked(cs) && CellOf(cs) == Some(c)
    requires c.store == SessionIndex ==> c.key in FIXED_FILES
    ensures (forall d :: d in LengthCells(PathOf(cs)) ==> d == c) <==> !DeepChat(cs)
    ensures |LengthCells(PathOf(cs))| > 0
    ensures DeepChat(cs) ==> LengthCells(PathOf(cs)) == [Cell(SessionFiles(cs[1]), "chat"), c]
  {
    hide LengthCell, ChatCell, LengthCells, Looked, CellOf, DeepChat, PathOf, Legal, FIXED_FILES;
    LengthAgrees(cs, c);
    ChatIs(cs, c);
    TwoAsked(PathOf(cs), c);
  }

  lemma TwoAsked(path: string, c: Cell)
    requires LengthCell(path) == Some(c)
    ensures LengthCells(path) == match ChatCell(path) case Some(d) => [d, c] case None => [c]
    ensures (forall d :: d in LengthCells(path) ==> d == c) <==> ChatCell(path) in {None, Some(c)}
  {
    hide ChatCell, LengthCell;
    var cells := LengthCells(path);
    assert c in cells;
    if ChatCell(path).Some? {
      assert cells == [ChatCell(path).value, c] && ChatCell(path).value in cells;
    }
  }

  lemma {:induction false} ChatIs(cs: seq<string>, c: Cell)
    requires Legal(cs) && cs != [] && Looked(cs) && CellOf(cs) == Some(c)
    ensures ChatCell(PathOf(cs)) in {None, Some(c)} <==> !DeepChat(cs)
    ensures DeepChat(cs) ==> ChatCell(PathOf(cs)) == Some(Cell(SessionFiles(cs[1]), "chat"))
  {
    Tops(cs[0]);
    if |cs| >= 3 && cs[0] == "s" {
      DeepIs(cs);
    }
    hide Parts, Under, SplitN, PathBase, TrimPrefix, IsSessionStoreFile, PathOf, Rest, Deep, FIXED_FILES, Top, Legal;
  }

  /** What is below the second component is one name only if it is the third. */
  lemma {:induction false} DeepIs(cs: seq<string>)
    requires Legal(cs) && |cs| >= 3
    ensures |cs| == 3 ==> Deep(cs) == cs[2]
    ensures |cs| > 3 ==> '/' in Deep(cs)
  {
    var low := cs[2..];
    BodyFront(low[0], low[1..]);
    Seqs.HeadTail(low);
    if |cs| > 3 {
      BodyHead(low[1..]);
      var b := Body(low);
      assert b[1..] == low[0] + Body(low[1..]);
      assert b[1..][|low[0]|] == '/';
    }
  }

  lemma {:induction false} WriteAgrees(cs: seq<string>, c: Cell)
    requires Legal(cs) && cs != [] && Looked(cs) && CellOf(cs) == Some(c)
    ensures WriteCell(PathOf(cs)) == if AcceptsWrites(c) then Some(c) else None
  {
    hide Parts, Body, Under, SplitN, PathBase, TrimPrefix, IsSessionStoreFile, PathOf, Rest, Deep, FIXED_FILES,
         Top, Legal;
  }

  lemma {:induction false} RemoveAgrees(cs: seq<string>, c: Cell)
    requires Legal(cs) && cs != [] && Looked(cs) && CellOf(cs) == Some(c)
    ensures RemoveCell(PathOf(cs)) == if AcceptsRemoves(c) then Some(c) else None
  {
    hide Parts, Body, Under, SplitN, PathBase, TrimPrefix, IsSessionStoreFile, PathOf, Rest, Deep, FIXED_FILES,
         Top, Legal;
  }

  /** For every path that may be a file, read, handleWrite and remove go to the cell
      pathType found, wherever they serve that store at all, and so does stat, except
      for a path below a session file that ends in "chat". */
  lemma RoutingAgrees(cs: seq<string>)
    requires Legal(cs) && FilePath(cs)
    ensures var path, c := PathOf(cs), StatCell(PathOf(cs)).value;
            && ReadCell(path) == Some(c)
            && ((forall d :: d in LengthCells(path) ==> d == c) <==> !DeepChat(cs))
            && |LengthCells(path)| > 0
            && WriteCell(path) == (if AcceptsWrites(c) then Some(c) else None)
            && RemoveCell(path) == (if AcceptsRemoves(c) then Some(c) else None)
  {
    StatIs(cs);
    hide StatCell, FIXED_FILES, AcceptsWrites, AcceptsRemoves, Looked, ReadCell, LengthCells, WriteCell, RemoveCell,
         DeepChat;
    var c := StatCell(PathOf(cs)).value;
    Looks(cs);
    ReadAgrees(cs, c);
    LengthsAgree(cs, c);
    WriteAgrees(cs, c);
    RemoveAgrees(cs, c);
  }

  /** Such a path, which two Tcreates below a session directory give a fid: its stat
      reports the length of the session's own log. */
  lemma {:induction false} DeepChatShows(id: string)
    requires LegalName(id)
    ensures var cs := ["s", id, "x", "chat"];
            && Legal(cs) && PathOf(cs) == "/s/" + id + "/x/chat" && FilePath(cs)
            && StatCell(PathOf(cs)) == Some(Cell(SessionFiles(id), "x/chat"))
            && LengthCells(PathOf(cs)) == [Cell(SessionFiles(id), "chat"), Cell(SessionFiles(id), "x/chat")]
  {
    var cs, c := ["s", id, "x", "chat"], Cell(SessionFiles(id), "x/chat");
    hide Body, PathOf, StatCell, LengthCells, Looked, FIXED_FILES, Top;
    FourComponents(id);
    StatIs(cs);
    Tops("s");
    Looks(cs);
    LengthsAgree(cs, c);
  }

  lemma FourComponents(id: string)
    requires LegalName(id)
    ensures var cs := ["s", id, "x", "chat"]; Legal(cs) && PathOf(cs) == "/s/" + id + "/x/chat" && Deep(cs) == "x/chat"
  {
    var cs := ["s", id, "x", "chat"];
    TwoComponents("x", "chat");
    assert cs[2..] == ["x", "chat"] && cs[1..] == [id] + cs[2..] && cs == ["s"] + cs[1..];
    BodyFront(id, cs[2..]);
    BodyFront("s", cs[1..]);
    hide Body;
  }

  /** A file of a session: every request asks the session's file table for it. */
  lemma {:induction false} SessionFileCells(id: string, name: string)
    requires LegalName(id) && LegalName(name)
    ensures var path, c := "/s/" + id + "/" + name, Cell(SessionFiles(id), name);
            && StatCell(path) == ReadCell(path) == WriteCell(path) == Some(c)
            && LengthCells(path) == if name == "chat" then [c, c] else [c]
  {
    var cs := ["s", id, name];
    ThreeComponents(id, name);
    hide Body, PathOf, StatCell, ReadCell, WriteCell, LengthCells, Looked, FIXED_FILES, Top, Deep;
    Tops("s");
    StatIs(cs);
    Looks(cs);
    var c := Cell(SessionFiles(id), name);
    ReadAgrees(cs, c);
    WriteAgrees(cs, c);
    LengthAgrees(cs, c);
    TwoAsked(PathOf(cs), c);
    ChatFile(cs);
  }

  lemma ThreeComponents(id: string, name: string)
    requires LegalName(id) && LegalName(name)
    ensures var cs := ["s", id, name]; Legal(cs) && PathOf(cs) == "/s/" + id + "/" + name && Deep(cs) == name
  {
    var cs := ["s", id, name];
    BodyFront(name, []);
    assert [name] + [] == [name];
    assert cs[2..] == [name] && cs[1..] == [id] + cs[2..] && cs == ["s"] + cs[1..];
    BodyFront(id, cs[2..]);
    BodyFront("s", cs[1..]);
    hide Body;
  }

  lemma ChatFile(cs: seq<string>)
    requires |cs| == 3 && Looked(cs) && Top(cs[0]) == 10 && Deep(cs) == cs[2]
    ensures ChatCell(PathOf(cs)) == if cs[2] == "chat" then Some(Cell(SessionFiles(cs[1]), "chat")) else None
  {
    hide Parts, Under, SplitN, PathBase, TrimPrefix, IsSessionStoreFile, PathOf, Rest, Deep, FIXED_FILES, Top;
  }

  // ---- the routes, by name -----------------------------------------------

  /** A file directly under a top directory of one store. */
  lemma {:induction false} Route(top: string, name: string, c: Cell)
    requires LegalName(top) && LegalName(name) && CellOf([top, name]) == Some(c) && top != "s"
    ensures var path := "/" + top + "/" + name;
            && StatCell(path) == ReadCell(path) == Some(c)
            && WriteCell(path) == (if AcceptsWrites(c) then Some(c) else None)
            && RemoveCell(path) == (if AcceptsRemoves(c) then Some(c) else None)
  {
    hide StatCell, ReadCell, WriteCell, RemoveCell, AcceptsWrites, AcceptsRemoves, PathOf, Looked, Top, FIXED_FILES,
         CellOf, Legal, LegalName;
    var cs := [top, name];
    NoSessions(cs, c);
    TwoComponents(top, name);
    StatIs(cs);
    Looks(cs);
    ReadAgrees(cs, c);
    WriteAgrees(cs, c);
    RemoveAgrees(cs, c);
  }

  lemma NoSessions(cs: seq<string>, c: Cell)
    requires |cs| == 2 && cs[0] != "s" && CellOf(cs) == Some(c)
    ensures c.store != SessionIndex
  {
    Tops(cs[0]);
    hide Top;
  }

  /** /a, /m, /sk, /t and /tmp take reads, writes and removes, /tr no writes, and /p, /u
      and /x neither. */
  lemma {:induction false} Routes(name: string)
    requires LegalName(name)
    ensures var c, path := Cell(Agents, name), "/a/" + name;
            StatCell(path) == ReadCell(path) == WriteCell(path) == RemoveCell(path) == Some(c)
    ensures var c, path := Cell(Memory, name), "/m/" + name;
            StatCell(path) == ReadCell(path) == WriteCell(path) == RemoveCell(path) == Some(c)
    ensures var c, path := Cell(Skills, name), "/sk/" + name;
            StatCell(path) == ReadCell(path) == WriteCell(path) == RemoveCell(path) == Some(c)
    ensures var c, path := Cell(Tools, name), "/t/" + name;
            StatCell(path) == ReadCell(path) == WriteCell(path) == RemoveCell(path) == Some(c)
    ensures var c, path := Cell(Tmp, name), "/tmp/" + name;
            StatCell(path) == ReadCell(path) == WriteCell(path) == RemoveCell(path) == Some(c)
    ensures var c, path := Cell(Transcripts, name), "/tr/" + name;
            StatCell(path) == ReadCell(path) == RemoveCell(path) == Some(c) && WriteCell(path) == None
    ensures var c, path := Cell(Prompts, name), "/p/" + name;
            StatCell(path) == ReadCell(path) == Some(c) && WriteCell(path) == RemoveCell(path) == None
    ensures var c, path := Cell(Utils, name), "/u/" + name;
            StatCell(path) == ReadCell(path) == Some(c) && WriteCell(path) == RemoveCell(path) == None
    ensures var c, path := Cell(Plugins, name), "/x/" + name;
            StatCell(path) == ReadCell(path) == Some(c) && WriteCell(path) == RemoveCell(path) == None
  {
    hide StatCell, ReadCell, WriteCell, RemoveCell;
    RouteBoth("a", "/a/", name, Cell(Agents, name));
    RouteBoth("m", "/m/", name, Cell(Memory, name));
    RouteBoth("sk", "/sk/", name, Cell(Skills, name));
    RouteBoth("t", "/t/", name, Cell(Tools, name));
    RouteBoth("tmp", "/tmp/", name, Cell(Tmp, name));
    RouteRead("tr", "/tr/", name, Cell(Transcripts, name));
    RouteRead("p", "/p/", name, Cell(Prompts, name));
    RouteRead("u", "/u/", name, Cell(Utils, name));
    RouteRead("x", "/x/", name, Cell(Plugins, name));
  }

  lemma RouteBoth(top: string, dir: string, name: string, c: Cell)
    requires LegalName(name) && LegalName(top) && dir == "/" + top + "/"
    requires (top, c.store) in {("a", Agents), ("m", Memory), ("sk", Skills), ("t", Tools), ("tmp", Tmp)}
    requires c.key == name
    ensures StatCell(dir + name) == ReadCell(dir + name) == WriteCell(dir + name) == RemoveCell(dir + name) == Some(c)
  {
    hide StatCell, ReadCell, LengthCells, WriteCell, RemoveCell;
    Tops(top);
    hide Top;
    Route(top, name, c);
  }

  lemma RouteRead(top: string, dir: string, name: string, c: Cell)
    requires LegalName(name) && LegalName(top) && dir == "/" + top + "/"
    requires (top, c.store) in {("tr", Transcripts), ("p", Prompts), ("u", Utils), ("x", Plugins)} && c.key == name
    ensures StatCell(dir + name) == ReadCell(dir + name) == Some(c) && WriteCell(dir + name) == None
    ensures RemoveCell(dir + name) == if top == "tr" then Some(c) else None
  {
    hide StatCell, ReadCell, LengthCells, WriteCell, RemoveCell;
    Tops(top);
    hide Top;
    Route(top, name, c);
  }

  /** Removing a session directory reaches the session store with the id, removing a
      file below it nothing, so a recursive remove kills the session once, at the end. */
  lemma {:induction false} RemoveKills(id: string, file: string)
    requires LegalName(id) && LegalName(file)
    ensures RemoveCell("/s/" + id) == if id == "new" then None else Some(Cell(SessionIndex, id))
    ensures RemoveCell("/s/" + id + "/" + file) == None
  {
    hide StatCell, RemoveCell, PathOf, Looked, Top, FIXED_FILES, CellOf, Deep, Body;
    var dir, below := ["s", id], ["s", id, file];
    TwoComponents("s", id);
    ThreeComponents(id, file);
    assert "/" + "s" + "/" + id == "/s/" + id;
    SessionCells(id, file);
    Looks(dir);
    Looks(below);
    RemoveAgrees(dir, Cell(SessionIndex, id));
    RemoveAgrees(below, Cell(SessionFiles(id), file));
  }

  lemma SessionCells(id: string, file: string)
    requires Deep(["s", id, file]) == file
    ensures CellOf(["s", id]) == Some(Cell(SessionIndex, id))
    ensures CellOf(["s", id, file]) == Some(Cell(SessionFiles(id), file))
  {
  }

  /** The fixed files of /s by name; any other name there is no file to read. */
  lemma {:induction false} FixedFiles(n: string)
    requires LegalName(n)
    ensures ReadCell("/s/" + n) ==
            if n in {"new", "idx", "ls", "kill", "sh", "b", "bfg", "bbg", "cleanup"} then Some(Cell(SessionIndex, n))
            else None
    ensures WriteCell("/s/" + n) == if n == "new" then Some(Cell(SessionIndex, n)) else None
  {
    hide PathOf, Looked, Top, FIXED_FILES, ReadCell, WriteCell, Legal;
    var cs := ["s", n];
    TwoComponents("s", n);
    assert "/" + "s" + "/" == "/s/";
    Tops("s");
    FixedNames(n);
    Looks(cs);
    FixedRead(cs);
  }

  lemma FixedNames(n: string)
    ensures n in FIXED_FILES <==> n in {"new", "idx", "ls", "kill", "sh", "b", "bfg", "bbg", "cleanup"}
  {
  }

  lemma FixedRead(cs: seq<string>)
    requires |cs| == 2 && Looked(cs) && Top(cs[0]) == 10
    ensures ReadCell(PathOf(cs)) == if cs[1] in FIXED_FILES then Some(Cell(SessionIndex, cs[1])) else None
    ensures WriteCell(PathOf(cs)) == if cs[1] == "new" then Some(Cell(SessionIndex, "new")) else None
  {
    hide Parts, Under, SplitN, PathBase, TrimPrefix, IsSessionStoreFile, PathOf, Rest, Deep, FIXED_FILES, Top;
  }

  /** Two different file paths never share a cell. */
  lemma {:induction false} CellsDistinct(a: seq<string>, b: seq<string>)
    requires Legal(a) && Legal(b) && FilePath(a) && FilePath(b)
    requires StatCell(PathOf(a)) == StatCell(PathOf(b))
    ensures a == b
  {
    StatIs(a);
    StatIs(b);
    hide StatCell, FIXED_FILES;
    CellDeterminesPath(a, b);
    PathOfInjective(a, b);
  }

  lemma {:induction false} CellDeterminesPath(a: seq<string>, b: seq<string>)
    requires Legal(a) && Legal(b) && CellOf(a).Some? && CellOf(a) == CellOf(b)
    ensures PathOf(a) == PathOf(b)
  {
    Shape(a);
    Shape(b);
    Tops(a[0]);
    Tops(b[0]);
    hide PathOf, Top, Body, Legal;
  }
}
