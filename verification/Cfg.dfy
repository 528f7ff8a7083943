/** Writes to a session's cfg file. It takes the parameter lines of `Params`, but skips
    malformed values instead of stopping, and it also takes commands for the core. */
module Cfg {
  import opened Seqs
  import opened Text
  import opened Params

  /** What the session's core answers while one write is handled: whether it is running
      and whether a change of directory succeeds when line i is reached, and whether it
      accepts the parameters at the end. */
  datatype Core<!F> = Core(running: nat -> bool, changesDir: nat -> bool, accepts: Params<F> -> bool)

  datatype Call<F> = Submit(text: string) | SetCWD(dir: string) | SetGenerationParams(p: Params<F>)

  datatype Reply = Accepted | SwitchWhileRunning(key: string) | BadDirectory | ParamsWhileRunning | Refused

  datatype Line<F> = Skip | Command(key: string, arg: string) | Cwd(dir: string) | Param(s: Setting<F>)

  predicate IsCommand(k: string) {
    k == "backend" || k == "model" || k == "agent"
  }

  function LineOf<F>(ff: Floats<F>, k: string, v: string): Line<F> {
    if IsCommand(k) then if v == "" then Skip else Command(k, v)
    else if k == "cwd" then if v == "" then Skip else Cwd(v)
    else match KeyOf(k) case Some(key) => Param(ReadValue(ff, key, v)) case None => Skip
  }

  function CfgRead<F>(ff: Floats<F>, line: string): Line<F> {
    var t := TrimSpace(line);
    if t == "" then Skip
    else match KeyValue(t) case Some((k, v)) => LineOf(ff, k, v) case None => Skip
  }

  function Before<F>(c: Call<F>, rest: (seq<Call<F>>, Reply)): (seq<Call<F>>, Reply) {
    ([c] + rest.0, rest.1)
  }

  /** The calls made on the core, in order, and the reply to the write; n lines precede. */
  function CfgLines<F>(ff: Floats<F>, core: Core<F>, lines: seq<string>, n: nat, p: Params<F>, hasParams: bool)
    : (seq<Call<F>>, Reply)
    decreases |lines|
  {
    if lines == [] then
      if !hasParams then ([], Accepted)
      else if core.running(n) then ([], ParamsWhileRunning)
      else ([SetGenerationParams(p)], if core.accepts(p) then Accepted else Refused)
    else
      match CfgRead(ff, lines[0])
      case Skip => CfgLines(ff, core, lines[1..], n + 1, p, hasParams)
      case Command(k, v) =>
        if core.running(n) then ([], SwitchWhileRunning(k))
        else Before(Submit("/" + k + " " + v), CfgLines(ff, core, lines[1..], n + 1, p, hasParams))
      case Cwd(v) =>
        if !core.changesDir(n) then ([SetCWD(v)], BadDirectory)
        else Before(SetCWD(v), CfgLines(ff, core, lines[1..], n + 1, p, hasParams))
      case Param(s) => CfgLines(ff, core, lines[1..], n + 1, Set(p, s), true)
  }

  method HandleCfg<F(==)>(ff: Floats<F>, core: Core<F>, input: string, current: Params<F>)
    returns (calls: seq<Call<F>>, reply: Reply)
    ensures (calls, reply) == CfgLines(ff, core, Split(input, '\n'), 0, current, false)
  {
    hide Split, IsCommand, KeyOf, KeyValue, ReadValue, TrimSpace, Set;
    var p, hasParams := current, false;
    var lines := Split(input, '\n');
    calls, reply := [], Accepted;
    var i := 0;
    assert lines[0..] == lines;
    assert [] + CfgLines(ff, core, lines, 0, current, false).0 == CfgLines(ff, core, lines, 0, current, false).0;
    while i < |lines|
      invariant 0 <= i <= |lines|
      invariant reply == Accepted
      invariant var rest := CfgLines(ff, core, lines[i..], i, p, hasParams);
                CfgLines(ff, core, lines, 0, current, false) == (calls + rest.0, rest.1)
    {
      ghost var rest := CfgLines(ff, core, lines[i + 1..], i + 1, p, hasParams);
      assert lines[i..][0] == lines[i] && lines[i..][1..] == lines[i + 1..];
      var line := TrimSpace(lines[i]);
      i := i + 1;
      if line == "" {
        continue;
      }
      var cut := KeyValue(line);
      if cut == None {
        continue;
      }
      var (k, v) := cut.value;
      if IsCommand(k) {
        if v == "" {
          continue;
        }
        if core.running(i - 1) {
          assert calls + [] == calls;
          return calls, SwitchWhileRunning(k);
        }
        Assoc(calls, [Submit("/" + k + " " + v)], rest.0);
        calls := calls + [Submit("/" + k + " " + v)];
      } else if k == "cwd" {
        if v == "" {
          continue;
        }
        if !core.changesDir(i - 1) {
          return calls + [SetCWD(v)], BadDirectory;
        }
        Assoc(calls, [SetCWD(v)], rest.0);
        calls := calls + [SetCWD(v)];
      } else {
        var key := KeyOf(k);
        if key != None {
          hasParams := true;
          p := Set(p, ReadValue(ff, key.value, v));
        }
      }
    }
    assert lines[|lines|..] == [] && calls + [] == calls;
    if hasParams {
      if core.running(i) {
        return calls, ParamsWhileRunning;
      }
      calls := calls + [SetGenerationParams(p)];
      reply := if core.accepts(p) then Accepted else Refused;
    }
  }

  // ---- cfg agrees with ParseParams ---------------------------------------

  /** No line is a command or a change of directory. */
  predicate ParameterLinesOnly<F(!new)>(ff: Floats<F>, lines: seq<string>) {
    forall i :: 0 <= i < |lines| ==> CfgRead(ff, lines[i]).Skip? || CfgRead(ff, lines[i]).Param?
  }

  predicate NamesParameter<F>(ff: Floats<F>, lines: seq<string>) {
    lines != [] && (CfgRead(ff, lines[0]).Param? || NamesParameter(ff, lines[1..]))
  }

  /** The lines without those that hold a malformed parameter value. */
  function WellFormed<F(==)>(ff: Floats<F>, lines: seq<string>): (r: seq<string>)
    ensures forall line :: line in r ==> line in lines
  {
    if lines == [] then []
    else (if Read(ff, lines[0]) == Malformed then [] else [lines[0]]) + WellFormed(ff, lines[1..])
  }

  /** Every setting applied in order. */
  function SetAllOf<F>(ff: Floats<F>, lines: seq<string>, p: Params<F>): Params<F>
    decreases |lines|
  {
    if lines == [] then p else SetAllOf(ff, lines[1..], Set(p, Read(ff, lines[0])))
  }

  /** Trimming the line first makes no difference to the key and the value. */
  lemma {:induction false} TrimmedLineReads(line: string)
    ensures KeyValue(TrimSpace(line)) == KeyValue(line)
  {
    match Cut(line, '=')
    case Some((a, b)) =>
      assert line == a + "=" + b && '=' !in a;
      TrimAround(a, b);
      var l, r := TrimLeft(a), TrimRight(b);
      TrimLeftIsSuffix(a);
      assert '=' !in l;
      IndexAt(l, '=', r);
      CutAt(l, r);
      TrimTwice(a, b);
    case None =>
      TrimKeepsOut(line);
  }

  lemma {:induction false} TrimLeftIsSuffix(s: string)
    ensures forall c :: c in TrimLeft(s) ==> c in s
    decreases |s|
  {
    var w := SpaceWidth(s);
    hide SpaceWidth;
    if w > 0 {
      TrimLeftIsSuffix(s[w..]);
    }
  }

  lemma TrimKeepsOut(s: string)
    requires '=' !in s
    ensures '=' !in TrimSpace(s)
  {
    hide SpaceWidth, LastSpaceWidth;
    TrimLeftIsSuffix(s);
    assert TrimRight(TrimLeft(s)) <= TrimLeft(s);
  }

  lemma CutAt(l: string, r: string)
    requires '=' !in l
    ensures Cut(l + "=" + r, '=') == Some((l, r))
  {
    IndexAt(l, '=', r);
    var s := l + ['='] + r;
    assert s == l + "=" + r && s[..|l|] == l && s[|l| + 1..] == r;
  }

  lemma TrimTwice(a: string, b: string)
    ensures TrimSpace(TrimLeft(a)) == TrimSpace(a)
    ensures TrimSpace(TrimRight(b)) == TrimSpace(b)
  {
    hide SpaceWidth, LastSpaceWidth;
    TrimsCommute(b);
  }

  /** A cfg line that is no command is read as ParseParams reads it. */
  lemma {:induction false} CfgReadIsRead<F>(ff: Floats<F>, line: string)
    requires var l := CfgRead(ff, line); l.Skip? || l.Param?
    ensures Read(ff, line) == match CfgRead(ff, line) case Param(s) => s case _ => Nothing
  {
    TrimmedLineReads(line);
    BlankHasNoKey();
    hide TrimSpace, Cut, ReadValue;
    match KeyValue(line)
    case None =>
    case Some((k, v)) =>
      CommandIsNoKey(k);
      hide KeyOf, IsCommand;
  }

  lemma BlankHasNoKey()
    ensures KeyValue("") == None
  {
  }

  lemma CommandIsNoKey(k: string)
    ensures IsCommand(k) || k == "cwd" ==> KeyOf(k) == None
  {
  }

  lemma {:induction false} ParseWellFormed<F>(ff: Floats<F>, lines: seq<string>, p: Params<F>)
    ensures ParseLines(ff, WellFormed(ff, lines), p) == (SetAllOf(ff, lines, p), true)
    decreases |lines|
  {
    hide Read;
    if lines == [] {
    } else {
      var s := Read(ff, lines[0]);
      ParseWellFormed(ff, lines[1..], Set(p, s));
      if s == Malformed {
        SetNothing(p);
        assert [] + WellFormed(ff, lines[1..]) == WellFormed(ff, lines[1..]);
      } else {
        assert ([lines[0]] + WellFormed(ff, lines[1..]))[1..] == WellFormed(ff, lines[1..]);
      }
    }
  }

  lemma {:induction false} CfgInstalls<F(!new)>(ff: Floats<F>, core: Core<F>, lines: seq<string>, n: nat, p: Params<F>,
                                               hasParams: bool)
    requires ParameterLinesOnly(ff, lines)
    ensures var q := SetAllOf(ff, lines, p);
            CfgLines(ff, core, lines, n, p, hasParams) ==
            if !hasParams && !NamesParameter(ff, lines) then ([], Accepted)
            else if core.running(n + |lines|) then ([], ParamsWhileRunning)
            else ([SetGenerationParams(q)], if core.accepts(q) then Accepted else Refused)
    decreases |lines|
  {
    hide Read, CfgRead, Set;
    if lines == [] {
    } else {
      CfgReadIsRead(ff, lines[0]);
      assert forall i :: 0 <= i < |lines[1..]| ==> lines[1..][i] == lines[i + 1];
      var line := CfgRead(ff, lines[0]);
      SetNothing(p);
      CfgInstalls(ff, core, lines[1..], n + 1, if line.Param? then Set(p, line.s) else p, hasParams || line.Param?);
    }
  }

  lemma SetNothing<F>(p: Params<F>)
    ensures Set(p, Nothing) == p && Set(p, Malformed) == p
  {
  }

  // ---- the input with malformed values removed, as text ------------------

  function Repaired<F(==)>(ff: Floats<F>, input: string): string {
    Join(WellFormed(ff, Split(input, '\n')), '\n')
  }

  lemma {:induction false} SplitParts(s: string, c: char)
    ensures forall part :: part in Split(s, c) ==> c !in part
    decreases |s|
  {
    var i := Index(s, c);
    if i >= 0 {
      SplitParts(s[i + 1..], c);
    }
  }

  lemma {:induction false} SplitJoin(parts: seq<string>, c: char)
    requires forall part :: part in parts ==> c !in part
    ensures Split(Join(parts, c), c) == if parts == [] then [""] else parts
    decreases |parts|
  {
    if |parts| > 1 {
      var rest := Join(parts[1..], c);
      IndexAt(parts[0], c, rest);
      var s := parts[0] + [c] + rest;
      JoinCons(parts, c);
      assert s[..|parts[0]|] == parts[0] && s[|parts[0]| + 1..] == rest;
      SplitJoin(parts[1..], c);
      HeadTail(parts);
    } else if |parts| == 1 {
      assert parts == [parts[0]] && c !in parts[0];
      JoinCons(parts, c);
      assert Index(parts[0], c) < 0;
    }
  }

  lemma {:induction false} ParseRepaired<F(!new)>(ff: Floats<F>, input: string, p: Params<F>)
    ensures ParseLines(ff, Split(Repaired(ff, input), '\n'), p) == (SetAllOf(ff, Split(input, '\n'), p), true)
  {
    hide Read, Split, Join;
    var lines := Split(input, '\n');
    SplitParts(input, '\n');
    SplitJoin(WellFormed(ff, lines), '\n');
    ParseWellFormed(ff, lines, p);
    if WellFormed(ff, lines) == [] {
      BlankReads(ff);
      SetNothing(p);
      assert [""][1..] == [];
    }
  }

  /** Writing parameter lines to cfg while the core is idle installs exactly what
      ParseParams yields on the input with its malformed values removed, where it meets
      no error; while it is running they are refused as a whole; input that names no
      parameter does nothing. */
  lemma {:induction false} CfgRefinesParser<F(!new)>(ff: Floats<F>, core: Core<F>, input: string, p: Params<F>)
    requires ParameterLinesOnly(ff, Split(input, '\n'))
    ensures var lines := Split(input, '\n');
            var parsed := ParseLines(ff, Split(Repaired(ff, input), '\n'), p);
            && parsed.1
            && CfgLines(ff, core, lines, 0, p, false) ==
               if !NamesParameter(ff, lines) then ([], Accepted)
               else if core.running(|lines|) then ([], ParamsWhileRunning)
               else ([SetGenerationParams(parsed.0)], if core.accepts(parsed.0) then Accepted else Refused)
  {
    hide Read, Split, Repaired, CfgRead;
    ParseRepaired(ff, input, p);
    CfgInstalls(ff, core, Split(input, '\n'), 0, p, false);
  }

  // ---- the last valid value of each key wins -----------------------------

  /** The last well-formed setting for the key, or Nothing. */
  function LastFor<F(==)>(ff: Floats<F>, lines: seq<string>, key: Key): Setting<F> {
    if lines == [] then Nothing
    else
      var later := LastFor(ff, lines[1..], key);
      if later != Nothing then later
      else if Sets(Read(ff, lines[0]), key) then Read(ff, lines[0]) else Nothing
  }

  predicate Sets<F>(s: Setting<F>, key: Key) {
    match s
    case Tokens(_) => key == MaxTokens
    case Number(k, _) => key == k && k != MaxTokens
    case _ => false
  }

  lemma {:induction false} LastValidWins<F>(ff: Floats<F>, lines: seq<string>, p: Params<F>, key: Key)
    ensures Field(SetAllOf(ff, lines, p), key) ==
            if LastFor(ff, lines, key) == Nothing then Field(p, key) else LastFor(ff, lines, key)
    decreases |lines|
  {
    hide Read;
    if lines == [] {
    } else {
      LastValidWins(ff, lines[1..], Set(p, Read(ff, lines[0])), key);
    }
  }

  // ---- lines for different keys commute ----------------------------------

  lemma {:induction false} SetAllConcat<F>(ff: Floats<F>, a: seq<string>, b: seq<string>, p: Params<F>)
    ensures SetAllOf(ff, a + b, p) == SetAllOf(ff, b, SetAllOf(ff, a, p))
    decreases |a|
  {
    hide Read, Set;
    TailOfConcat(a, b);
    if a == [] {
    } else {
      SetAllConcat(ff, a[1..], b, Set(p, Read(ff, a[0])));
    }
  }

  lemma SetTwo<F>(ff: Floats<F>, x: string, y: string, p: Params<F>)
    ensures SetAllOf(ff, [x, y], p) == Set(Set(p, Read(ff, x)), Read(ff, y))
  {
    hide Read, Set;
    var q := Set(p, Read(ff, x));
    assert [x, y][1..] == [y] && [y][1..] == [];
    assert SetAllOf(ff, [y], q) == Set(q, Read(ff, y));
  }

  lemma SetsCommute<F>(p: Params<F>, s: Setting<F>, t: Setting<F>)
    requires forall key :: !(Sets(s, key) && Sets(t, key))
    ensures Set(Set(p, s), t) == Set(Set(p, t), s)
  {
    match s
    case Tokens(n) => assert !Sets(t, MaxTokens);
    case Number(key, v) => assert key != MaxTokens ==> !Sets(t, key);
    case _ =>
  }

  /** Two neighbouring parameter lines that do not set the same key may change places. */
  lemma {:induction false} DifferentKeysCommute<F(!new)>(ff: Floats<F>, a: seq<string>, x: string, y: string,
                                                        b: seq<string>, p: Params<F>)
    requires forall key :: !(Sets(Read(ff, x), key) && Sets(Read(ff, y), key))
    ensures SetAllOf(ff, a + [x, y] + b, p) == SetAllOf(ff, a + [y, x] + b, p)
  {
    var q := SetAllOf(ff, a, p);
    hide Read, Set;
    SetsCommute(q, Read(ff, x), Read(ff, y));
    SetTwo(ff, x, y, q);
    SetTwo(ff, y, x, q);
    SetAllConcat(ff, a, [x, y], p);
    SetAllConcat(ff, a, [y, x], p);
    SetAllConcat(ff, a + [x, y], b, p);
    SetAllConcat(ff, a + [y, x], b, p);
  }

  // ---- commands ----------------------------------------------------------

  /** A line of a key and a trimmed value is read as just these. */
  lemma {:induction false} PlainLine(k: string, v: string)
    requires Graphic(k) && '=' !in k && TrimSpace(v) == v
    ensures TrimSpace(k + "=" + v) != "" && KeyValue(TrimSpace(k + "=" + v)) == Some((k, v))
  {
    hide TrimSpace;
    TrimmedLineReads(k + "=" + v);
    CutAt(k, v);
    GraphicTrimmed(k);
    BlankHasNoKey();
  }

  lemma CommandNames(k: string)
    requires k in {"backend", "model", "agent", "cwd"}
    ensures Graphic(k) && '=' !in k && (k != "cwd" ==> IsCommand(k)) && !IsCommand("cwd")
  {
  }

  lemma {:induction false} CommandReads<F>(ff: Floats<F>, k: string, v: string)
    requires k in {"backend", "model", "agent", "cwd"} && TrimSpace(v) == v
    ensures CfgRead(ff, k + "=" + v) == if v == "" then Skip else if k == "cwd" then Cwd(v) else Command(k, v)
  {
    hide TrimSpace, KeyValue, IsCommand, KeyOf, Graphic;
    CommandNames(k);
    PlainLine(k, v);
  }

  /** backend=v, model=v and agent=v submit "/backend v" and so on to an idle core and
      are refused by a running one, which ends the write; without a value they are
      skipped. */
  lemma {:induction false} CommandSubmits<F>(ff: Floats<F>, core: Core<F>, k: string, v: string, rest: seq<string>,
                                             n: nat, p: Params<F>, hasParams: bool)
    requires k in {"backend", "model", "agent"} && TrimSpace(v) == v
    ensures var next := CfgLines(ff, core, rest, n + 1, p, hasParams);
            CfgLines(ff, core, [k + "=" + v] + rest, n, p, hasParams) ==
            if v == "" then next
            else if core.running(n) then ([], SwitchWhileRunning(k))
            else ([Submit("/" + k + " " + v)] + next.0, next.1)
  {
    CommandReads(ff, k, v);
    hide TrimSpace, CfgRead;
    var lines := [k + "=" + v] + rest;
    assert lines[0] == k + "=" + v && lines[1..] == rest;
  }

  /** cwd=v changes the directory; a failure ends the write. */
  lemma {:induction false} CwdChanges<F>(ff: Floats<F>, core: Core<F>, v: string, rest: seq<string>,
                                         n: nat, p: Params<F>, hasParams: bool)
    requires v != "" && TrimSpace(v) == v
    ensures var next := CfgLines(ff, core, rest, n + 1, p, hasParams);
            CfgLines(ff, core, ["cwd=" + v] + rest, n, p, hasParams) ==
            if core.changesDir(n) then ([SetCWD(v)] + next.0, next.1) else ([SetCWD(v)], BadDirectory)
  {
    CommandReads(ff, "cwd", v);
    hide TrimSpace, CfgRead;
    var lines := ["cwd=" + v] + rest;
    assert "cwd" + "=" == "cwd=";
    assert lines[0] == "cwd=" + v && lines[1..] == rest;
  }

  /** A write of one command. */
  lemma {:induction false} OneCommand<F>(ff: Floats<F>, core: Core<F>, k: string, v: string, p: Params<F>)
    requires k in {"backend", "model", "agent"} && TrimSpace(v) == v && v != ""
    ensures CfgLines(ff, core, [k + "=" + v], 0, p, false) ==
            if core.running(0) then ([], SwitchWhileRunning(k)) else ([Submit("/" + k + " " + v)], Accepted)
  {
    hide TrimSpace, CfgRead;
    var line := k + "=" + v;
    assert [line] + [] == [line];
    CommandSubmits(ff, core, k, v, [], 0, p, false);
    var call: Call<F> := Submit("/" + k + " " + v);
    assert [call] + [] == [call];
  }

  /** At an input: a switch of the model, with the core idle and with it running. */
  lemma {:induction false} ModelSwitch<F>(ff: Floats<F>, core: Core<F>, p: Params<F>)
    ensures CfgLines(ff, core, ["model=x"], 0, p, false) ==
            if core.running(0) then ([], SwitchWhileRunning("model")) else ([Submit("/model x")], Accepted)
  {
    GraphicTrimmed("x");
    hide TrimSpace, CfgLines, Graphic;
    assert "model" + "=" + "x" == "model=x" && "/" + "model" + " " + "x" == "/model x";
    OneCommand(ff, core, "model", "x", p);
  }
}
