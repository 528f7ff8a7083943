/** Generation parameters as key=value lines: the printer, the parser, and the cfg
    file that uses the same syntax more leniently. */
module Params {
  import opened Seqs
  import opened Text

  datatype Params<F> = Params(
    maxTokens: int,
    temperature: Option<F>,
    frequencyPenalty: Option<F>,
    presencePenalty: Option<F>)

  /** strconv's printing (%g) and parsing of floats; `F` has no NaN. */
  datatype Floats<!F> = Floats(print_: F -> string, parse: string -> Option<F>)

  /** Printable and without white space, as every %g output is. */
  predicate Graphic(s: string) {
    s != "" && forall i :: 0 <= i < |s| ==> '!' <= s[i] <= '~'
  }

  /** %g prints the shortest text that parses back to the same number. */
  ghost predicate Faithful<F(!new)>(ff: Floats<F>) {
    forall f :: Graphic(ff.print_(f)) && ff.parse(ff.print_(f)) == Some(f)
  }

  // ---- decimal integers --------------------------------------------------

  const MIN_INT64 := -0x8000_0000_0000_0000
  const MAX_INT64 := 0x7FFF_FFFF_FFFF_FFFF

  function Digit(d: nat): (c: char)
    requires d < 10
    ensures '0' <= c <= '9' && c as int - '0' as int == d
  {
    ('0' as int + d) as char
  }

  function Digits(n: nat): (s: string)
    ensures AllDigits(s)
  {
    if n < 10 then [Digit(n)] else Digits(n / 10) + [Digit(n % 10)]
  }

  /** %d. */
  function FormatInt(n: int): string {
    if n < 0 then "-" + Digits(-n) else Digits(n)
  }

  predicate AllDigits(s: string) {
    s != "" && forall i :: 0 <= i < |s| ==> '0' <= s[i] <= '9'
  }

  function Value(s: string): nat
    requires forall i :: 0 <= i < |s| ==> '0' <= s[i] <= '9'
  {
    if s == "" then 0 else 10 * Value(s[..|s| - 1]) + (s[|s| - 1] as int - '0' as int)
  }

  /** strconv.Atoi: an optional sign, then digits, within 64 bits. */
  function Atoi(s: string): Option<int> {
    var signed := s != "" && (s[0] == '-' || s[0] == '+');
    var digits := if signed then s[1..] else s;
    if !AllDigits(digits) then None
    else
      var n: int := if signed && s[0] == '-' then 0 - Value(digits) else Value(digits);
      if MIN_INT64 <= n <= MAX_INT64 then Some(n) else None
  }

  lemma {:induction false} DigitsValue(n: nat)
    ensures Value(Digits(n)) == n
  {
    if n >= 10 {
      DigitsValue(n / 10);
      SnocTake(Digits(n / 10), Digit(n % 10));
    }
  }

  /** Digits are read as their value, with or without a minus sign in front. */
  lemma AtoiDigits(d: string)
    requires AllDigits(d)
    ensures Value(d) <= MAX_INT64 ==> Atoi(d) == Some(Value(d))
    ensures Value(d) <= -MIN_INT64 ==> Atoi("-" + d) == Some(0 - Value(d))
    ensures Graphic(d) && Graphic("-" + d)
  {
    hide Value;
    assert '0' <= d[0] <= '9';
    assert ("-" + d)[1..] == d;
  }

  lemma {:induction false} AtoiOfFormat(n: int)
    requires MIN_INT64 <= n <= MAX_INT64
    ensures Atoi(FormatInt(n)) == Some(n) && Graphic(FormatInt(n))
  {
    hide Atoi, Graphic, AllDigits, Value, Digits;
    var m: nat := if n < 0 then -n else n;
    DigitsValue(m);
    AtoiDigits(Digits(m));
  }

  /** Atoi reads digits with or without a sign, within 64 bits, and nothing else. */
  lemma {:induction false} AtoiIs(d: string, s: string)
    requires AllDigits(d)
    ensures Atoi(d) == (if Value(d) <= 9223372036854775807 then Some(Value(d)) else None)
    ensures Atoi("+" + d) == Atoi(d)
    ensures Atoi("-" + d) == (if Value(d) <= 9223372036854775808 then Some(0 - Value(d)) else None)
    ensures Atoi(s).Some? ==> AllDigits(s) || (s != "" && s[0] in {'+', '-'} && AllDigits(s[1..]))
  {
    hide Value;
    assert '0' <= d[0] <= '9';
    assert ("-" + d)[1..] == d && ("+" + d)[1..] == d;
  }

  /** The digits are decimal. */
  lemma DigitsAt()
    ensures Digits(1204) == "1204" && Digits(0) == "0"
  {
    assert Digits(1) == "1" && Digits(12) == "12" && Digits(120) == "120";
  }

  // ---- one line ----------------------------------------------------------

  datatype Key = MaxTokens | Temperature | FrequencyPenalty | PresencePenalty

  function KeyOf(k: string): Option<Key> {
    match k
    case "maxTokens" => Some(MaxTokens)
    case "temperature" => Some(Temperature)
    case "frequencyPenalty" => Some(FrequencyPenalty)
    case "presencePenalty" => Some(PresencePenalty)
    case _ => None
  }

  /** Cut at the first equals sign, both sides trimmed. */
  function KeyValue(line: string): Option<(string, string)> {
    match Cut(line, '=')
    case Some((k, v)) => Some((TrimSpace(k), TrimSpace(v)))
    case None => None
  }

  /** What a line asks for: nothing, a malformed value, or a field and its value. */
  datatype Setting<F> = Nothing | Malformed | Tokens(n: int) | Number(key: Key, value: Option<F>)

  function ReadValue<F>(ff: Floats<F>, key: Key, v: string): Setting<F> {
    if key == MaxTokens then
      if v == "" then Tokens(0)
      else (match Atoi(v) case Some(n) => Tokens(n) case None => Malformed)
    else if v == "" then Number(key, None)
    else (match ff.parse(v) case Some(f) => Number(key, Some(f)) case None => Malformed)
  }

  function Read<F>(ff: Floats<F>, line: string): Setting<F> {
    match KeyValue(line)
    case None => Nothing
    case Some((k, v)) => (match KeyOf(k) case None => Nothing case Some(key) => ReadValue(ff, key, v))
  }

  function Set<F>(p: Params<F>, s: Setting<F>): Params<F> {
    match s
    case Tokens(n) => p.(maxTokens := n)
    case Number(Temperature, v) => p.(temperature := v)
    case Number(FrequencyPenalty, v) => p.(frequencyPenalty := v)
    case Number(PresencePenalty, v) => p.(presencePenalty := v)
    case _ => p
  }

  /** The setting that writes the field's present value. */
  function Field<F>(p: Params<F>, key: Key): Setting<F> {
    match key
    case MaxTokens => Tokens(p.maxTokens)
    case Temperature => Number(key, p.temperature)
    case FrequencyPenalty => Number(key, p.frequencyPenalty)
    case PresencePenalty => Number(key, p.presencePenalty)
  }

  // ---- ParseParams -------------------------------------------------------

  /** The parameters and whether parsing got through; it stops at a malformed value. */
  function ParseLines<F>(ff: Floats<F>, lines: seq<string>, p: Params<F>): (Params<F>, bool)
    decreases |lines|
  {
    if lines == [] then (p, true)
    else
      var s := Read(ff, lines[0]);
      if s == Malformed then (p, false) else ParseLines(ff, lines[1..], Set(p, s))
  }

  method ParseParams<F(==)>(ff: Floats<F>, input: string, current: Params<F>) returns (p: Params<F>, ok: bool)
    ensures (p, ok) == ParseLines(ff, Split(input, '\n'), current)
  {
    hide Read, Split, KeyOf;
    p := current;
    var lines := Split(input, '\n');
    var i := 0;
    while i < |lines|
      invariant 0 <= i <= |lines|
      invariant ParseLines(ff, lines, current) == ParseLines(ff, lines[i..], p)
    {
      var line := lines[i];
      assert lines[i..][0] == line && lines[i..][1..] == lines[i + 1..];
      var next := ParseLine(ff, line, p);
      if next == None {
        return p, false;
      }
      p := next.value;
      i := i + 1;
    }
    ok := true;
  }

  /** The body of the parse loop; None is the early error return. */
  method ParseLine<F(==)>(ff: Floats<F>, line: string, p: Params<F>) returns (r: Option<Params<F>>)
    ensures r == if Read(ff, line) == Malformed then None else Some(Set(p, Read(ff, line)))
  {
    hide TrimSpace, Atoi, Index;
    var cut := Cut(line, '=');
    if cut == None {
      return Some(p);
    }
    var k, v := TrimSpace(cut.value.0), TrimSpace(cut.value.1);
    match k {
      case "maxTokens" =>
        if v == "" {
          r := Some(p.(maxTokens := 0));
        } else {
          var n := Atoi(v);
          r := if n == None then None else Some(p.(maxTokens := n.value));
        }
      case "temperature" =>
        var f := if v == "" then None else ff.parse(v);
        r := if v != "" && f == None then None else Some(p.(temperature := f));
      case "frequencyPenalty" =>
        var f := if v == "" then None else ff.parse(v);
        r := if v != "" && f == None then None else Some(p.(frequencyPenalty := f));
      case "presencePenalty" =>
        var f := if v == "" then None else ff.parse(v);
        r := if v != "" && f == None then None else Some(p.(presencePenalty := f));
      case _ =>
        r := Some(p);
    }
  }

  // ---- FormatParams and the round trip -----------------------------------

  function KeyName(key: Key): (k: string)
    ensures KeyOf(k) == Some(key)
  {
    match key
    case MaxTokens => "maxTokens"
    case Temperature => "temperature"
    case FrequencyPenalty => "frequencyPenalty"
    case PresencePenalty => "presencePenalty"
  }

  function FormatSetting<F>(ff: Floats<F>, s: Setting<F>): string {
    match s
    case Tokens(n) => FormatInt(n)
    case Number(_, Some(f)) => ff.print_(f)
    case _ => ""
  }

  function FormatLine<F>(ff: Floats<F>, p: Params<F>, key: Key): string {
    KeyName(key) + "=" + FormatSetting(ff, Field(p, key))
  }

  function FormatLines<F>(ff: Floats<F>, p: Params<F>): seq<string> {
    [FormatLine(ff, p, MaxTokens), FormatLine(ff, p, Temperature),
     FormatLine(ff, p, FrequencyPenalty), FormatLine(ff, p, PresencePenalty)]
  }

  /** Each line with its newline. */
  function Unlines(lines: seq<string>): string {
    if lines == [] then "" else lines[0] + "\n" + Unlines(lines[1..])
  }

  function FormatParams<F>(ff: Floats<F>, p: Params<F>): string {
    Unlines(FormatLines(ff, p))
  }

  lemma {:induction false} SplitUnlines(lines: seq<string>)
    requires forall i :: 0 <= i < |lines| ==> '\n' !in lines[i]
    ensures Split(Unlines(lines), '\n') == lines + [""]
  {
    if lines == [] {
    } else {
      var rest := Unlines(lines[1..]);
      var s := lines[0] + ['\n'] + rest;
      IndexAt(lines[0], '\n', rest);
      assert s == Unlines(lines);
      assert s[..|lines[0]|] == lines[0] && s[|lines[0]| + 1..] == rest;
      SplitUnlines(lines[1..]);
      HeadTail(lines);
      Assoc([lines[0]], lines[1..], [""]);
    }
  }

  /** Trimming leaves printable text alone. */
  lemma GraphicTrimmed(s: string)
    requires s == "" || Graphic(s)
    ensures TrimSpace(s) == s
  {
    if s != "" {
      assert '!' <= s[0] <= '~' && '!' <= s[|s| - 1] <= '~';
    }
  }

  /** A printed line reads back as its key and value. */
  lemma {:induction false} PrintedLine(k: string, v: string)
    requires Graphic(k) && '=' !in k && (v == "" || Graphic(v))
    ensures KeyValue(k + "=" + v) == Some((k, v)) && '\n' !in k + "=" + v
  {
    IndexAt(k, '=', v);
    var s := k + ['='] + v;
    assert s[..|k|] == k && s[|k| + 1..] == v && s == k + "=" + v;
    GraphicTrimmed(k);
    GraphicTrimmed(v);
  }

  lemma KeysPrint(key: Key)
    ensures Graphic(KeyName(key)) && '=' !in KeyName(key)
  {
    hide KeyOf, Graphic;
    match key
    case MaxTokens => LettersPrint("maxTokens");
    case Temperature => LettersPrint("temperature");
    case FrequencyPenalty => LettersPrint("frequencyPenalty");
    case PresencePenalty => LettersPrint("presencePenalty");
  }

  lemma LettersPrint(s: string)
    requires s != "" && forall i :: 0 <= i < |s| ==> 'A' <= s[i] <= 'z'
    ensures Graphic(s) && '=' !in s
  {
  }

  lemma GraphicSome(s: string)
    requires Graphic(s)
    ensures s != ""
  {
  }

  lemma SettingReads<F(!new)>(ff: Floats<F>, p: Params<F>, key: Key)
    requires Faithful(ff) && MIN_INT64 <= p.maxTokens <= MAX_INT64
    ensures var v := FormatSetting(ff, Field(p, key));
            (v == "" || Graphic(v)) && ReadValue(ff, key, v) == Field(p, key)
  {
    hide FormatInt, Atoi, Graphic;
    forall t | Graphic(t) ensures t != "" { GraphicSome(t); }
    match key
    case MaxTokens => AtoiOfFormat(p.maxTokens);
    case Temperature =>
    case FrequencyPenalty =>
    case PresencePenalty =>
  }

  lemma {:induction false} LineReads<F(!new)>(ff: Floats<F>, p: Params<F>, key: Key)
    requires Faithful(ff) && MIN_INT64 <= p.maxTokens <= MAX_INT64
    ensures '\n' !in FormatLine(ff, p, key) && Read(ff, FormatLine(ff, p, key)) == Field(p, key)
  {
    hide KeyOf, KeyName, KeyValue, Graphic, FormatSetting, ReadValue, Faithful, Field;
    KeysPrint(key);
    SettingReads(ff, p, key);
    PrintedLine(KeyName(key), FormatSetting(ff, Field(p, key)));
  }

  lemma ParseStep<F>(ff: Floats<F>, lines: seq<string>, i: nat, p: Params<F>)
    requires i < |lines| && Read(ff, lines[i]) != Malformed
    ensures ParseLines(ff, lines[i..], p) == ParseLines(ff, lines[i + 1..], Set(p, Read(ff, lines[i])))
  {
    hide Read, Set;
    assert lines[i..][1..] == lines[i + 1..];
  }

  lemma PrintedLines<F(!new)>(ff: Floats<F>, p: Params<F>)
    requires Faithful(ff) && MIN_INT64 <= p.maxTokens <= MAX_INT64
    ensures Split(FormatParams(ff, p), '\n') == FormatLines(ff, p) + [""]
    ensures forall key :: Read(ff, FormatLine(ff, p, key)) == Field(p, key)
  {
    hide Read, FormatLine, Split, Unlines, Faithful, Field;
    forall key ensures '\n' !in FormatLine(ff, p, key) && Read(ff, FormatLine(ff, p, key)) == Field(p, key) {
      LineReads(ff, p, key);
    }
    SplitUnlines(FormatLines(ff, p));
  }

  /** Printing and parsing back, from any starting value, gives the same parameters
      without an error, for every Go int and every float. */
  lemma {:induction false} FormatThenParse<F(!new)>(ff: Floats<F>, p: Params<F>, current: Params<F>)
    requires Faithful(ff) && MIN_INT64 <= p.maxTokens <= MAX_INT64
    ensures ParseLines(ff, Split(FormatParams(ff, p), '\n'), current) == (p, true)
  {
    hide Read, FormatLine, FormatParams, Split, ParseLines, Faithful, Set, Field;
    PrintedLines(ff, p);
    BlankReads(ff);
    SetAll(p, current);
    ParseFive(ff, FormatLines(ff, p) + [""], current);
  }

  lemma BlankReads<F>(ff: Floats<F>)
    ensures Read(ff, "") == Nothing
  {
  }

  lemma SetAll<F>(p: Params<F>, c: Params<F>)
    ensures Set(Set(Set(Set(c, Field(p, MaxTokens)), Field(p, Temperature)),
                    Field(p, FrequencyPenalty)), Field(p, PresencePenalty)) == p
    ensures forall key :: Field(p, key) != Malformed
  {
  }

  lemma ParseFive<F>(ff: Floats<F>, lines: seq<string>, c0: Params<F>)
    requires |lines| == 5 && Read(ff, lines[4]) == Nothing
    requires forall i :: 0 <= i < 4 ==> Read(ff, lines[i]) != Malformed
    ensures ParseLines(ff, lines, c0) ==
            (Set(Set(Set(Set(c0, Read(ff, lines[0])), Read(ff, lines[1])), Read(ff, lines[2])), Read(ff, lines[3])),
             true)
  {
    hide Read;
    var c1 := Set(c0, Read(ff, lines[0]));
    var c2 := Set(c1, Read(ff, lines[1]));
    var c3 := Set(c2, Read(ff, lines[2]));
    var c4 := Set(c3, Read(ff, lines[3]));
    assert lines[0..] == lines;
    ParseStep(ff, lines, 0, c0);
    ParseStep(ff, lines, 1, c1);
    ParseStep(ff, lines, 2, c2);
    ParseStep(ff, lines, 3, c3);
    ParseStep(ff, lines, 4, c4);
    assert lines[5..] == [];
  }

  /** The four lines of the format, by name. */
  lemma {:induction false} FormatIs<F>(ff: Floats<F>, p: Params<F>)
    ensures FormatParams(ff, p) ==
            "maxTokens=" + FormatInt(p.maxTokens) + "\n"
            + "temperature=" + (if p.temperature.Some? then ff.print_(p.temperature.value) else "") + "\n"
            + "frequencyPenalty=" + (if p.frequencyPenalty.Some? then ff.print_(p.frequencyPenalty.value) else "")
            + "\n"
            + "presencePenalty=" + (if p.presencePenalty.Some? then ff.print_(p.presencePenalty.value) else "") + "\n"
  {
    hide FormatLine, Unlines, FormatInt;
    LineTexts(ff, p);
    FourLines(FormatLine(ff, p, MaxTokens), FormatLine(ff, p, Temperature), FormatLine(ff, p, FrequencyPenalty),
              FormatLine(ff, p, PresencePenalty));
  }

  lemma LineTexts<F>(ff: Floats<F>, p: Params<F>)
    ensures FormatLine(ff, p, MaxTokens) == "maxTokens=" + FormatInt(p.maxTokens)
    ensures FormatLine(ff, p, Temperature) ==
            "temperature=" + (if p.temperature.Some? then ff.print_(p.temperature.value) else "")
    ensures FormatLine(ff, p, FrequencyPenalty) ==
            "frequencyPenalty=" + (if p.frequencyPenalty.Some? then ff.print_(p.frequencyPenalty.value) else "")
    ensures FormatLine(ff, p, PresencePenalty) ==
            "presencePenalty=" + (if p.presencePenalty.Some? then ff.print_(p.presencePenalty.value) else "")
  {
    hide FormatInt, KeyOf;
    assert "maxTokens" + "=" == "maxTokens=" && "temperature" + "=" == "temperature=";
    assert "frequencyPenalty" + "=" == "frequencyPenalty=" && "presencePenalty" + "=" == "presencePenalty=";
  }

  lemma FourLines(a: string, b: string, c: string, d: string)
    ensures Unlines([a, b, c, d]) == a + "\n" + b + "\n" + c + "\n" + d + "\n"
  {
    assert [a, b, c, d][1..] == [b, c, d] && [b, c, d][1..] == [c, d] && [c, d][1..] == [d] && [d][1..] == [];
    assert Unlines([d]) == d + "\n";
    assert Unlines([c, d]) == c + "\n" + d + "\n";
    assert Unlines([b, c, d]) == b + "\n" + c + "\n" + d + "\n";
  }

  /** What a line of a named key and a printable value asks for; no value resets it. */
  lemma {:induction false} LineIs<F>(ff: Floats<F>, v: string)
    requires v == "" || Graphic(v)
    ensures Read(ff, "maxTokens=" + v) ==
            if v == "" then Tokens(0) else if Atoi(v).Some? then Tokens(Atoi(v).value) else Malformed
    ensures Read(ff, "temperature=" + v) == NumberIs(ff, Temperature, v)
    ensures Read(ff, "frequencyPenalty=" + v) == NumberIs(ff, FrequencyPenalty, v)
    ensures Read(ff, "presencePenalty=" + v) == NumberIs(ff, PresencePenalty, v)
  {
    hide Atoi, KeyOf, KeyValue, Graphic;
    NamedLine(ff, "maxTokens", MaxTokens, v);
    NamedLine(ff, "temperature", Temperature, v);
    NamedLine(ff, "frequencyPenalty", FrequencyPenalty, v);
    NamedLine(ff, "presencePenalty", PresencePenalty, v);
    assert "maxTokens" + "=" == "maxTokens=" && "temperature" + "=" == "temperature=";
    assert "frequencyPenalty" + "=" == "frequencyPenalty=" && "presencePenalty" + "=" == "presencePenalty=";
  }

  function NumberIs<F>(ff: Floats<F>, key: Key, v: string): Setting<F> {
    if v == "" then Number(key, None)
    else if ff.parse(v).Some? then Number(key, ff.parse(v)) else Malformed
  }

  lemma NamedLine<F>(ff: Floats<F>, name: string, key: Key, v: string)
    requires v == "" || Graphic(v)
    requires name == match key
                     case MaxTokens => "maxTokens"
                     case Temperature => "temperature"
                     case FrequencyPenalty => "frequencyPenalty"
                     case PresencePenalty => "presencePenalty"
    ensures Read(ff, name + "=" + v) == ReadValue(ff, key, v)
  {
    KeysPrint(key);
    assert name == KeyName(key);
    hide Graphic, KeyValue, KeyOf, ReadValue;
    PrintedLine(name, v);
  }

  /** Parsing stops at the first malformed value and returns what it had by then. */
  lemma {:induction false} ParseStops<F>(ff: Floats<F>, a: seq<string>, bad: string, b: seq<string>, p: Params<F>)
    requires (forall i :: 0 <= i < |a| ==> Read(ff, a[i]) != Malformed) && Read(ff, bad) == Malformed
    ensures ParseLines(ff, a + [bad] + b, p) == (ParseLines(ff, a, p).0, false)
    decreases |a|
  {
    hide Read, Set;
    var all := a + [bad] + b;
    if a == [] {
      assert all[0] == bad;
    } else {
      assert all[0] == a[0] && all[1..] == a[1..] + [bad] + b;
      ParseStops(ff, a[1..], bad, b, Set(p, Read(ff, a[0])));
    }
  }
}
