/** Go strings and byte slices. A Go string is a byte sequence and a conversion
    to or from []byte copies it unchanged, so both are a Dafny `string` here,
    one `char` for each byte. */
module Text {
  import opened Seqs

  datatype Option<+T> = None | Some(value: T)

  /** strings.LastIndex for a one-byte separator; -1 when it does not occur. */
  function LastIndex(s: string, c: char): (i: int)
    ensures -1 <= i < |s|
    ensures i >= 0 ==> s[i] == c
    ensures forall k :: i < k < |s| ==> s[k] != c
  {
    if s == "" then -1
    else if s[|s| - 1] == c then |s| - 1
    else LastIndex(s[..|s| - 1], c)
  }

  /** strings.Index for a one-byte separator; -1 when it does not occur. */
  function Index(s: string, c: char): (i: int)
    ensures -1 <= i < |s|
    ensures i >= 0 ==> s[i] == c
    ensures forall k :: 0 <= k < (if i >= 0 then i else |s|) ==> s[k] != c
  {
    if s == "" then -1
    else if s[0] == c then 0
    else var i := Index(s[1..], c); if i < 0 then -1 else i + 1
  }

  /** strings.Cut for a one-byte separator. */
  function Cut(s: string, c: char): Option<(string, string)> {
    var i := Index(s, c);
    if i < 0 then None else Some((s[..i], s[i + 1..]))
  }

  /** strings.SplitN for a one-byte separator and a positive limit. */
  function SplitN(s: string, c: char, n: nat): (parts: seq<string>)
    requires n > 0
    ensures 0 < |parts| <= n
    decreases n
  {
    var i := Index(s, c);
    if n == 1 || i < 0 then [s] else [s[..i]] + SplitN(s[i + 1..], c, n - 1)
  }

  /** strings.Split for a one-byte separator. */
  function Split(s: string, c: char): (parts: seq<string>)
    ensures |parts| > 0
    decreases |s|
  {
    var i := Index(s, c);
    if i < 0 then [s] else [s[..i]] + Split(s[i + 1..], c)
  }

  /** strings.Join for a one-byte separator. */
  function Join(parts: seq<string>, c: char): string {
    if parts == [] then ""
    else if |parts| == 1 then parts[0]
    else parts[0] + [c] + Join(parts[1..], c)
  }

  function TrimPrefix(s: string, p: string): string {
    if p <= s then s[|p|..] else s
  }

  predicate HasSuffix(s: string, t: string) {
    |t| <= |s| && s[|s| - |t|..] == t
  }

  function TrimSuffix(s: string, t: string): string {
    if HasSuffix(s, t) then s[..|s| - |t|] else s
  }

  lemma SliceSplit(s: string, i: nat, j: nat)
    requires i <= j <= |s|
    ensures s[i..] == s[i..j] + s[j..]
  {
  }

  lemma {:induction false} IndexAt(a: string, c: char, b: string)
    requires c !in a
    ensures Index(a + [c] + b, c) == |a|
  {
    var s := a + [c] + b;
    assert s[|a|] == c;
    assert forall k :: 0 <= k < |a| ==> s[k] == a[k];
  }

  lemma {:induction false} LastIndexAt(a: string, c: char, b: string)
    requires c !in b
    ensures LastIndex(a + [c] + b, c) == |a|
  {
    var s := a + [c] + b;
    assert s[|a|] == c;
    assert forall k :: |a| < k < |s| ==> s[k] == b[k - |a| - 1];
  }

  // ---- white space -----------------------------------------------------

  predicate AsciiSpace(c: char) {
    c == ' ' || '\t' <= c <= '\r'
  }

  /** The number of bytes of the white-space character s starts with (the UTF-8
      form of unicode.IsSpace), or 0. No lead byte of these forms is a
      continuation byte, so looking at one position agrees with decoding. */
  function SpaceWidth(s: string): (w: nat)
    ensures w <= |s| && w <= 3
  {
    if |s| >= 1 && AsciiSpace(s[0]) then 1
    else if |s| >= 2 && Space2(s[0], s[1]) then 2
    else if |s| >= 3 && Space3(s[0], s[1], s[2]) then 3
    else 0
  }

  /** U+0085 and U+00A0. */
  predicate Space2(a: char, b: char) {
    a == '\U{C2}' && (b == '\U{85}' || b == '\U{A0}')
  }

  /** U+1680, U+2000 to U+200A, U+2028, U+2029, U+202F, U+205F and U+3000. */
  predicate Space3(a: char, b: char, c: char) {
    || (a == '\U{E1}' && b == '\U{9A}' && c == '\U{80}')
    || (a == '\U{E2}' && b == '\U{80}' &&
        ('\U{80}' <= c <= '\U{8A}' || c == '\U{A8}' || c == '\U{A9}' || c == '\U{AF}'))
    || (a == '\U{E2}' && b == '\U{81}' && c == '\U{9F}')
    || (a == '\U{E3}' && b == '\U{80}' && c == '\U{80}')
  }

  /** The same at the end of s. */
  function LastSpaceWidth(s: string): (w: nat)
    ensures w <= |s| && w <= 3
  {
    var n := |s|;
    if n >= 1 && AsciiSpace(s[n - 1]) then 1
    else if n >= 2 && Space2(s[n - 2], s[n - 1]) then 2
    else if n >= 3 && Space3(s[n - 3], s[n - 2], s[n - 1]) then 3
    else 0
  }

  function TrimLeft(s: string): (r: string)
    ensures SpaceWidth(r) == 0
    decreases |s|
  {
    if SpaceWidth(s) == 0 then s else TrimLeft(s[SpaceWidth(s)..])
  }

  function TrimRight(s: string): (r: string)
    ensures r <= s && LastSpaceWidth(r) == 0
    decreases |s|
  {
    if LastSpaceWidth(s) == 0 then s else TrimRight(s[..|s| - LastSpaceWidth(s)])
  }

  /** strings.TrimSpace. */
  function TrimSpace(s: string): string {
    TrimRight(TrimLeft(s))
  }

  /** Trimming twice is trimming once: the second trim a prompt, a fifo item or a
      ctl command goes through changes nothing. */
  lemma {:induction false} TrimSpaceIdempotent(s: string)
    ensures TrimSpace(TrimSpace(s)) == TrimSpace(s)
  {
    var y := TrimLeft(s);
    var z := TrimRight(y);
    NoSpacePrefix(y, z);
  }

  lemma NoSpacePrefix(y: string, z: string)
    requires z <= y && SpaceWidth(y) == 0
    ensures SpaceWidth(z) == 0
  {
    assert forall k :: 0 <= k < |z| ==> z[k] == y[k];
  }

  lemma SpaceWidthPrefix(a: string, b: string)
    ensures SpaceWidth(a) > 0 ==> SpaceWidth(a + b) == SpaceWidth(a)
  {
    var s := a + b;
    assert forall k :: 0 <= k < |a| ==> s[k] == a[k];
  }

  /** No white-space character contains an equals sign, so trimming a line around one
      trims its two sides. */
  lemma {:induction false} TrimAround(a: string, b: string)
    ensures TrimSpace(a + "=" + b) == TrimLeft(a) + "=" + TrimRight(b)
  {
    TrimLeftBefore(a, "=" + b);
    Assoc(a, "=", b);
    Assoc(TrimLeft(a), "=", b);
    TrimRightAfter(TrimLeft(a) + "=", b);
  }

  lemma {:induction false} TrimLeftBefore(a: string, rest: string)
    requires rest != "" && rest[0] == '='
    ensures TrimLeft(a + rest) == TrimLeft(a) + rest
    decreases |a|
  {
    hide SpaceWidth;
    var s := a + rest;
    SpaceWidthBefore(a, rest);
    if SpaceWidth(a) > 0 {
      var w := SpaceWidth(a);
      TrimLeftBefore(a[w..], rest);
      assert s[w..] == a[w..] + rest;
    }
  }

  lemma SpaceWidthBefore(a: string, rest: string)
    requires rest != "" && rest[0] == '='
    ensures SpaceWidth(a + rest) == SpaceWidth(a)
  {
    var s := a + rest;
    assert forall k :: 0 <= k < |s| && k < |a| ==> s[k] == a[k];
    assert s[|a|] == '=';
  }

  lemma {:induction false} TrimRightAfter(front: string, b: string)
    requires front != "" && front[|front| - 1] == '='
    ensures TrimRight(front + b) == front + TrimRight(b)
    decreases |b|
  {
    hide SpaceWidth, LastSpaceWidth;
    var s := front + b;
    LastSpaceAfter(front, b);
    if LastSpaceWidth(b) > 0 {
      var w := LastSpaceWidth(b);
      TrimRightAfter(front, b[..|b| - w]);
      assert s[..|s| - w] == front + b[..|b| - w];
    }
  }

  lemma LastSpaceAfter(front: string, b: string)
    requires front != "" && front[|front| - 1] == '='
    ensures LastSpaceWidth(front + b) == LastSpaceWidth(b)
  {
    var s := front + b;
    assert forall k :: 0 <= k < |b| ==> s[|front| + k] == b[k];
    assert s[|front| - 1] == '=';
  }

  /** The order of trimming the two ends does not matter. */
  lemma {:induction false} TrimsCommute(s: string)
    ensures TrimLeft(TrimRight(s)) == TrimRight(TrimLeft(s))
    decreases |s|
  {
    hide SpaceWidth, LastSpaceWidth;
    var w := SpaceWidth(s);
    if w == 0 {
      NoSpacePrefix(s, TrimRight(s));
    } else {
      var sp, rest := s[..w], s[w..];
      assert s == sp + rest;
      SpaceIsSpace(s);
      TrimRightOfSpace(sp, rest);
      TrimsCommute(rest);
      if TrimRight(rest) != "" {
        SpaceWidthPrefix(sp, TrimRight(rest));
        assert (sp + TrimRight(rest))[w..] == TrimRight(rest);
      }
    }
  }

  lemma SpaceIsSpace(s: string)
    ensures SpaceWidth(s[..SpaceWidth(s)]) == SpaceWidth(s)
  {
  }

  /** One white-space character in front of a text that ends in none is kept; in front
      of nothing it goes. */
  lemma {:induction false} TrimRightOfSpace(sp: string, rest: string)
    requires |sp| > 0 && SpaceWidth(sp) == |sp|
    ensures TrimRight(sp + rest) == if TrimRight(rest) == "" then "" else sp + TrimRight(rest)
    decreases |rest|
  {
    hide SpaceWidth, LastSpaceWidth;
    var s := sp + rest;
    if rest == "" {
      assert s == sp && sp[..0] == "";
      SpaceAlone(sp);
      assert TrimRight(sp) == TrimRight(sp[..|sp| - |sp|]);
    } else {
      LastSpaceCross(sp, rest);
      if LastSpaceWidth(rest) > 0 {
        var w := LastSpaceWidth(rest);
        assert s[..|s| - w] == sp + rest[..|rest| - w];
        TrimRightOfSpace(sp, rest[..|rest| - w]);
      }
    }
  }

  lemma SpaceAlone(sp: string)
    requires |sp| > 0 && SpaceWidth(sp) == |sp|
    ensures LastSpaceWidth(sp) == |sp|
  {
  }

  /** No white-space character straddles the end of another. */
  lemma LastSpaceCross(sp: string, rest: string)
    requires |sp| > 0 && SpaceWidth(sp) == |sp| && rest != ""
    ensures LastSpaceWidth(sp + rest) == LastSpaceWidth(rest)
  {
    var s := sp + rest;
    assert forall k :: 0 <= k < |rest| ==> s[|sp| + k] == rest[k];
    assert forall k :: 0 <= k < |sp| ==> s[k] == sp[k];
  }

  /** The length of the run of non-space bytes s starts with. */
  function FieldEnd(s: string): (n: nat)
    ensures n <= |s|
    ensures n == |s| || SpaceWidth(s[n..]) > 0
    ensures forall k :: 0 <= k < n ==> SpaceWidth(s[k..]) == 0
  {
    if s == "" || SpaceWidth(s) > 0 then 0
    else
      var n := 1 + FieldEnd(s[1..]);
      assert forall k :: 1 <= k <= n ==> s[1..][k - 1..] == s[k..];
      n
  }

  /** strings.Fields. */
  function Fields(s: string): seq<string>
    decreases |s|
  {
    if s == "" then []
    else if SpaceWidth(s) > 0 then Fields(s[SpaceWidth(s)..])
    else var n := FieldEnd(s); [s[..n]] + Fields(s[n..])
  }

  predicate IsField(f: string) {
    f != "" && forall k :: 0 <= k < |f| ==> SpaceWidth(f[k..]) == 0
  }

  lemma {:induction false} FieldsAreFields(s: string)
    ensures forall f :: f in Fields(s) ==> IsField(f)
    decreases |s|
  {
    if s == "" {
    } else if SpaceWidth(s) > 0 {
      FieldsAreFields(s[SpaceWidth(s)..]);
    } else {
      var n := FieldEnd(s);
      FieldsAreFields(s[n..]);
      forall k | 0 <= k < n ensures SpaceWidth(s[..n][k..]) == 0 {
        SpaceWidthPrefix(s[..n][k..], s[n..]);
        assert s[..n][k..] + s[n..] == s[k..];
      }
    }
  }

  /** A field followed by a blank ends exactly there. */
  lemma {:induction false} FieldEndBeforeBlank(f: string, rest: string)
    requires IsField(f)
    requires rest == "" || rest[0] == ' '
    ensures FieldEnd(f + rest) == |f|
  {
    var s := f + rest;
    forall k | 0 <= k < |f| ensures SpaceWidth(s[k..]) == 0 {
      assert forall j :: 0 <= j < |s[k..]| ==> s[k..][j] == (if k + j < |f| then f[k..][j] else rest[k + j - |f|]);
      assert SpaceWidth(f[k..]) == 0;
    }
    assert s[|f|..] == rest;
  }

  /** Splitting off the first field of a text that starts with one. */
  lemma FieldsFirst(f: string, rest: string)
    requires IsField(f)
    requires rest == "" || rest[0] == ' '
    ensures Fields(f + rest) == [f] + (if rest == "" then [] else Fields(rest[1..]))
  {
    var s := f + rest;
    FieldEndBeforeBlank(f, rest);
    assert f[0..] == f && SpaceWidth(f[0..]) == 0;
    assert s[0..] == s;
    assert SpaceWidth(s) == 0 by { assert SpaceWidth(s[0..]) == 0; }
    assert s[..|f|] == f && s[|f|..] == rest;
  }

  lemma JoinCons(parts: seq<string>, c: char)
    requires parts != []
    ensures Join(parts, c) == if |parts| == 1 then parts[0] else parts[0] + [c] + Join(parts[1..], c)
  {
  }

  lemma {:induction false} FieldsOfJoin(fs: seq<string>)
    requires forall f :: f in fs ==> IsField(f)
    ensures Fields(Join(fs, ' ')) == fs
  {
    if fs == [] {
    } else {
      hide Fields, SpaceWidth, Join;
      HeadTail(fs);
      var tail := Join(fs[1..], ' ');
      var rest := if |fs| == 1 then "" else " " + tail;
      FieldsFirst(fs[0], rest);
      if |fs| == 1 {
        JoinCons(fs, ' ');
        assert fs[0] + "" == fs[0] && fs[1..] == [];
      } else {
        FieldsOfJoin(fs[1..]);
        assert rest[1..] == tail;
        JoinCons(fs, ' ');
        Assoc(fs[0], [' '], tail);
      }
    }
  }

  /** squashWhitespace keeps the fields of its argument, and nothing else. */
  lemma {:induction false} SquashKeepsFields(s: string)
    ensures Fields(Join(Fields(s), ' ')) == Fields(s)
  {
    FieldsAreFields(s);
    FieldsOfJoin(Fields(s));
  }
}
