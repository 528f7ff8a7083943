/** What strings.TrimSpace cuts off, stated without it: the white-space characters by
    their Unicode code points, in UTF-8 (RFC 3629). */
module Spaces {
  import opened Seqs
  import opened Text

  /** The code points for which Go's unicode.IsSpace answers true. */
  predicate WhiteSpace(cp: nat) {
    || cp in {0x09, 0x0A, 0x0B, 0x0C, 0x0D, 0x20, 0x85, 0xA0, 0x1680}
    || cp in {0x2000, 0x2001, 0x2002, 0x2003, 0x2004, 0x2005, 0x2006, 0x2007, 0x2008, 0x2009, 0x200A}
    || cp in {0x2028, 0x2029, 0x202F, 0x205F, 0x3000}
  }

  /** Section 3 of RFC 3629, for the code points of at most three bytes. */
  function Utf8(cp: nat): string
    requires cp < 0xD800
  {
    if cp < 0x80 then [cp as char]
    else if cp < 0x800 then [(0xC0 + cp / 64) as char, (0x80 + cp % 64) as char]
    else [(0xE0 + cp / 4096) as char, (0x80 + cp / 64 % 64) as char, (0x80 + cp % 64) as char]
  }

  ghost predicate Space(x: string) {
    exists cp: nat :: WhiteSpace(cp) && x == Utf8(cp)
  }

  // ---- one character -----------------------------------------------------

  predicate Form(x: string) {
    || (|x| == 1 && AsciiSpace(x[0]))
    || (|x| == 2 && Space2(x[0], x[1]))
    || (|x| == 3 && Space3(x[0], x[1], x[2]))
  }

  lemma {:induction false} SpaceHasForm(x: string)
    requires Space(x)
    ensures Form(x)
  {
    hide Utf8, Form;
    var cp: nat :| WhiteSpace(cp) && x == Utf8(cp);
    if cp < 0x1680 {
      ShortForm(cp);
    } else {
      LongForm(cp);
    }
  }

  lemma ShortForm(cp: nat)
    requires WhiteSpace(cp) && cp < 0x1680
    ensures Form(Utf8(cp))
  {
    if cp == 0x85 {
      assert Utf8(cp) == ['\U{C2}', '\U{85}'];
    } else if cp == 0xA0 {
      assert Utf8(cp) == ['\U{C2}', '\U{A0}'];
    }
  }

  lemma LongForm(cp: nat)
    requires WhiteSpace(cp) && cp >= 0x1680
    ensures Form(Utf8(cp))
  {
    if cp == 0x1680 {
      assert Utf8(cp) == ['\U{E1}', '\U{9A}', '\U{80}'];
    } else if cp == 0x205F {
      assert Utf8(cp) == ['\U{E2}', '\U{81}', '\U{9F}'];
    } else if cp == 0x3000 {
      assert Utf8(cp) == ['\U{E3}', '\U{80}', '\U{80}'];
    } else {
      assert 0x2000 <= cp < 0x2040 && cp / 64 == 0x80;
      assert Utf8(cp) == ['\U{E2}', '\U{80}', (0x80 + (cp - 0x2000)) as char];
    }
  }

  lemma {:induction false} FormIsSpace(x: string)
    requires Form(x)
    ensures Space(x)
  {
    var cp: nat :=
      if |x| == 1 then x[0] as int
      else if |x| == 2 then x[1] as int
      else if x[0] == '\U{E1}' then 0x1680
      else if x[0] == '\U{E3}' then 0x3000
      else if x[1] == '\U{81}' then 0x205F
      else 0x2000 + (x[2] as int - 0x80);
    assert WhiteSpace(cp);
    assert x == Utf8(cp);
  }

  /** SpaceWidth is the length of the white-space character in front, if there is one. */
  lemma {:induction false} FrontIs(s: string)
    ensures SpaceWidth(s) > 0 ==> Space(s[..SpaceWidth(s)])
    ensures forall x :: Space(x) && x <= s ==> SpaceWidth(s) == |x| > 0
  {
    var w := SpaceWidth(s);
    if w > 0 {
      assert Form(s[..w]);
      FormIsSpace(s[..w]);
    }
    forall x | Space(x) && x <= s ensures SpaceWidth(s) == |x| > 0 {
      SpaceHasForm(x);
      assert forall i :: 0 <= i < |x| ==> x[i] == s[i];
    }
  }

  lemma {:induction false} BackIs(s: string)
    ensures LastSpaceWidth(s) > 0 ==> Space(s[|s| - LastSpaceWidth(s)..])
    ensures forall x :: Space(x) && HasSuffix(s, x) ==> LastSpaceWidth(s) == |x| > 0
  {
    var w := LastSpaceWidth(s);
    if w > 0 {
      assert Form(s[|s| - w..]);
      FormIsSpace(s[|s| - w..]);
    }
    forall x | Space(x) && HasSuffix(s, x) ensures LastSpaceWidth(s) == |x| > 0 {
      SpaceHasForm(x);
      assert forall i :: 0 <= i < |x| ==> x[i] == s[|s| - |x| + i];
    }
  }

  // ---- what is cut off ---------------------------------------------------

  ghost predicate AllSpace(xs: seq<string>) {
    forall x :: x in xs ==> Space(x)
  }

  function Flatten(xs: seq<string>): string {
    if xs == [] then "" else xs[0] + Flatten(xs[1..])
  }

  lemma {:induction false} LeftIs(s: string) returns (cut: seq<string>)
    ensures AllSpace(cut) && s == Flatten(cut) + TrimLeft(s)
    decreases |s|
  {
    hide SpaceWidth, Space;
    FrontIs(s);
    var w := SpaceWidth(s);
    if w == 0 {
      cut := [];
    } else {
      var more := LeftIs(s[w..]);
      cut := [s[..w]] + more;
      assert cut[1..] == more;
      TakeDrop(s, w);
      Assoc(s[..w], Flatten(more), TrimLeft(s[w..]));
    }
  }

  lemma {:induction false} RightIs(s: string) returns (cut: seq<string>)
    ensures AllSpace(cut) && s == TrimRight(s) + Flatten(cut)
    decreases |s|
  {
    hide LastSpaceWidth, Space;
    BackIs(s);
    var w := LastSpaceWidth(s);
    if w == 0 {
      cut := [];
    } else {
      var front, last := s[..|s| - w], s[|s| - w..];
      var more := RightIs(front);
      cut := more + [last];
      FlattenSnoc(more, last);
      TakeDrop(s, |s| - w);
      Assoc(TrimRight(front), Flatten(more), last);
    }
  }

  lemma {:induction false} FlattenSnoc(xs: seq<string>, x: string)
    ensures Flatten(xs + [x]) == Flatten(xs) + x
    decreases |xs|
  {
    TailOfConcat(xs, [x]);
    if xs == [] {
      assert [x][1..] == [];
    } else {
      FlattenSnoc(xs[1..], x);
      Assoc(xs[0], Flatten(xs[1..]), x);
    }
  }

  /** TrimSpace cuts white-space characters off both ends and nothing else, and what is
      left neither starts nor ends with one. */
  lemma {:induction false} TrimSpaceIs(s: string) returns (front: seq<string>, back: seq<string>)
    ensures AllSpace(front) && AllSpace(back) && s == Flatten(front) + TrimSpace(s) + Flatten(back)
    ensures forall x :: Space(x) ==> !(x <= TrimSpace(s)) && !HasSuffix(TrimSpace(s), x)
  {
    hide Space, HasSuffix, SpaceWidth, LastSpaceWidth, Flatten, AllSpace;
    front := LeftIs(s);
    back := RightIs(TrimLeft(s));
    Assoc(Flatten(front), TrimSpace(s), Flatten(back));
    NoSpacePrefix(TrimLeft(s), TrimSpace(s));
    FrontIs(TrimSpace(s));
    BackIs(TrimSpace(s));
  }

  /** White space added at either end makes no difference. */
  lemma {:induction false} SpaceAdded(s: string, x: string)
    requires Space(x)
    ensures TrimSpace(x + s) == TrimSpace(s) && TrimSpace(s + x) == TrimSpace(s)
  {
    hide Space, SpaceWidth, LastSpaceWidth;
    FrontIs(x + s);
    assert x <= x + s && (x + s)[|x|..] == s;
    BackIs(s + x);
    assert HasSuffix(s + x, x) && (s + x)[..|s|] == s;
    TrimsCommute(s);
    TrimsCommute(s + x);
  }

  /** At inputs: the line end of a shell, a DOS line end, and a no-break space. */
  lemma TrimmedPayloads()
    ensures TrimSpace("hi\n") == "hi" && TrimSpace(" hi\t\r\n") == "hi" && TrimSpace("\U{C2}\U{A0}hi") == "hi"
  {
    hide TrimSpace, Space;
    FiveSpaces();
    NothingToTrim();
    SpaceAdded("hi", "\n");
    SpaceAdded(" hi\t\r", "\n");
    SpaceAdded(" hi\t", "\r");
    SpaceAdded(" hi", "\t");
    SpaceAdded("hi", " ");
    SpaceAdded("hi", "\U{C2}\U{A0}");
    assert "hi" + "\n" == "hi\n" && " hi\t\r" + "\n" == " hi\t\r\n" && " hi\t" + "\r" == " hi\t\r";
    assert " hi" + "\t" == " hi\t" && " " + "hi" == " hi" && "\U{C2}\U{A0}" + "hi" == "\U{C2}\U{A0}hi";
  }

  lemma FiveSpaces()
    ensures Space("\n") && Space("\r") && Space("\t") && Space(" ") && Space("\U{C2}\U{A0}")
  {
    assert WhiteSpace(0x0A) && Utf8(0x0A) == "\n";
    assert WhiteSpace(0x0D) && Utf8(0x0D) == "\r";
    assert WhiteSpace(0x09) && Utf8(0x09) == "\t";
    assert WhiteSpace(0x20) && Utf8(0x20) == " ";
    assert WhiteSpace(0xA0) && Utf8(0xA0) == "\U{C2}\U{A0}";
  }

  lemma NothingToTrim()
    ensures TrimSpace("hi") == "hi"
  {
  }
}
