/** The skill store: several directories overlaid, earlier ones in front of later ones. */
module Skills {
  import opened Seqs
  import opened Text

  /** A parsed SKILL.md: the name its front matter gives, its directory and its text. */
  datatype Skill = Skill(name: string, dir: string, description: string, content: string)

  /** A directory entry; `skill` is None where SKILL.md is missing or does not parse. */
  datatype Entry = Entry(name: string, isDir: bool, skill: Option<Skill>)

  /** The search path in order; None for a directory that cannot be read. */
  type Dirs = seq<Option<seq<Entry>>>

  predicate Valid(e: Entry) {
    e.isDir && e.skill.Some?
  }

  // ---- collecting --------------------------------------------------------

  function Entries(dirs: Dirs): seq<Entry> {
    if dirs == [] then []
    else (match dirs[0] case Some(es) => es case None => []) + Entries(dirs[1..])
  }

  predicate Named(skills: seq<Skill>, name: string) {
    exists m :: m in skills && m.name == name
  }

  /** The seen test looks at the entry's name, the seen mark at the front matter's. */
  function Take(acc: seq<Skill>, e: Entry): seq<Skill> {
    if Valid(e) && !Named(acc, e.name) then acc + [e.skill.value] else acc
  }

  function Collect(entries: seq<Entry>, acc: seq<Skill>): seq<Skill>
    decreases |entries|
  {
    if entries == [] then acc else Collect(entries[1..], Take(acc, entries[0]))
  }

  // ---- order of names ----------------------------------------------------

  /** Go's order of strings, byte by byte. */
  predicate Before(a: string, b: string) {
    b != "" && (a == "" || a[0] < b[0] || (a[0] == b[0] && Before(a[1..], b[1..])))
  }

  lemma {:induction false} BeforeTransitive(a: string, b: string, c: string)
    requires Before(a, b) && Before(b, c)
    ensures Before(a, c)
  {
    if a != "" && a[0] == b[0] == c[0] {
      BeforeTransitive(a[1..], b[1..], c[1..]);
    }
  }

  lemma {:induction false} BeforeTotal(a: string, b: string)
    ensures (Before(a, b) || Before(b, a)) <==> a != b
    ensures !(Before(a, b) && Before(b, a))
  {
    if a != "" && b != "" {
      BeforeTotal(a[1..], b[1..]);
      HeadTail(a);
      HeadTail(b);
    }
  }

  /** The order said without recursion: a proper prefix comes first, and otherwise the
      first byte in which the two differ decides. */
  lemma {:induction false} BeforeIs(a: string, b: string)
    ensures Before(a, b) <==> exists k: nat :: FirstDifference(a, b, k) && (k == |a| || (k < |b| && a[k] < b[k]))
  {
    if a == "" || b == "" {
      if Before(a, b) { assert FirstDifference(a, b, 0); }
    } else {
      BeforeIs(a[1..], b[1..]);
      if Before(a, b) {
        if a[0] < b[0] {
          assert FirstDifference(a, b, 0);
        } else {
          var k: nat :| FirstDifference(a[1..], b[1..], k)
                        && (k == |a[1..]| || (k < |b[1..]| && a[1..][k] < b[1..][k]));
          FirstShift(a, b, k);
          assert FirstDifference(a, b, k + 1);
        }
      }
      if k: nat :| FirstDifference(a, b, k) && (k == |a| || (k < |b| && a[k] < b[k])) {
        if k > 0 {
          assert a[..k][0] == b[..k][0];
          FirstShift(a, b, k - 1);
          assert FirstDifference(a[1..], b[1..], k - 1);
        }
      }
    }
  }

  /** a and b agree on the first k bytes and not on the next. */
  predicate FirstDifference(a: string, b: string, k: nat) {
    k <= |a| && k <= |b| && a[..k] == b[..k] && a != b && (k < |a| && k < |b| ==> a[k] != b[k])
  }

  lemma FirstShift(a: string, b: string, k: nat)
    requires a != "" && b != "" && a[0] == b[0]
    ensures FirstDifference(a, b, k + 1) <==> FirstDifference(a[1..], b[1..], k)
  {
    HeadTail(a);
    HeadTail(b);
    if k < |a| && k < |b| {
      assert a[..k + 1] == [a[0]] + a[1..][..k] && b[..k + 1] == [b[0]] + b[1..][..k];
      assert a[..k + 1][1..] == a[1..][..k] && b[..k + 1][1..] == b[1..][..k];
    }
  }

  predicate Sorted(s: seq<Skill>) {
    forall i, j :: 0 <= i < j < |s| ==> !Before(s[j].name, s[i].name)
  }

  predicate StrictlySorted(s: seq<Skill>) {
    forall i, j :: 0 <= i < j < |s| ==> Before(s[i].name, s[j].name)
  }

  predicate Distinct(s: seq<Skill>) {
    forall i, j :: 0 <= i < j < |s| ==> s[i].name != s[j].name
  }

  /** Everything listSkills may return: sort.Slice promises an order, not which of several
      equal names comes first. */
  predicate IsListing(dirs: Dirs, r: seq<Skill>) {
    Sorted(r) && multiset(r) == multiset(Collect(Entries(dirs), []))
  }

  /** Where x goes in a sorted sequence. */
  function Place(s: seq<Skill>, x: Skill): (k: nat)
    ensures k <= |s|
    ensures forall i :: 0 <= i < k ==> !Before(x.name, s[i].name)
    ensures k < |s| ==> Before(x.name, s[k].name)
  {
    if s == [] || Before(x.name, s[0].name) then 0 else 1 + Place(s[1..], x)
  }

  lemma InsertKeepsSorted(s: seq<Skill>, x: Skill)
    requires Sorted(s)
    ensures var k := Place(s, x); Sorted(s[..k] + [x] + s[k..])
  {
    var k := Place(s, x);
    forall j | k <= j < |s| ensures !Before(s[j].name, x.name) {
      if Before(s[j].name, x.name) {
        BeforeTransitive(s[j].name, x.name, s[k].name);
        BeforeTotal(s[j].name, s[k].name);
      }
    }
  }

  method Sort(s: seq<Skill>) returns (r: seq<Skill>)
    ensures Sorted(r) && multiset(r) == multiset(s)
  {
    r := [];
    var i := 0;
    while i < |s|
      invariant 0 <= i <= |s|
      invariant Sorted(r) && multiset(r) == multiset(s[..i])
    {
      var k := Place(r, s[i]);
      InsertKeepsSorted(r, s[i]);
      TakeDrop(r, k);
      TakeSnoc(s, i);
      r := r[..k] + [s[i]] + r[k..];
      i := i + 1;
    }
    assert s[..|s|] == s;
  }

  // ---- listSkills --------------------------------------------------------

  method ListSkills(dirs: Dirs) returns (r: seq<Skill>)
    ensures IsListing(dirs, r)
  {
    var seen: set<string>, result: seq<Skill> := {}, [];
    var i := 0;
    assert dirs[0..] == dirs;
    while i < |dirs|
      invariant 0 <= i <= |dirs|
      invariant forall n :: n in seen <==> Named(result, n)
      invariant Collect(Entries(dirs), []) == Collect(Entries(dirs[i..]), result)
    {
      ghost var rest := Entries(dirs[i + 1..]);
      assert dirs[i..][0] == dirs[i] && dirs[i..][1..] == dirs[i + 1..];
      if dirs[i] == None {
        assert Entries(dirs[i..]) == rest;
        i := i + 1;
        continue;
      }
      var entries := dirs[i].value;
      var j := 0;
      assert entries[0..] == entries;
      while j < |entries|
        invariant 0 <= j <= |entries|
        invariant forall n :: n in seen <==> Named(result, n)
        invariant Collect(Entries(dirs), []) == Collect(entries[j..] + rest, result)
      {
        var e := entries[j];
        TailOfConcat(entries[j..], rest);
        assert entries[j..][0] == e && entries[j..][1..] == entries[j + 1..];
        j := j + 1;
        if !e.isDir || e.name in seen {
          continue;
        }
        if e.skill == None {
          continue;
        }
        var meta := e.skill.value;
        NamedSnoc(result, meta);
        seen := seen + {meta.name};
        result := result + [meta];
      }
      assert entries[j..] + rest == rest;
      i := i + 1;
    }
    assert dirs[i..] == [];
    r := Sort(result);
  }

  lemma NamedSnoc(s: seq<Skill>, m: Skill)
    ensures forall n :: Named(s + [m], n) <==> Named(s, n) || n == m.name
  {
    forall n ensures Named(s + [m], n) <==> Named(s, n) || n == m.name {
      assert m in s + [m];
      if Named(s, n) {
        var x :| x in s && x.name == n;
        assert x in s + [m];
      }
    }
  }

  // ---- when the listing has no duplicates --------------------------------

  /** Some entry passes the seen test although its front-matter name is already taken. */
  predicate Clashes(entries: seq<Entry>, acc: seq<Skill>)
    decreases |entries|
  {
    entries != [] &&
    (var e := entries[0];
     || (Valid(e) && !Named(acc, e.name) && Named(acc, e.skill.value.name))
     || Clashes(entries[1..], Take(acc, e)))
  }

  lemma {:induction false} CollectExtends(entries: seq<Entry>, acc: seq<Skill>)
    ensures acc <= Collect(entries, acc)
    decreases |entries|
  {
    if entries == [] {
    } else {
      CollectExtends(entries[1..], Take(acc, entries[0]));
    }
  }

  lemma {:induction false} DistinctIff(entries: seq<Entry>, acc: seq<Skill>)
    requires Distinct(acc)
    ensures Distinct(Collect(entries, acc)) <==> !Clashes(entries, acc)
    decreases |entries|
  {
    if entries == [] {
    } else {
      var e := entries[0];
      var next := Take(acc, e);
      if Distinct(next) {
        DistinctIff(entries[1..], next);
      } else {
        CollectExtends(entries[1..], next);
      }
      if Valid(e) && !Named(acc, e.name) {
        DistinctSnoc(acc, e.skill.value);
      }
    }
  }

  lemma DistinctSnoc(acc: seq<Skill>, m: Skill)
    requires Distinct(acc)
    ensures Distinct(acc + [m]) <==> !Named(acc, m.name)
  {
    if Named(acc, m.name) {
      var x :| x in acc && x.name == m.name;
      var i :| 0 <= i < |acc| && acc[i] == x;
      assert (acc + [m])[i].name == (acc + [m])[|acc|].name;
    } else {
      forall i | 0 <= i < |acc| ensures acc[i].name != m.name {
        assert acc[i] in acc;
      }
    }
  }

  /** A listing repeats a name exactly when two skills clash in the scan. */
  lemma {:induction false} NoDuplicatesIff(dirs: Dirs, r: seq<Skill>)
    requires IsListing(dirs, r)
    ensures StrictlySorted(r) <==> !Clashes(Entries(dirs), [])
  {
    var c := Collect(Entries(dirs), []);
    DistinctIff(Entries(dirs), []);
    DistinctByCount(r);
    DistinctByCount(c);
    forall i, j | 0 <= i < j < |r| ensures Before(r[i].name, r[j].name) <==> r[i].name != r[j].name {
      BeforeTotal(r[i].name, r[j].name);
    }
  }

  /** Distinctness told by the multiset alone. */
  predicate DistinctBag(b: multiset<Skill>) {
    && (forall m :: m in b ==> b[m] == 1)
    && (forall m, n :: m in b && n in b && m.name == n.name ==> m == n)
  }

  lemma {:induction false} CountOnce(s: seq<Skill>, m: Skill)
    requires Distinct(s)
    ensures multiset(s)[m] == if m in s then 1 else 0
  {
    if s == [] {
    } else {
      var front, last := s[..|s| - 1], s[|s| - 1];
      assert s == front + [last];
      assert multiset(s) == multiset(front) + multiset{last};
      CountOnce(front, m);
    }
  }

  lemma CountTwice(s: seq<Skill>, i: nat, j: nat)
    requires i < j < |s| && s[i] == s[j]
    ensures multiset(s)[s[i]] >= 2
  {
    TakeDrop(s, j);
    assert multiset(s) == multiset(s[..j]) + multiset(s[j..]);
    assert s[..j][i] == s[i] && s[j..][0] == s[i];
    assert s[i] in s[..j] && s[i] in s[j..];
  }

  lemma {:induction false} DistinctByCount(s: seq<Skill>)
    ensures Distinct(s) <==> DistinctBag(multiset(s))
  {
    if Distinct(s) {
      forall m | m in s ensures multiset(s)[m] == 1 {
        CountOnce(s, m);
      }
    }
    if DistinctBag(multiset(s)) {
      forall i, j | 0 <= i < j < |s| ensures s[i].name != s[j].name {
        assert s[i] in multiset(s) && s[j] in multiset(s);
        if s[i] == s[j] {
          CountTwice(s, i, j);
        }
      }
    }
  }

  // ---- the overlay -------------------------------------------------------

  /** Front matter gives every skill the name of its directory. */
  ghost predicate NamesAgree(dirs: Dirs) {
    forall e :: e in Entries(dirs) && Valid(e) ==> e.skill.value.name == e.name
  }

  /** The first valid entry of that name. */
  function FirstIn(entries: seq<Entry>, name: string): Option<Skill> {
    if entries == [] then None
    else if Valid(entries[0]) && entries[0].name == name then entries[0].skill
    else FirstIn(entries[1..], name)
  }

  /** The entry of the first directory that holds a valid one. */
  function FirstOf(dirs: Dirs, name: string): Option<Skill> {
    if dirs == [] then None
    else
      var here := match dirs[0] case Some(es) => FirstIn(es, name) case None => None;
      if here.Some? then here else FirstOf(dirs[1..], name)
  }

  lemma {:induction false} FirstInConcat(a: seq<Entry>, b: seq<Entry>, name: string)
    ensures FirstIn(a + b, name) == if FirstIn(a, name).Some? then FirstIn(a, name) else FirstIn(b, name)
    decreases |a|
  {
    TailOfConcat(a, b);
    if a == [] {
    } else {
      FirstInConcat(a[1..], b, name);
    }
  }

  lemma {:induction false} FirstOfEntries(dirs: Dirs, name: string)
    ensures FirstOf(dirs, name) == FirstIn(Entries(dirs), name)
  {
    if dirs == [] {
    } else {
      FirstOfEntries(dirs[1..], name);
      match dirs[0]
      case Some(es) => FirstInConcat(es, Entries(dirs[1..]), name);
      case None => assert Entries(dirs) == Entries(dirs[1..]);
    }
  }

  ghost predicate Agreeing(entries: seq<Entry>) {
    forall e :: e in entries && Valid(e) ==> e.skill.value.name == e.name
  }

  lemma {:induction false} CollectIsFirst(entries: seq<Entry>, acc: seq<Skill>, m: Skill)
    requires Agreeing(entries)
    ensures !Clashes(entries, acc)
    ensures m in Collect(entries, acc) <==>
            m in acc || (!Named(acc, m.name) && FirstIn(entries, m.name) == Some(m))
    decreases |entries|
  {
    if entries == [] {
    } else {
      var e := entries[0];
      assert e in entries;
      assert forall x :: x in entries[1..] ==> x in entries;
      CollectIsFirst(entries[1..], Take(acc, e), m);
      if Valid(e) {
        NamedSnoc(acc, e.skill.value);
      }
    }
  }

  /** The listing is the left-biased union of the directories: sorted, without duplicates,
      and holding for each name the first directory's valid entry and nothing else. */
  lemma {:induction false} ListingIsOverlay(dirs: Dirs, r: seq<Skill>)
    requires NamesAgree(dirs) && IsListing(dirs, r)
    ensures StrictlySorted(r)
    ensures forall m :: m in r <==> FirstOf(dirs, m.name) == Some(m)
  {
    var entries := Entries(dirs);
    var c := Collect(entries, []);
    NoDuplicatesIff(dirs, r);
    forall m ensures m in r <==> FirstOf(dirs, m.name) == Some(m) {
      CollectIsFirst(entries, [], m);
      FirstOfEntries(dirs, m.name);
      assert m in r <==> m in multiset(r);
      assert m in c <==> m in multiset(c);
    }
    NeverClashes(entries, []);
  }

  lemma {:induction false} NeverClashes(entries: seq<Entry>, acc: seq<Skill>)
    requires Agreeing(entries)
    ensures !Clashes(entries, acc)
    decreases |entries|
  {
    if entries == [] {
    } else {
      assert entries[0] in entries;
      assert forall x :: x in entries[1..] ==> x in entries;
      NeverClashes(entries[1..], Take(acc, entries[0]));
    }
  }

  /** Two strictly sorted sequences with the same elements are equal, so every call of
      listSkills on the same directories gives the same answer. */
  lemma {:induction false} SortedUnique(a: seq<Skill>, b: seq<Skill>)
    requires StrictlySorted(a) && StrictlySorted(b)
    requires forall m :: m in a <==> m in b
    ensures a == b
  {
    SomeMember(a);
    SomeMember(b);
    if a == [] {
    } else {
      assert a[0] in a;
      assert b[0] in b;
      HeadIsLeast(a, b[0]);
      HeadIsLeast(b, a[0]);
      BeforeTotal(a[0].name, b[0].name);
      assert a[0] == b[0];
      forall m ensures m in a[1..] <==> m in b[1..] {
        InTail(a, m);
        InTail(b, m);
      }
      SortedUnique(a[1..], b[1..]);
      HeadTail(a);
      HeadTail(b);
    }
  }

  lemma SomeMember(s: seq<Skill>)
    ensures s != [] ==> exists m :: m in s
  {
    if s != [] {
      assert s[0] in s;
    }
  }

  lemma HeadIsLeast(s: seq<Skill>, m: Skill)
    requires StrictlySorted(s) && m in s
    ensures s[0] == m || Before(s[0].name, m.name)
  {
  }

  lemma InTail(s: seq<Skill>, m: Skill)
    requires StrictlySorted(s) && s != []
    ensures m in s[1..] <==> m in s && m != s[0]
  {
    if m in s[1..] {
      var i :| 0 <= i < |s[1..]| && s[1..][i] == m;
      BeforeTotal(s[0].name, s[i + 1].name);
    }
    HeadTail(s);
  }

  lemma {:induction false} ListingUnique(dirs: Dirs, a: seq<Skill>, b: seq<Skill>)
    requires NamesAgree(dirs) && IsListing(dirs, a) && IsListing(dirs, b)
    ensures a == b
  {
    ListingIsOverlay(dirs, a);
    ListingIsOverlay(dirs, b);
    SortedUnique(a, b);
  }

  /** Front matter that names another skill gets past the seen test: two entries of one
      listing carry the same name. */
  lemma DisagreeingNamesRepeat(x: Skill, y: Skill)
    requires x.name == y.name == "x"
    ensures var dirs: Dirs := [Some([Entry("a", true, Some(x)), Entry("b", true, Some(y))])];
            Collect(Entries(dirs), []) == [x, y]
  {
    var a, b := Entry("a", true, Some(x)), Entry("b", true, Some(y));
    var dirs: Dirs := [Some([a, b])];
    assert dirs[1..] == [];
    assert Entries(dirs) == [a, b];
    assert [a, b][1..] == [b] && [b][1..] == [];
    assert "b" != "x" && !Named([x], "b");
    assert Take([], a) == [x] && Take([x], b) == [x, y];
    assert Collect([b], [x]) == Collect([], [x, y]);
  }

  // ---- the operations on top of it ---------------------------------------

  /** The first skill of that name in a listing. */
  function Find(listing: seq<Skill>, name: string): (r: Option<Skill>)
    ensures r.Some? ==> r.value.name == name
  {
    if listing == [] then None
    else if listing[0].name == name then Some(listing[0])
    else Find(listing[1..], name)
  }

  /** What opening a name of the store leads to; None is the index or nothing. */
  function SkillAt(listing: seq<Skill>, name: string): Option<Skill> {
    if name == "idx" then None else Find(listing, TrimSuffix(name, ".md"))
  }

  /** Two names lead to the same skill exactly when they agree once ".md" is cut off, as
      x and x.md do, unless one is the name of the index. */
  lemma SameSkillIff(listing: seq<Skill>, a: string, b: string)
    requires SkillAt(listing, a).Some?
    ensures SkillAt(listing, b) == SkillAt(listing, a) <==>
            b != "idx" && TrimSuffix(a, ".md") == TrimSuffix(b, ".md")
  {
    hide TrimSuffix;
  }

  /** At an input. */
  lemma SuffixedNamesShare(x: Skill, listing: seq<Skill>)
    requires x.name == "x" && listing == [x]
    ensures SkillAt(listing, "x") == SkillAt(listing, "x.md") == Some(x)
  {
    assert TrimSuffix("x.md", ".md") == "x";
  }

  method ReadSkill(dirs: Dirs, name: string) returns (r: Option<Skill>)
    ensures exists listing :: IsListing(dirs, listing) && r == Find(listing, name)
    ensures r.Some? ==> r.value.name == name && r.value in Collect(Entries(dirs), [])
    ensures r.None? ==> !Named(Collect(Entries(dirs), []), name)
    ensures NamesAgree(dirs) ==> r == FirstOf(dirs, name)
  {
    var listing := ListSkills(dirs);
    ghost var c := Collect(Entries(dirs), []);
    assert forall m :: m in listing <==> m in c by {
      assert forall m :: m in listing <==> m in multiset(listing);
      assert forall m :: m in c <==> m in multiset(c);
    }
    if NamesAgree(dirs) {
      ListingIsOverlay(dirs, listing);
    }
    assert listing[0..] == listing;
    for i := 0 to |listing|
      invariant forall k :: 0 <= k < i ==> listing[k].name != name
      invariant Find(listing, name) == Find(listing[i..], name)
    {
      assert listing[i..][0] == listing[i] && listing[i..][1..] == listing[i + 1..];
      if listing[i].name == name {
        assert listing[i] in listing;
        return Some(listing[i]);
      }
    }
    assert forall m :: m in listing ==> m.name != name;
    if NamesAgree(dirs) {
      FirstHasName(dirs, name);
    }
    return None;
  }

  lemma {:induction false} FirstHasName(dirs: Dirs, name: string)
    requires NamesAgree(dirs)
    ensures FirstOf(dirs, name).Some? ==> FirstOf(dirs, name).value.name == name
  {
    FirstOfEntries(dirs, name);
    FirstInHasName(Entries(dirs), name);
  }

  lemma {:induction false} FirstInHasName(entries: seq<Entry>, name: string)
    requires Agreeing(entries)
    ensures FirstIn(entries, name).Some? ==> FirstIn(entries, name).value.name == name
  {
    if entries == [] {
    } else {
      assert entries[0] in entries;
      assert forall x :: x in entries[1..] ==> x in entries;
      FirstInHasName(entries[1..], name);
    }
  }

  method Stat(dirs: Dirs, name: string) returns (found: bool)
    ensures found <==> name == "idx" || Named(Collect(Entries(dirs), []), TrimSuffix(name, ".md"))
    ensures NamesAgree(dirs) ==> (found <==> name == "idx" || FirstOf(dirs, TrimSuffix(name, ".md")).Some?)
  {
    if name == "idx" {
      return true;
    }
    var skill := ReadSkill(dirs, TrimSuffix(name, ".md"));
    found := skill != None;
  }

  function FileName(m: Skill): string {
    m.name + ".md"
  }

  method List(dirs: Dirs) returns (names: seq<string>)
    ensures |names| > 0 && names[0] == "idx"
    ensures IsFileListing(dirs, names[1..])
  {
    names := ["idx"];
    var listing := ListSkills(dirs);
    for i := 0 to |listing|
      invariant |names| == i + 1 && names[0] == "idx"
      invariant forall k :: 0 <= k < i ==> names[k + 1] == FileName(listing[k])
    {
      names := names + [FileName(listing[i])];
    }
    assert names[1..] == seq(|listing|, k requires 0 <= k < |listing| => FileName(listing[k]));
  }

  ghost predicate IsFileListing(dirs: Dirs, files: seq<string>) {
    exists r :: IsListing(dirs, r) && files == seq(|r|, k requires 0 <= k < |r| => FileName(r[k]))
  }

  /** A ".md" name is listed, once, exactly when stat finds it. */
  lemma {:induction false} ListAgreesWithStat(dirs: Dirs, files: seq<string>, name: string)
    requires NamesAgree(dirs) && IsFileListing(dirs, files)
    ensures forall i, j :: 0 <= i < j < |files| ==> files[i] != files[j]
    ensures name in files <==> HasSuffix(name, ".md") && FirstOf(dirs, TrimSuffix(name, ".md")).Some?
  {
    var r: seq<Skill> :| IsListing(dirs, r) && files == seq(|r|, k requires 0 <= k < |r| => FileName(r[k]));
    hide IsListing, NamesAgree, HasSuffix, TrimSuffix, FirstOf, FileName;
    ListingIsOverlay(dirs, r);
    FilesDistinct(r, files);
    if name in files {
      var k :| 0 <= k < |files| && files[k] == name;
      FileNameTrims(r[k]);
      assert r[k] in r;
    }
    var base := TrimSuffix(name, ".md");
    if HasSuffix(name, ".md") && FirstOf(dirs, base).Some? {
      var m := FirstOf(dirs, base).value;
      FirstHasName(dirs, base);
      assert m in r;
      var k :| 0 <= k < |r| && r[k] == m;
      SuffixBack(name, m);
      assert files[k] == name;
    }
  }

  lemma FilesDistinct(r: seq<Skill>, files: seq<string>)
    requires StrictlySorted(r) && files == seq(|r|, k requires 0 <= k < |r| => FileName(r[k]))
    ensures forall i, j :: 0 <= i < j < |files| ==> files[i] != files[j]
  {
    hide FileName, Before;
    forall i, j | 0 <= i < j < |files| ensures files[i] != files[j] {
      FileNameTrims(r[i]);
      FileNameTrims(r[j]);
      BeforeTotal(r[i].name, r[j].name);
    }
  }

  lemma SuffixBack(name: string, m: Skill)
    requires HasSuffix(name, ".md") && TrimSuffix(name, ".md") == m.name
    ensures FileName(m) == name
  {
  }

  lemma FileNameTrims(m: Skill)
    ensures HasSuffix(FileName(m), ".md") && TrimSuffix(FileName(m), ".md") == m.name
  {
  }

  function IndexText(listing: seq<Skill>): string {
    if listing == [] then ""
    else
      var m := listing[0];
      "## " + m.name + "\n" + "description: " + m.description + "\n" + "\n" + IndexText(listing[1..])
  }

  /** The index is one block after the other, each with the name, the description and a
      blank line. */
  lemma {:induction false} IndexBlocks(x: Skill, rest: seq<Skill>)
    ensures IndexText([]) == ""
    ensures IndexText([x] + rest) ==
            "## " + x.name + "\ndescription: " + x.description + "\n\n" + IndexText(rest)
  {
    var all := [x] + rest;
    assert all[0] == x && all[1..] == rest;
    var head := "## " + x.name + "\n";
    assert head + "description: " == "## " + x.name + "\ndescription: ";
    assert head + "description: " + x.description + "\n" + "\n" ==
           "## " + x.name + "\ndescription: " + x.description + "\n\n";
  }

  method Index(dirs: Dirs) returns (text: string)
    ensures IsIndex(dirs, text)
  {
    var listing := ListSkills(dirs);
    text := "";
    assert listing[0..] == listing;
    for i := 0 to |listing|
      invariant IndexText(listing) == text + IndexText(listing[i..])
    {
      var m := listing[i];
      assert listing[i..][0] == m && listing[i..][1..] == listing[i + 1..];
      var block := "## " + m.name + "\n" + "description: " + m.description + "\n" + "\n";
      Assoc(text, block, IndexText(listing[i + 1..]));
      text := text + block;
    }
    assert listing[|listing|..] == [];
    assert text + "" == text;
  }

  ghost predicate IsIndex(dirs: Dirs, text: string) {
    exists r :: IsListing(dirs, r) && text == IndexText(r)
  }

  /** The index describes the listed files, in the order of the list, although the two
      are computed by separate calls. */
  lemma {:induction false} IndexAgreesWithList(dirs: Dirs, files: seq<string>, text: string)
    requires NamesAgree(dirs) && IsFileListing(dirs, files) && IsIndex(dirs, text)
    ensures exists r: seq<Skill> :: && text == IndexText(r)
                                    && files == seq(|r|, k requires 0 <= k < |r| => FileName(r[k]))
  {
    var r: seq<Skill> :| IsListing(dirs, r) && files == seq(|r|, k requires 0 <= k < |r| => FileName(r[k]));
    var q: seq<Skill> :| IsListing(dirs, q) && text == IndexText(q);
    hide IsListing, IndexText;
    ListingUnique(dirs, r, q);
  }
}
