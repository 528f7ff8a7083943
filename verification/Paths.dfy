/** Logical paths: the three string helpers of server.go and the component list
    behind a normal path. */
module Paths {
  import opened Text

  predicate Absolute(p: string) {
    p != "" && p[0] == '/'
  }

  /** A path without a slash makes the source slice at -1; every path a fid can
      hold is absolute (Fids.StepTable, World.WholeRunInvariant). */
  function PathParent(path: string): (r: string)
    requires Absolute(path)
    ensures Absolute(r)
  {
    if path == "/" then "/"
    else var i := LastIndex(path, '/'); if i == 0 then "/" else path[..i]
  }

  function PathJoin(parent: string, name: string): string {
    if parent == "/" then "/" + name else parent + "/" + name
  }

  function PathBase(path: string): string {
    path[LastIndex(path, '/') + 1..]
  }

  /** Parent and base undo a join, for every absolute parent and one-component name. */
  lemma {:induction false} JoinIsUndone(parent: string, name: string)
    requires Absolute(parent) && '/' !in name
    requires parent == "/" ==> name != ""
    ensures PathParent(PathJoin(parent, name)) == parent
    ensures PathBase(PathJoin(parent, name)) == name
  {
    if parent == "/" {
      LastIndexAt("", '/', name);
      assert "" + ['/'] + name == "/" + name;
    } else {
      LastIndexAt(parent, '/', name);
      assert parent + ['/'] + name == parent + "/" + name;
    }
  }

  /** The keys of sessionStoreFiles: the fixed files directly under /s. */
  const FIXED_FILES := {"new", "idx", "ls", "kill", "sh", "b", "bfg", "bbg", "cleanup"}

  /** A name a 9P client may send for one path component. */
  predicate LegalName(n: string) {
    n != "" && n != ".." && '/' !in n
  }

  predicate Legal(cs: seq<string>) {
    forall i :: 0 <= i < |cs| ==> LegalName(cs[i])
  }

  function Body(cs: seq<string>): string {
    if cs == [] then "" else Body(cs[..|cs| - 1]) + "/" + cs[|cs| - 1]
  }

  /** The normal path with the components cs. */
  function PathOf(cs: seq<string>): string {
    if cs == [] then "/" else Body(cs)
  }

  ghost predicate Normal(p: string) {
    exists cs :: Legal(cs) && p == PathOf(cs)
  }

  lemma {:induction false} BodyFront(c: string, cs: seq<string>)
    ensures Body([c] + cs) == "/" + c + Body(cs)
  {
    if cs == [] {
      assert ([c] + cs)[..0] == [];
    } else {
      var all := [c] + cs;
      assert all[..|all| - 1] == [c] + cs[..|cs| - 1];
      BodyFront(c, cs[..|cs| - 1]);
    }
  }

  /** Below the root a path is a slash and more. */
  lemma BodyHead(cs: seq<string>)
    requires Legal(cs) && cs != []
    ensures |Body(cs)| >= 2 && Body(cs)[0] == '/'
  {
    BodyFront(cs[0], cs[1..]);
    assert cs == [cs[0]] + cs[1..];
  }

  lemma JoinOf(cs: seq<string>, n: string)
    requires Legal(cs)
    ensures PathJoin(PathOf(cs), n) == PathOf(cs + [n])
  {
    assert (cs + [n])[..|cs|] == cs;
    if cs != [] { BodyHead(cs); } else { BodyFront(n, []); assert [n] + [] == [n]; }
  }

  lemma {:induction false} ParentAndBaseOf(cs: seq<string>)
    requires Legal(cs)
    ensures Absolute(PathOf(cs))
    ensures PathParent(PathOf(cs)) == PathOf(if cs == [] then [] else cs[..|cs| - 1])
    ensures cs != [] ==> PathBase(PathOf(cs)) == cs[|cs| - 1]
  {
    if cs == [] {
    } else {
      var front, last := cs[..|cs| - 1], cs[|cs| - 1];
      ParentAndBaseOf(front);
      assert front + [last] == cs;
      JoinOf(front, last);
      JoinIsUndone(PathOf(front), last);
    }
  }

  /** Two component lists with the same path are the same list. */
  lemma {:induction false} PathOfInjective(a: seq<string>, b: seq<string>)
    requires Legal(a) && Legal(b) && PathOf(a) == PathOf(b)
    ensures a == b
  {
    ParentAndBaseOf(a);
    ParentAndBaseOf(b);
    if a != [] { BodyHead(a); }
    if b != [] { BodyHead(b); }
    if a == [] {
    } else {
      PathOfInjective(a[..|a| - 1], b[..|b| - 1]);
      assert a == a[..|a| - 1] + [a[|a| - 1]];
      assert b == b[..|b| - 1] + [b[|b| - 1]];
    }
  }

  /** What strings.SplitN(strings.TrimPrefix(path, "/"), "/", 3) gives. */
  function Parts(path: string): (parts: seq<string>)
    ensures 0 < |parts| <= 3
  {
    SplitN(TrimPrefix(path, "/"), '/', 3)
  }

  lemma {:induction false} SplitHead(a: string, b: string, n: nat)
    requires '/' !in a && n > 0
    ensures SplitN(a, '/', n) == [a]
    ensures n > 1 ==> SplitN(a + "/" + b, '/', n) == [a] + SplitN(b, '/', n - 1)
  {
    var s := a + ['/'] + b;
    IndexAt(a, '/', b);
    assert s == a + "/" + b && s[..|a|] == a && s[|a| + 1..] == b;
  }

  /** "/s/<rest>" splits into "s" and what rest splits into. */
  lemma {:induction false} PartsBelow(a: string, rest: string)
    requires '/' !in a
    ensures Parts("/" + a) == [a]
    ensures Parts("/" + a + "/" + rest) == [a] + SplitN(rest, '/', 2)
  {
    SplitHead(a, rest, 3);
    assert ("/" + a)[1..] == a;
    assert ("/" + a + "/" + rest)[1..] == a + "/" + rest;
  }

  lemma {:induction false} PartsOf(cs: seq<string>)
    requires Legal(cs)
    ensures Parts(PathOf(cs)) ==
            if cs == [] then [""]
            else if |cs| <= 2 then cs
            else [cs[0], cs[1], Body(cs[2..])[1..]]
  {
    if cs == [] {
      SplitHead("", "", 3);
    } else {
      PathFront(cs);
      if |cs| == 1 {
        PartsBelow(cs[0], "");
      } else {
        hide Parts, PathOf, Body;
        PartsBelow(cs[0], cs[1] + Body(cs[2..]));
        PartsRest(cs);
      }
    }
  }

  lemma PathFront(cs: seq<string>)
    requires Legal(cs) && cs != []
    ensures |cs| == 1 ==> PathOf(cs) == "/" + cs[0]
    ensures |cs| >= 2 ==> PathOf(cs) == "/" + cs[0] + "/" + (cs[1] + Body(cs[2..]))
  {
    BodyFront(cs[0], cs[1..]);
    assert cs == [cs[0]] + cs[1..];
    if |cs| >= 2 {
      BodyFront(cs[1], cs[2..]);
      assert cs[1..] == [cs[1]] + cs[2..];
    }
  }

  lemma {:induction false} PartsRest(cs: seq<string>)
    requires Legal(cs) && |cs| >= 2
    ensures SplitN(cs[1] + Body(cs[2..]), '/', 2) ==
            if |cs| == 2 then [cs[1]] else [cs[1], Body(cs[2..])[1..]]
  {
    if |cs| == 2 {
      assert cs[1] + Body(cs[2..]) == cs[1];
      SplitHead(cs[1], "", 2);
    } else {
      BodyHead(cs[2..]);
      var v := Body(cs[2..])[1..];
      assert cs[1] + Body(cs[2..]) == cs[1] + "/" + v;
      SplitHead(cs[1], v, 2);
    }
  }

  /** strings.HasPrefix(path, "/<d>/"). */
  predicate Under(d: string, path: string) {
    "/" + d + "/" <= path
  }

  /** A path lies under the top-level directory d exactly when it has at least two
      components and the first is d, whatever other directory names extend d. */
  lemma {:induction false} UnderDirectory(cs: seq<string>, d: string)
    requires Legal(cs) && LegalName(d)
    ensures Under(d, PathOf(cs)) <==> |cs| >= 2 && cs[0] == d
    ensures Under(d, PathOf(cs)) ==> PathOf(cs)[|d| + 2..] == Body(cs[1..])[1..]
  {
    if cs != [] {
      var rest := cs[1..];
      assert cs == [cs[0]] + rest;
      BodyFront(cs[0], rest);
      if rest != [] {
        BodyHead(rest);
      }
      UnderPrefix(d, cs[0], Body(rest));
    }
  }

  lemma UnderPrefix(d: string, c: string, rest: string)
    requires '/' !in d && '/' !in c && (rest == "" || rest[0] == '/')
    ensures Under(d, "/" + c + rest) <==> rest != "" && c == d
    ensures Under(d, "/" + c + rest) ==> ("/" + c + rest)[|d| + 2..] == rest[1..]
  {
    var p, s := "/" + d + "/", "/" + c + rest;
    assert s[1..] == c + rest;
    if rest != "" && c == d {
      assert s == p + rest[1..];
    }
    if p <= s {
      var t := s[1..];
      assert t[..|d|] == d && t[|d|] == '/';
      assert forall i :: 0 <= i < |d| ==> t[i] == d[i] && d[i] != '/';
      assert forall i :: 0 <= i < |c| ==> t[i] == c[i] && c[i] != '/';
      assert |c| < |t| ==> t[|c|] == '/';
      assert |c| == |d|;
      assert c == t[..|c|];
    }
  }

  lemma TwoComponents(d: string, name: string)
    requires LegalName(d) && LegalName(name)
    ensures Legal([d, name]) && PathOf([d, name]) == "/" + d + "/" + name
  {
    BodyFront(d, [name]);
    BodyFront(name, []);
    assert [d] + [name] == [d, name] && [name] + [] == [name];
  }
}
