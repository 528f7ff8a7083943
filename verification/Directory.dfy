/** Directory reads: whole length-prefixed records, page by page (read(5)). */
module Directory {
  import opened Seqs
  import opened Transfer

  /** stat(5): a directory entry is its body behind the length of the body in two bytes,
      the low one first. */
  function Entry(body: string): (r: string)
    requires |body| < 0x1_0000
  {
    [(|body| % 256) as char, (|body| / 256) as char] + body
  }

  predicate Record(r: string) {
    |r| >= 2 && |r| - 2 < 0x1_0000 && r == Entry(r[2..])
  }

  /** What the server takes for the size of the record in front. */
  function RecordSize(s: string): (n: nat)
    requires |s| >= 2
    ensures n >= 2
  {
    2 + (s[0] as int) + 256 * (s[1] as int)
  }

  function Concat(rs: seq<string>): string {
    if rs == [] then "" else rs[0] + Concat(rs[1..])
  }

  /** The length test of the loop, with the uint32 conversion the server makes. */
  predicate Exceeds(got: nat, total: nat, count: nat) {
    (got + total) % UINT32 > count
  }

  /** How many bytes of `remaining` still go into a reply that holds `got`. */
  function Run(remaining: string, got: nat, count: nat): (n: nat)
    ensures n <= |remaining|
    decreases |remaining|
  {
    if |remaining| < 2 then 0
    else
      var total := RecordSize(remaining);
      if total > |remaining| || Exceeds(got, total, count) then 0
      else total + Run(remaining[total..], got + total, count)
  }

  /** The reply to Tread on a directory with the serialised entries `all`. */
  function Page(all: string, offset: nat, count: nat): (reply: string)
    ensures offset <= |all| ==> reply <= all[offset..]
    ensures offset >= |all| ==> reply == ""
  {
    if offset >= |all| then "" else var rest := all[offset..]; rest[..Run(rest, 0, count)]
  }

  /** The second half of Server.readDir, with the uint32 conversion it makes. */
  method ReadDir(all: string, offset: nat, count: nat) returns (result: string)
    ensures result == Page(all, offset, count)
  {
    hide Run, RecordSize, Exceeds, Page;
    if offset >= |all| {
      return "";
    }
    var remaining := all[offset..];
    ghost var rest := remaining;
    ghost var n := PageIsRun(all, offset, count);
    result := "";
    ghost var got := 0;
    while |remaining| >= 2
      invariant got == |result| <= |rest| && result == rest[..got] && remaining == rest[got..]
      invariant got + Run(rest[got..], got, count) == n
      decreases |remaining|
    {
      var total := RecordSize(remaining);
      RunTurn(rest[got..], got, count);
      if total > |remaining| {
        break;
      }
      if Exceeds(|result|, total, count) {
        break;
      }
      SliceGrow(rest, got, total);
      result := result + remaining[..total];
      remaining := remaining[total..];
      got := got + total;
    }
    RunTurn(rest[got..], got, count);
  }

  lemma PageIsRun(all: string, offset: nat, count: nat) returns (n: nat)
    requires offset <= |all|
    ensures n == Run(all[offset..], 0, count) && Page(all, offset, count) == all[offset..][..n]
  {
    n := Run(all[offset..], 0, count);
  }

  /** One turn of the loop. */
  lemma RunTurn(remaining: string, got: nat, count: nat)
    ensures |remaining| < 2 ==> Run(remaining, got, count) == 0
    ensures |remaining| >= 2 ==>
              var total := RecordSize(remaining);
              Run(remaining, got, count) ==
                if total > |remaining| || Exceeds(got, total, count) then 0
                else total + Run(remaining[total..], got + total, count)
  {
  }

  lemma {:induction false} ConcatSplit(rs: seq<string>, k: nat)
    requires k <= |rs|
    ensures Concat(rs) == Concat(rs[..k]) + Concat(rs[k..])
  {
    if k > 0 {
      ConcatSplit(rs[1..], k - 1);
      TakeTail(rs, k);
    }
  }

  /** The first record of a listing, as the server finds it. */
  lemma ConcatHead(rs: seq<string>)
    requires rs != [] && Record(rs[0])
    ensures var s := Concat(rs); |s| >= 2 && RecordSize(s) == |rs[0]| && s[|rs[0]|..] == Concat(rs[1..])
  {
    var s, n := Concat(rs), |rs[0]| - 2;
    assert s[0] == rs[0][0] == (n % 256) as char && s[1] == rs[0][1] == (n / 256) as char;
  }

  lemma EntryIsRecord(body: string)
    requires |body| < 0x1_0000
    ensures Record(Entry(body)) && |Entry(body)| == |body| + 2
  {
    assert Entry(body)[2..] == body;
  }

  predicate Records(rs: seq<string>) {
    forall i :: 0 <= i < |rs| ==> Record(rs[i])
  }

  /** From a record boundary the reply takes the longest run of whole records. */
  lemma {:induction false} RunIsMaximal(rs: seq<string>, got: nat, count: nat) returns (k: nat)
    requires Records(rs) && got + |Concat(rs)| < UINT32 && got <= count
    ensures k <= |rs| && Run(Concat(rs), got, count) == |Concat(rs[..k])|
    ensures got + |Concat(rs[..k])| <= count
    ensures k < |rs| ==> got + |Concat(rs[..k])| + |rs[k]| > count
  {
    hide Run, RecordSize, Concat, Exceeds;
    k := 0;
    if rs == [] {
      RunTurn(Concat(rs), got, count);
      NoneLeft(rs);
    } else {
      ConcatHead(rs);
      ConcatTake(rs, 0);
      ExceedsSmall(got, |rs[0]|, count);
      RunTurn(Concat(rs), got, count);
      if got + |rs[0]| <= count {
        var j := RunIsMaximal(rs[1..], got + |rs[0]|, count);
        k := j + 1;
        ConcatTake(rs, j);
      }
    }
  }

  lemma NoneLeft(rs: seq<string>)
    requires rs == []
    ensures Concat(rs) == "" && Concat(rs[..0]) == ""
  {
  }

  lemma ExceedsSmall(got: nat, total: nat, count: nat)
    requires got + total < UINT32
    ensures Exceeds(got, total, count) <==> got + total > count
  {
  }

  lemma ConcatTake(rs: seq<string>, j: nat)
    requires j < |rs|
    ensures Concat(rs[..j + 1]) == rs[0] + Concat(rs[1..][..j])
    ensures Concat(rs) == rs[0] + Concat(rs[1..])
    ensures Concat(rs[..0]) == ""
  {
    TakeTail(rs, j + 1);
  }

  /** A reply at a record boundary, with `before` in front of it and rs behind: whole
      records, at most count bytes, and no further record would have fitted. */
  lemma {:induction false} PageAtBoundary(before: string, rs: seq<string>, count: nat) returns (k: nat)
    requires Records(rs) && |before + Concat(rs)| < UINT32
    ensures k <= |rs| && Page(before + Concat(rs), |before|, count) == Concat(rs[..k])
    ensures |Concat(rs[..k])| <= count
    ensures k < |rs| ==> |Concat(rs[..k])| + |rs[k]| > count
  {
    var all := before + Concat(rs);
    assert all[|before|..] == Concat(rs);
    k := RunIsMaximal(rs, 0, count);
    ConcatSplit(rs, k);
    var n := |Concat(rs[..k])|;
    assert Concat(rs)[..n] == Concat(rs[..k]);
    if Concat(rs) == "" && rs != [] { ConcatHead(rs); }
  }

  lemma SomeTaken(rs: seq<string>, k: nat)
    requires k <= |rs|
    ensures Concat(rs[..k]) != "" ==> k > 0
  {
    if k == 0 { assert rs[..k] == []; }
  }

  /** A page at a boundary is empty only at the end or when the next record does
      not fit, so a smaller count is the one thing that stops a reader early. */
  lemma {:induction false} EmptyPage(before: string, rs: seq<string>, count: nat)
    requires Records(rs) && |before + Concat(rs)| < UINT32
    ensures Page(before + Concat(rs), |before|, count) == "" <==> rs == [] || |rs[0]| > count
  {
    var k := PageAtBoundary(before, rs, count);
    if k > 0 {
      assert rs[..k][0] == rs[0] && |Concat(rs[..k])| >= |rs[0]|;
    } else {
      assert rs[..0] == [];
    }
  }

  /** A client that advances by the length of each reply until one is empty. */
  function ReadPages(all: string, offset: nat, count: nat -> nat): string
    decreases |all| - offset
  {
    var page := Page(all, offset, count(offset));
    if page == "" then "" else page + ReadPages(all, offset + |page|, count)
  }

  lemma NextPage(all: string, offset: nat, count: nat -> nat, page: string)
    requires page == Page(all, offset, count(offset)) && page != ""
    ensures ReadPages(all, offset, count) == page + ReadPages(all, offset + |page|, count)
  {
    hide Run, Page;
  }

  ghost predicate HoldsEach(rs: seq<string>, count: nat -> nat) {
    forall i, o :: 0 <= i < |rs| ==> |rs[i]| <= count(o)
  }

  /** A reply at a boundary leaves a shorter listing behind a longer front. */
  lemma {:induction false} PageAdvances(before: string, rs: seq<string>, count: nat) returns (k: nat, page: string)
    requires Records(rs) && |before + Concat(rs)| < UINT32 && rs != [] && |rs[0]| <= count
    ensures 0 < k <= |rs| && page == Page(before + Concat(rs), |before|, count) != ""
    ensures before + Concat(rs) == before + page + Concat(rs[k..]) && Concat(rs) == page + Concat(rs[k..])
  {
    hide Page, Run, RecordSize, Concat;
    EmptyPage(before, rs, count);
    k := PageAtBoundary(before, rs, count);
    page := Concat(rs[..k]);
    SomeTaken(rs, k);
    ConcatSplit(rs, k);
    Assoc(before, page, Concat(rs[k..]));
  }

  /** Whatever counts the client asks for, as long as each holds the largest record,
      it terminates and the replies concatenate to everything from the boundary on;
      with nothing before, to the whole listing. */
  lemma {:induction false} PagingIsLossless(before: string, rs: seq<string>, count: nat -> nat)
    requires Records(rs) && |before + Concat(rs)| < UINT32 && HoldsEach(rs, count)
    ensures ReadPages(before + Concat(rs), |before|, count) == Concat(rs)
    decreases |rs|
  {
    hide Page, Run, RecordSize, Concat, ReadPages, Records, HoldsEach;
    if rs == [] {
      PagesEnd(before, count);
    } else {
      HoldsFirst(rs, count, |before|);
      var k, page := PageAdvances(before, rs, count(|before|));
      HoldsRest(rs, count, k);
      NextPage(before + Concat(rs), |before|, count, page);
      PagingIsLossless(before + page, rs[k..], count);
    }
  }

  lemma PagesEnd(before: string, count: nat -> nat)
    ensures ReadPages(before + Concat([]), |before|, count) == Concat([])
  {
  }

  lemma HoldsFirst(rs: seq<string>, count: nat -> nat, o: nat)
    requires HoldsEach(rs, count) && rs != []
    ensures |rs[0]| <= count(o)
  {
  }

  lemma HoldsRest(rs: seq<string>, count: nat -> nat, k: nat)
    requires Records(rs) && HoldsEach(rs, count) && k <= |rs|
    ensures Records(rs[k..]) && HoldsEach(rs[k..], count)
  {
  }

  function Entries(bodies: seq<string>): seq<string>
    requires forall i :: 0 <= i < |bodies| ==> |bodies[i]| < 0x1_0000
  {
    seq(|bodies|, i requires 0 <= i < |bodies| => Entry(bodies[i]))
  }

  /** A listing of any entries is read back whole, in pages of any counts no smaller than
      the largest entry. */
  lemma {:induction false} EntriesAreRead(bodies: seq<string>, count: nat -> nat)
    requires forall i :: 0 <= i < |bodies| ==> |bodies[i]| < 0x1_0000
    requires |Concat(Entries(bodies))| < 4294967296
    requires forall i, o :: 0 <= i < |bodies| ==> |bodies[i]| + 2 <= count(o)
    ensures ReadPages(Concat(Entries(bodies)), 0, count) == Concat(Entries(bodies))
  {
    hide Entry, Record, Concat, ReadPages;
    var rs := Entries(bodies);
    forall i | 0 <= i < |rs| ensures Record(rs[i]) && |rs[i]| == |bodies[i]| + 2 {
      EntryIsRecord(bodies[i]);
    }
    assert "" + Concat(rs) == Concat(rs);
    PagingIsLossless("", rs, count);
  }

  /** At an input: one entry of 60 bytes, read with room for it. */
  lemma OneEntryIsRead(body: string, count: nat)
    requires |body| == 58 && count >= 60
    ensures Entry(body)[0] == 58 as char && Entry(body)[1] == 0 as char
    ensures Page(Entry(body), 0, count) == Entry(body)
  {
    var r := Entry(body);
    EntryIsRecord(body);
    assert Concat([r]) == r by { assert [r][1..] == []; }
    assert "" + Concat([r]) == r;
    hide Entry, Record;
    var k := PageAtBoundary("", [r], count);
    hide Page, Run, Concat;
    assert k == 1 by { assert [r][..0] == []; NoneTaken(); }
    assert [r][..1] == [r];
  }

  lemma NoneTaken()
    ensures Concat([]) == ""
  {
  }
}
