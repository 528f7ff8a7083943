/** Bytes between a client and a file: slice reads and write assembly. */
module Transfer {
  import opened Text

  /** The largest Go int; an offset beyond it turns negative in the conversion the
      source makes, which then slices out of range. */
  const MAX_INT := 0x7FFF_FFFF_FFFF_FFFF

  /** Where Go's uint32 wraps. */
  const UINT32 := 0x1_0000_0000

  function Min(a: int, b: int): int { if a < b then a else b }
  function Max(a: int, b: int): int { if a < b then b else a }

  // ---- reads -------------------------------------------------------------

  /** Server.readSlice. */
  function ReadSlice(content: string, offset: nat, count: nat): (data: string)
    requires offset <= MAX_INT
    ensures |data| == Min(count, Max(0, |content| - offset))
    ensures offset <= |content| ==> data <= content[offset..]
  {
    if offset < |content| then content[offset..Min(offset + count, |content|)] else ""
  }

  /** A client reading to end of file from `offset`, asking for count(o) bytes at
      offset o and stopping at the first empty reply. */
  function ReadToEnd(content: string, offset: nat, count: nat -> nat): string
    requires |content| <= MAX_INT && offset <= |content|
    decreases |content| - offset
  {
    var data := ReadSlice(content, offset, count(offset));
    if data == "" then "" else data + ReadToEnd(content, offset + |data|, count)
  }

  lemma {:induction false} ReadToEndIsContent(content: string, offset: nat, count: nat -> nat)
    requires |content| <= MAX_INT && offset <= |content|
    requires forall o :: count(o) > 0
    ensures ReadToEnd(content, offset, count) == content[offset..]
    decreases |content| - offset
  {
    hide ReadSlice;
    var data := ReadSlice(content, offset, count(offset));
    if data != "" {
      ReadToEndIsContent(content, offset + |data|, count);
      SliceSplit(content, offset, offset + |data|);
    } else {
      assert count(offset) > 0 && |content[offset..]| == 0;
    }
  }

  // ---- writes ------------------------------------------------------------

  datatype Chunk = Chunk(off: nat, data: string)

  predicate Covers(w: Chunk, i: nat) {
    w.off <= i < w.off + |w.data|
  }

  /** One Twrite laid over a buffer; bytes nobody wrote are zero. */
  function Overlay(buf: string, w: Chunk): string {
    seq(Max(|buf|, w.off + |w.data|), (i: nat) =>
      if Covers(w, i) then w.data[i - w.off] else if i < |buf| then buf[i] else '\0')
  }

  /** The buffer after the writes ws, in that order, on a new fid. */
  function Assemble(ws: seq<Chunk>): string {
    if ws == [] then "" else Overlay(Assemble(ws[..|ws| - 1]), ws[|ws| - 1])
  }

  /** The last write that covers byte i, or -1. */
  function LastWriter(ws: seq<Chunk>, i: nat): (k: int)
    ensures -1 <= k < |ws|
    ensures k >= 0 ==> Covers(ws[k], i)
    ensures forall j :: k < j < |ws| ==> !Covers(ws[j], i)
  {
    if ws == [] then -1
    else if Covers(ws[|ws| - 1], i) then |ws| - 1
    else LastWriter(ws[..|ws| - 1], i)
  }

  /** The furthest end of any write. */
  function Extent(ws: seq<Chunk>): nat {
    if ws == [] then 0 else Max(Extent(ws[..|ws| - 1]), ws[|ws| - 1].off + |ws[|ws| - 1].data|)
  }

  /** Last writer wins, holes are zero, and the length is the furthest end. */
  lemma {:induction false} AssembledByte(ws: seq<Chunk>, i: nat)
    ensures |Assemble(ws)| == Extent(ws)
    ensures i < Extent(ws) ==>
              var k := LastWriter(ws, i);
              Assemble(ws)[i] == if k >= 0 then ws[k].data[i - ws[k].off] else '\0'
    ensures i >= Extent(ws) ==> LastWriter(ws, i) < 0
  {
    if ws == [] {
    } else {
      var front, last := ws[..|ws| - 1], ws[|ws| - 1];
      AssembledByte(front, i);
      OverlayByte(Assemble(front), last, i);
      hide Overlay;
    }
  }

  lemma OverlayByte(buf: string, w: Chunk, i: nat)
    ensures |Overlay(buf, w)| == Max(|buf|, w.off + |w.data|)
    ensures i < |Overlay(buf, w)| ==>
              Overlay(buf, w)[i] == if Covers(w, i) then w.data[i - w.off] else if i < |buf| then buf[i] else '\0'
  {
  }

  lemma {:induction false} ExtentWithin(ws: seq<Chunk>, n: nat)
    requires forall w :: w in ws ==> w.off + |w.data| <= n
    ensures Extent(ws) <= n
  {
    if ws == [] {
    } else {
      assert ws[|ws| - 1] in ws;
      ExtentWithin(ws[..|ws| - 1], n);
    }
  }

  ghost predicate Covered(ws: seq<Chunk>, i: nat) {
    exists w :: w in ws && Covers(w, i)
  }

  /** Every chunk is a piece of the payload and every byte is in some chunk. */
  ghost predicate Tiles(ws: seq<Chunk>, payload: string) {
    && (forall w :: w in ws ==> w.off + |w.data| <= |payload| && w.data == payload[w.off..w.off + |w.data|])
    && (forall i: nat :: i < |payload| ==> Covered(ws, i))
  }

  /** Chunks that tile a payload rebuild it in any order, overlapping or not. */
  lemma {:induction false} TilesRebuild(ws: seq<Chunk>, payload: string)
    requires Tiles(ws, payload)
    ensures Assemble(ws) == payload
  {
    AssembledByte(ws, 0);
    ExtentWithin(ws, |payload|);
    forall i: nat | i < |payload| ensures i < |Assemble(ws)| && Assemble(ws)[i] == payload[i] {
      TileByte(ws, payload, i);
    }
    if payload != "" { TileByte(ws, payload, |payload| - 1); }
  }

  lemma TileByte(ws: seq<Chunk>, payload: string, i: nat)
    requires Tiles(ws, payload) && i < |payload|
    ensures i < |Assemble(ws)| && Assemble(ws)[i] == payload[i]
  {
    AssembledByte(ws, i);
    assert Covered(ws, i);
    var k := LastWriter(ws, i);
    assert ws[k] in ws;
  }

  /** In particular any permutation of such chunks gives the same buffer. */
  lemma {:induction false} PermutedTilesRebuild(ws: seq<Chunk>, tiles: seq<Chunk>, payload: string)
    requires Tiles(tiles, payload) && multiset(ws) == multiset(tiles)
    ensures Assemble(ws) == payload
  {
    forall w ensures w in ws <==> w in tiles {
      assert w in ws <==> w in multiset(ws);
      assert w in tiles <==> w in multiset(tiles);
    }
    forall i: nat | i < |payload| ensures Covered(ws, i) {
      assert Covered(tiles, i);
    }
    TilesRebuild(ws, payload);
  }
}
