/** Block layout of the heap: the abstract sequence of blocks that the boundary tags describe.

    Sizes and addresses count 8-byte rows (`WSIZE`), so 32 bytes is 4 rows and a page is 512 rows.
    A block is named by its payload row: its header is the row before, and the next block's
    payload row is `rows` further on.  The heap ends at row `end`; its last row is unused.
 */
module HeapGeometry {

  const PAGE := 512                // rows in a page
  const START := 512               // first heap row; the rows below it hold the static list heads
  const FIRST := START + 2         // payload row of the first block
  const MIN_ROWS := 4              // 32 bytes

  /** `Quick` blocks are marked allocated in the heap although no client owns them. */
  datatype State = Free | Quick | Used

  /** `prv` is the prev-alloc bit of the block's header. */
  datatype Block = Block(rows: nat, state: State, prv: bool)

  type Blocks = map<int, Block>

  function Next(blk: Blocks, b: int): int
    requires b in blk
  {
    b + blk[b].rows
  }

  /** Block `b` lies in the heap and ends at the end of the heap or where another block starts. */
  ghost predicate InHeap(blk: Blocks, end: int, b: int)
    requires b in blk
  {
    && FIRST <= b
    && blk[b].rows >= MIN_ROWS
    && Next(blk, b) <= end
    && (Next(blk, b) < end ==> Next(blk, b) in blk)
  }

  /** Block `b` ends before the later block `c` starts. */
  ghost predicate Apart(blk: Blocks, b: int, c: int)
    requires b in blk && c in blk
  {
    b < c ==> Next(blk, b) <= c
  }

  /** The blocks tile the heap from its first block to its end. */
  ghost predicate Tiled(blk: Blocks, end: int) {
    && FIRST in blk
    && (forall b {:trigger InHeap(blk, end, b)} | b in blk :: InHeap(blk, end, b))
    && (forall b, c {:trigger Apart(blk, b, c)} | b in blk && c in blk :: Apart(blk, b, c))
  }

  /** The payload of `b` starts at an even row, that is, at a multiple of 16 bytes. */
  ghost predicate Even(blk: Blocks, b: int)
    requires b in blk
  {
    b % 2 == 0 && blk[b].rows % 2 == 0
  }

  ghost predicate Aligned(blk: Blocks) {
    forall b {:trigger Even(blk, b)} | b in blk :: Even(blk, b)
  }

  /** Block `b` and the block after it are not both free. */
  ghost predicate Settled(blk: Blocks, b: int)
    requires b in blk
  {
    blk[b].state.Free? && Next(blk, b) in blk ==> !blk[Next(blk, b)].state.Free?
  }

  /** No two neighbouring blocks are both free, except pairs that contain a block in `loose`. */
  ghost predicate Coalesced(blk: Blocks, loose: set<int>) {
    forall b {:trigger Settled(blk, b)} | b in blk && b !in loose && Next(blk, b) !in loose :: Settled(blk, b)
  }

  /** The prev-alloc bit of the block after `b` tells whether `b` is allocated. */
  ghost predicate PrvRight(blk: Blocks, b: int)
    requires b in blk
  {
    Next(blk, b) in blk ==> (blk[Next(blk, b)].prv <==> !blk[b].state.Free?)
  }

  ghost predicate PrevBits(blk: Blocks)
    requires FIRST in blk
  {
    && blk[FIRST].prv
    && (forall b {:trigger PrvRight(blk, b)} | b in blk :: PrvRight(blk, b))
  }

  ghost predicate Layout(blk: Blocks, end: int) {
    Tiled(blk, end) && Aligned(blk) && PrevBits(blk)
  }

  /** Block `b` takes in the block `c` that follows it. */
  function Absorb(blk: Blocks, b: int, c: int): Blocks
    requires b in blk && c in blk
  {
    (blk - {c})[b := Block(blk[b].rows + blk[c].rows, blk[b].state, blk[b].prv)]
  }

  /** Block `x`, if there is one, records in its prev-alloc bit whether the block before it is allocated. */
  function SetPrv(blk: Blocks, x: int, alloc: bool): Blocks {
    if x in blk then blk[x := Block(blk[x].rows, blk[x].state, alloc)] else blk
  }

  /** Block `b` keeps `k` rows for its client and the rest becomes a free block. */
  function Carve(blk: Blocks, b: int, k: nat): Blocks
    requires b in blk && k <= blk[b].rows
  {
    SetPrv(blk, Next(blk, b), false)
      [b := Block(k, Used, blk[b].prv)]
      [b + k := Block(blk[b].rows - k, Free, true)]
  }

  function WithState(blk: Blocks, b: int, s: State): Blocks
    requires b in blk
  {
    SetPrv(blk, Next(blk, b), !s.Free?)[b := Block(blk[b].rows, s, blk[b].prv)]
  }

  /** Every block but the first is preceded by a block that ends where it starts. */
  lemma Predecessor(blk: Blocks, end: int, b: int) returns (p: int)
    requires Tiled(blk, end) && b in blk && b != FIRST
    ensures p in blk && Next(blk, p) == b && p < b
  {
    assert InHeap(blk, end, b);
    p := PredecessorFrom(blk, end, FIRST, b);
  }

  lemma PredecessorFrom(blk: Blocks, end: int, from: int, b: int) returns (p: int)
    requires Tiled(blk, end) && from in blk && b in blk && from < b
    ensures p in blk && Next(blk, p) == b && p < b
    decreases b - from
  {
    assert InHeap(blk, end, from) && InHeap(blk, end, b) && Apart(blk, from, b);
    if Next(blk, from) == b {
      p := from;
    } else {
      p := PredecessorFrom(blk, end, Next(blk, from), b);
    }
  }

  /** No block starts strictly inside another one, or at the end of the heap. */
  lemma NoneInside(blk: Blocks, end: int, b: int, x: int)
    requires Tiled(blk, end) && b in blk
    requires b < x < Next(blk, b) || end <= x
    ensures x !in blk
  {
    assert x in blk ==> InHeap(blk, end, x) && Apart(blk, b, x);
  }

  lemma NextExists(blk: Blocks, end: int, b: int)
    requires Tiled(blk, end) && b in blk
    ensures Next(blk, b) in blk <==> Next(blk, b) < end
    ensures b < Next(blk, b)
  {
    assert InHeap(blk, end, b);
    assert Next(blk, b) in blk ==> InHeap(blk, end, Next(blk, b));
  }

  lemma AbsorbLayout(blk: Blocks, end: int, b: int, c: int)
    requires Layout(blk, end) && b in blk && c in blk && Next(blk, b) == c
    requires blk[b].state.Free? && blk[c].state.Free?
    ensures Layout(Absorb(blk, b, c), end)
  {
    var blk' := Absorb(blk, b, c);
    assert InHeap(blk, end, b) && InHeap(blk, end, c);
    forall d {:trigger InHeap(blk', end, d)} | d in blk' ensures InHeap(blk', end, d) {
      assert InHeap(blk, end, d) && Apart(blk, d, b) && Apart(blk, b, d);
    }
    forall d, e {:trigger Apart(blk', d, e)} | d in blk' && e in blk' ensures Apart(blk', d, e) {
      assert Apart(blk, d, e) && Apart(blk, c, e);
    }
    AbsorbBits(blk, end, b, c);
  }

  lemma AbsorbBits(blk: Blocks, end: int, b: int, c: int)
    requires Layout(blk, end) && b in blk && c in blk && Next(blk, b) == c
    requires blk[b].state.Free? && blk[c].state.Free?
    ensures Aligned(Absorb(blk, b, c)) && FIRST in Absorb(blk, b, c) && PrevBits(Absorb(blk, b, c))
  {
    var blk' := Absorb(blk, b, c);
    assert InHeap(blk, end, b);
    forall d {:trigger Even(blk', d)} | d in blk' ensures Even(blk', d) {
      assert Even(blk, d) && Even(blk, c);
    }
    forall d {:trigger PrvRight(blk', d)} | d in blk' ensures PrvRight(blk', d) {
      assert PrvRight(blk, d) && PrvRight(blk, c);
    }
  }

  lemma CarveLayout(blk: Blocks, end: int, b: int, k: nat)
    requires Layout(blk, end) && b in blk && k % 2 == 0
    requires MIN_ROWS <= k <= blk[b].rows - MIN_ROWS
    ensures b + k !in blk && Layout(Carve(blk, b, k), end)
  {
    var blk' := Carve(blk, b, k);
    NoneInside(blk, end, b, b + k);
    assert InHeap(blk, end, b);
    forall d {:trigger InHeap(blk', end, d)} | d in blk' ensures InHeap(blk', end, d) {
      if d != b + k { assert InHeap(blk, end, d); }
    }
    forall d, e {:trigger Apart(blk', d, e)} | d in blk' && e in blk' ensures Apart(blk', d, e) {
      var d', e' := if d == b + k then b else d, if e == b + k then b else e;
      assert Apart(blk, d', e') && Apart(blk, b, d');
    }
    CarveBits(blk, end, b, k);
  }

  lemma CarveBits(blk: Blocks, end: int, b: int, k: nat)
    requires Layout(blk, end) && b in blk && k % 2 == 0 && b + k !in blk
    requires MIN_ROWS <= k <= blk[b].rows - MIN_ROWS
    ensures Aligned(Carve(blk, b, k)) && FIRST in Carve(blk, b, k) && PrevBits(Carve(blk, b, k))
  {
    var blk' := Carve(blk, b, k);
    assert Even(blk, b) && InHeap(blk, end, b) && InHeap(blk, end, FIRST) && Apart(blk, FIRST, b);
    forall d {:trigger Even(blk', d)} | d in blk' ensures Even(blk', d) {
      if d != b + k { assert Even(blk, d); }
    }
    forall d {:trigger PrvRight(blk', d)} | d in blk' ensures PrvRight(blk', d) {
      if d != b + k {
        assert InHeap(blk, end, d) && PrvRight(blk, d);
        NextInjective(blk, end, b, d);
      }
    }
  }

  lemma WithStateLayout(blk: Blocks, end: int, b: int, s: State)
    requires Layout(blk, end) && b in blk
    ensures Layout(WithState(blk, b, s), end)
  {
    var blk' := WithState(blk, b, s);
    assert InHeap(blk, end, b) && InHeap(blk, end, FIRST);
    forall d {:trigger InHeap(blk', end, d)} | d in blk' ensures InHeap(blk', end, d) {
      assert InHeap(blk, end, d);
    }
    forall d, e {:trigger Apart(blk', d, e)} | d in blk' && e in blk' ensures Apart(blk', d, e) {
      assert Apart(blk, d, e);
    }
    forall d {:trigger Even(blk', d)} | d in blk' ensures Even(blk', d) {
      assert Even(blk, d);
    }
    forall d {:trigger PrvRight(blk', d)} | d in blk' ensures PrvRight(blk', d) {
      assert PrvRight(blk, d) && InHeap(blk, end, d);
      NextInjective(blk, end, b, d);
    }
  }

  lemma NextInjective(blk: Blocks, end: int, b: int, d: int)
    requires Tiled(blk, end) && b in blk && d in blk
    ensures Next(blk, b) == Next(blk, d) ==> b == d
  {
    assert Apart(blk, b, d) && Apart(blk, d, b) && InHeap(blk, end, b) && InHeap(blk, end, d);
  }

  lemma GrowLayout(blk: Blocks, end: int, last: int, page: Block)
    requires Layout(blk, end) && last in blk && Next(blk, last) == end && end % 2 == 0
    requires page == Block(PAGE, Free, !blk[last].state.Free?)
    ensures end !in blk && Layout(blk[end := page], end + PAGE)
  {
    var blk' := blk[end := page];
    NoneInside(blk, end, last, end);
    assert InHeap(blk, end, FIRST);
    forall d {:trigger InHeap(blk', end + PAGE, d)} | d in blk' ensures InHeap(blk', end + PAGE, d) {
      if d != end { assert InHeap(blk, end, d); }
    }
    forall d, e {:trigger Apart(blk', d, e)} | d in blk' && e in blk' ensures Apart(blk', d, e) {
      if d != end && e != end { assert Apart(blk, d, e); }
      if d != end { assert InHeap(blk, end, d); }
      if e != end { assert InHeap(blk, end, e); }
    }
    forall d {:trigger Even(blk', d)} | d in blk' ensures Even(blk', d) {
      if d != end { assert Even(blk, d); }
    }
    forall d {:trigger PrvRight(blk', d)} | d in blk' ensures PrvRight(blk', d) {
      if d == end {
        NoneInside(blk, end, last, end + PAGE);
      } else {
        assert PrvRight(blk, d);
        NextInjective(blk, end, last, d);
      }
    }
  }

  // ----- neighbours -----

  /** Neither neighbour of `b` is free. */
  ghost predicate Isolated(blk: Blocks, b: int) {
    b in blk && blk[b].prv && Settled(blk, b)
  }

  lemma IsolatedCoalesced(blk: Blocks, end: int, b: int)
    requires Layout(blk, end) && Coalesced(blk, {b}) && Isolated(blk, b)
    ensures Coalesced(blk, {})
  {
    forall d {:trigger Settled(blk, d)} | d in blk ensures Settled(blk, d) {
      assert PrvRight(blk, d);
    }
  }

  /** The block before a free block is allocated, unless one of the two is loose. */
  lemma BeforeFree(blk: Blocks, end: int, b: int, loose: set<int>)
    requires Layout(blk, end) && b in blk && blk[b].state.Free? && b !in loose && Coalesced(blk, loose)
    requires forall d {:trigger Next(blk, d)} | d in blk && Next(blk, d) == b :: d !in loose
    ensures blk[b].prv
  {
    if b != FIRST {
      var p := Predecessor(blk, end, b);
      assert PrvRight(blk, p) && Settled(blk, p);
    }
  }

  lemma AbsorbCoalesced(blk: Blocks, end: int, b: int, c: int, loose: set<int>)
    requires Layout(blk, end) && b in blk && c in blk && Next(blk, b) == c
    requires blk[b].state.Free? && blk[c].state.Free? && Coalesced(blk, loose) && (b in loose || c in loose)
    ensures Coalesced(Absorb(blk, b, c), loose - {c} + {b})
  {
    var blk' := Absorb(blk, b, c);
    forall d {:trigger Settled(blk', d)} | d in blk' && d !in loose - {c} + {b} && Next(blk', d) !in loose - {c} + {b}
      ensures Settled(blk', d)
    {
      NextInjective(blk, end, b, d);
      assert d !in loose && Next(blk, d) !in loose ==> Settled(blk, d);
    }
  }

  lemma WithStateCoalesced(blk: Blocks, end: int, b: int, s: State)
    requires Layout(blk, end) && b in blk && Coalesced(blk, {})
    ensures Coalesced(WithState(blk, b, s), {b})
  {
    var blk' := WithState(blk, b, s);
    forall d {:trigger Settled(blk', d)} | d in blk' && d != b && Next(blk', d) != b ensures Settled(blk', d) {
      assert Settled(blk, d);
    }
  }

  lemma TakenCoalesced(blk: Blocks, end: int, b: int, s: State, loose: set<int>)
    requires Layout(blk, end) && b in blk && Coalesced(blk, loose) && !s.Free? && loose <= {b}
    ensures Coalesced(WithState(blk, b, s), {})
  {
    var blk' := WithState(blk, b, s);
    forall d {:trigger Settled(blk', d)} | d in blk' ensures Settled(blk', d) {
      assert d !in loose && Next(blk, d) !in loose ==> Settled(blk, d);
    }
  }

  lemma CarveCoalesced(blk: Blocks, end: int, b: int, k: nat, loose: set<int>)
    requires Layout(blk, end) && b in blk && Coalesced(blk, loose) && loose <= {b} && k % 2 == 0
    requires MIN_ROWS <= k <= blk[b].rows - MIN_ROWS
    ensures Coalesced(Carve(blk, b, k), {b + k})
  {
    var blk' := Carve(blk, b, k);
    CarveLayout(blk, end, b, k);
    forall d {:trigger Settled(blk', d)} | d in blk' && d != b + k && Next(blk', d) != b + k ensures Settled(blk', d) {
      assert d !in loose && Next(blk, d) !in loose ==> Settled(blk, d);
      NextInjective(blk, end, b, d);
    }
  }

  lemma GrowCoalesced(blk: Blocks, end: int, page: Block)
    requires Layout(blk, end) && end !in blk && Coalesced(blk, {})
    ensures Coalesced(blk[end := page], {end})
  {
    var blk' := blk[end := page];
    forall d {:trigger Settled(blk', d)} | d in blk' && d != end && Next(blk', d) != end ensures Settled(blk', d) {
      assert Settled(blk, d);
    }
  }
}
