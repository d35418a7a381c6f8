/** The heap invariant: boundary tags, segregated free lists and quick lists all agree with the blocks. */
module HeapInvariant {
  import opened HeapGeometry
  import opened LinkRings

  const LISTS := 10         // NUM_FREE_LISTS and NUM_QUICK_LISTS
  const QUICK_MAX := 5      // QUICK_LIST_MAX

  /** A header or footer word: the size in bytes, with 0x4 for `alloc` and 0x2 for `prv`. */
  function Pack(rows: int, alloc: bool, prv: bool): int {
    8 * rows + (if alloc then 4 else 0) + (if prv then 2 else 0)
  }

  function RowsOf(word: int): int { word / 8 }

  predicate AllocOf(word: int) { word / 4 % 2 == 1 }

  predicate PrvOf(word: int) { word / 2 % 2 == 1 }

  lemma PackFields(rows: int, alloc: bool, prv: bool)
    ensures RowsOf(Pack(rows, alloc, prv)) == rows
    ensures AllocOf(Pack(rows, alloc, prv)) == alloc
    ensures PrvOf(Pack(rows, alloc, prv)) == prv
  {
  }

  function Header(b: Block): int {
    Pack(b.rows, !b.state.Free?, b.prv)
  }

  /** Address of `sf_free_list_heads[i]`. */
  function Head(i: int): int { 8 + 4 * i }

  /** `find_main_class`, with sizes in rows. */
  function MainClass(rows: nat): int {
    if rows == 4 then 0
    else if 4 < rows <= 8 then 1
    else if 8 < rows <= 16 then 2
    else if 16 < rows <= 32 then 3
    else if 32 < rows <= 64 then 4
    else if 64 < rows <= 128 then 5
    else if 128 < rows <= 256 then 6
    else if 256 < rows <= 512 then 7
    else if 512 < rows <= 1024 then 8
    else if 1024 < rows then 9
    else -1
  }

  /** `find_quick_class`, with sizes in rows. */
  function QuickClass(rows: nat): int {
    if rows == 4 then 0
    else if rows == 6 then 1
    else if rows == 8 then 2
    else if rows == 10 then 3
    else if rows == 12 then 4
    else if rows == 14 then 5
    else if rows == 16 then 6
    else if rows == 18 then 7
    else if rows == 20 then 8
    else if rows == 22 then 9
    else -1
  }

  /** The blocks, the contents of the ten free lists and ten quick lists (as `sf_block` addresses),
      and the free blocks that are on no list at the moment. */
  datatype Shape = Shape(blk: Blocks, free: seq<seq<int>>, quick: seq<seq<int>>, loose: set<int>)

  /** The header of `b` records its size, state and prev-alloc bit; the footer of a free block repeats it. */
  ghost predicate Tagged(mem: Memory, blk: Blocks, b: int)
    requires b in blk
  {
    && 1 <= b && blk[b].rows >= MIN_ROWS && Next(blk, b) - 2 < |mem|
    && mem[b - 1] == Header(blk[b])
    && (blk[b].state.Free? ==> mem[Next(blk, b) - 2] == Header(blk[b]))
  }

  ghost predicate Tags(mem: Memory, blk: Blocks) {
    forall b {:trigger Tagged(mem, blk, b)} | b in blk :: Tagged(mem, blk, b)
  }

  ghost predicate NoDup(L: seq<int>) {
    forall i, j :: 0 <= i < j < |L| ==> L[i] != L[j]
  }

  /** A free block that is on a free list, or a block on a quick list. */
  ghost predicate Listed(s: Shape, b: int) {
    b in s.blk && ((s.blk[b].state.Free? && b !in s.loose) || s.blk[b].state.Quick?)
  }

  ghost predicate FreeEntry(s: Shape, i: int, j: int)
    requires 0 <= i < |s.free| && 0 <= j < |s.free[i]|
  {
    var b := s.free[i][j] + 2;
    b in s.blk && s.blk[b].state.Free? && b !in s.loose && MainClass(s.blk[b].rows) == i
  }

  ghost predicate QuickEntry(s: Shape, i: int, j: int)
    requires 0 <= i < |s.quick| && 0 <= j < |s.quick[i]|
  {
    var b := s.quick[i][j] + 2;
    b in s.blk && s.blk[b].state.Quick? && QuickClass(s.blk[b].rows) == i
  }

  ghost predicate OnItsList(s: Shape, b: int)
    requires |s.free| == LISTS && |s.quick| == LISTS && Listed(s, b)
  {
    if s.blk[b].state.Free?
    then var i := MainClass(s.blk[b].rows); 0 <= i < LISTS && b - 2 in s.free[i]
    else var i := QuickClass(s.blk[b].rows); 0 <= i < LISTS && b - 2 in s.quick[i]
  }

  ghost predicate WellSized(s: Shape, i: int)
    requires 0 <= i < LISTS == |s.free| == |s.quick|
  {
    NoDup(s.free[i]) && NoDup(s.quick[i]) && |s.quick[i]| <= QUICK_MAX
  }

  /** The lists index the heap: a block is listed exactly when it is on the list of its size class. */
  ghost predicate Indexed(s: Shape) {
    && |s.free| == LISTS && |s.quick| == LISTS
    && (forall i {:trigger WellSized(s, i)} | 0 <= i < LISTS :: WellSized(s, i))
    && (forall i, j {:trigger FreeEntry(s, i, j)} | 0 <= i < LISTS && 0 <= j < |s.free[i]| :: FreeEntry(s, i, j))
    && (forall i, j {:trigger QuickEntry(s, i, j)} | 0 <= i < LISTS && 0 <= j < |s.quick[i]| :: QuickEntry(s, i, j))
    && (forall b {:trigger OnItsList(s, b)} | Listed(s, b) :: OnItsList(s, b))
  }

  /** Block `L[j]` of a quick list points at the next one. */
  ghost predicate Chained(mem: Memory, L: seq<int>, j: int)
    requires 0 <= j < |L|
  {
    Fits(mem, L[j]) && mem[L[j] + 2] == (if j + 1 < |L| then L[j + 1] else NULL)
  }

  ghost predicate Chain(mem: Memory, L: seq<int>) {
    forall j {:trigger Chained(mem, L, j)} | 0 <= j < |L| :: Chained(mem, L, j)
  }

  ghost predicate LinkedLists(mem: Memory, free: seq<seq<int>>, quick: seq<seq<int>>)
    requires |free| == LISTS && |quick| == LISTS
  {
    && (forall i {:trigger Ring(mem, Head(i), free[i])} | 0 <= i < LISTS :: Ring(mem, Head(i), free[i]))
    && (forall i {:trigger Chain(mem, quick[i])} | 0 <= i < LISTS :: Chain(mem, quick[i]))
  }

  ghost predicate Core(mem: Memory, end: int, s: Shape) {
    && START < end <= |mem|
    && Layout(s.blk, end)
    && Tags(mem, s.blk)
    && Indexed(s)
    && LinkedLists(mem, s.free, s.quick)
    && (forall b {:trigger b in s.loose} | b in s.loose :: b in s.blk && s.blk[b].state.Free?)
  }

  // ----- frames -----

  /** No row of block `d` changes. */
  ghost predicate KeptBlock(mem: Memory, mem': Memory, blk: Blocks, d: int)
    requires d in blk
  {
    |mem'| == |mem| && forall r | d - 1 <= r < Next(blk, d) - 1 && 0 <= r < |mem| :: mem'[r] == mem[r]
  }

  /** The link rows of the block with payload row `d` do not change. */
  ghost predicate KeptLinks(mem: Memory, mem': Memory, d: int) {
    SameLinks(mem, mem', d - 2)
  }

  ghost predicate KeptHeads(mem: Memory, mem': Memory) {
    |mem'| == |mem| && forall r | 0 <= r < START && r < |mem| :: mem'[r] == mem[r]
  }

  lemma TagKept(mem: Memory, mem': Memory, blk: Blocks, blk': Blocks, d: int)
    requires d in blk && d in blk' && blk'[d] == blk[d] && Tagged(mem, blk, d) && KeptBlock(mem, mem', blk, d)
    ensures Tagged(mem', blk', d)
  {
  }

  lemma RowsApart(blk: Blocks, end: int, d: int, t: int)
    requires Tiled(blk, end) && d in blk && t in blk && d != t
    ensures Next(blk, d) <= t || Next(blk, t) <= d
  {
    assert Apart(blk, d, t) && Apart(blk, t, d);
  }

  /** A block is listed in `s'` exactly as it was in `s`. */
  ghost predicate SameListed(s: Shape, s': Shape, d: int) {
    && (Listed(s, d) <==> Listed(s', d))
    && (Listed(s, d) ==> s'.blk[d].state == s.blk[d].state && s'.blk[d].rows == s.blk[d].rows)
  }

  lemma IndexFrame(s: Shape, s': Shape)
    requires Indexed(s) && s'.free == s.free && s'.quick == s.quick
    requires forall d {:trigger SameListed(s, s', d)} :: SameListed(s, s', d)
    ensures Indexed(s')
  {
    forall i {:trigger WellSized(s', i)} | 0 <= i < LISTS ensures WellSized(s', i) {
      assert WellSized(s, i);
    }
    forall i, j {:trigger FreeEntry(s', i, j)} | 0 <= i < LISTS && 0 <= j < |s'.free[i]| ensures FreeEntry(s', i, j) {
      assert FreeEntry(s, i, j) && SameListed(s, s', s.free[i][j] + 2);
    }
    forall i, j {:trigger QuickEntry(s', i, j)} | 0 <= i < LISTS && 0 <= j < |s'.quick[i]|
      ensures QuickEntry(s', i, j)
    {
      assert QuickEntry(s, i, j) && SameListed(s, s', s.quick[i][j] + 2);
    }
    forall b {:trigger OnItsList(s', b)} | Listed(s', b) ensures OnItsList(s', b) {
      assert SameListed(s, s', b) && OnItsList(s, b);
    }
  }

  lemma LinksFrame(mem: Memory, mem': Memory, s: Shape)
    requires Indexed(s) && LinkedLists(mem, s.free, s.quick) && KeptHeads(mem, mem')
    requires forall d {:trigger KeptLinks(mem, mem', d)} | Listed(s, d) :: KeptLinks(mem, mem', d)
    ensures LinkedLists(mem', s.free, s.quick)
  {
    forall i {:trigger Ring(mem', Head(i), s.free[i])} | 0 <= i < LISTS ensures Ring(mem', Head(i), s.free[i]) {
      assert Ring(mem, Head(i), s.free[i]);
      forall j {:trigger Node(Head(i), s.free[i], j)} | 0 <= j <= |s.free[i]|
        ensures SameLinks(mem, mem', Node(Head(i), s.free[i], j))
      {
        if j > 0 {
          assert FreeEntry(s, i, j - 1);
          assert KeptLinks(mem, mem', s.free[i][j - 1] + 2);
        }
      }
      RingFrame(mem, mem', Head(i), s.free[i]);
    }
    forall i {:trigger Chain(mem', s.quick[i])} | 0 <= i < LISTS ensures Chain(mem', s.quick[i]) {
      assert Chain(mem, s.quick[i]);
      forall j {:trigger Chained(mem', s.quick[i], j)} | 0 <= j < |s.quick[i]| ensures Chained(mem', s.quick[i], j) {
        assert Chained(mem, s.quick[i], j) && QuickEntry(s, i, j);
        assert KeptLinks(mem, mem', s.quick[i][j] + 2);
      }
    }
  }

  /** The invariant after a step that relinks no list. */
  lemma CoreFrame(mem: Memory, mem': Memory, end: int, end': int, s: Shape, s': Shape)
    requires Core(mem, end, s) && s'.free == s.free && s'.quick == s.quick
    requires START < end' <= |mem'| && Layout(s'.blk, end') && Tags(mem', s'.blk)
    requires forall d {:trigger SameListed(s, s', d)} :: SameListed(s, s', d)
    requires KeptHeads(mem, mem')
    requires forall d {:trigger KeptLinks(mem, mem', d)} | Listed(s, d) :: KeptLinks(mem, mem', d)
    requires forall b {:trigger b in s'.loose} | b in s'.loose :: b in s'.blk && s'.blk[b].state.Free?
    ensures Core(mem', end', s')
  {
    IndexFrame(s, s');
    LinksFrame(mem, mem', s);
  }
}
