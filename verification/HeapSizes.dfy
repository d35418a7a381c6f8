/** The sizes, classes and tag words of the heap in bytes and bits, as hw3/include/sfmm.h lays them down. */
module HeapSizes {
  import opened HeapGeometry
  import opened LinkRings
  import opened HeapInvariant
  import opened HeapLists
  import opened HeapMoves

  /** Blocks of at least 32 bytes, pages of 4096, ten lists of either kind, five blocks on a quick list. */
  lemma ConstantsInBytes()
    ensures 8 * MIN_ROWS == 32 && 8 * PAGE == 4096 && LISTS == 10 && QUICK_MAX == 5 && 8 * (FIRST - START) == 16
  {
  }

  /** The largest block of a class below the last, in bytes: 32, 64 and so on to 8192. */
  function Ceiling(i: nat): nat {
    if i == 0 then 32 else if i == 1 then 64 else if i == 2 then 128 else if i == 3 then 256
    else if i == 4 then 512 else if i == 5 then 1024 else if i == 6 then 2048 else if i == 7 then 4096 else 8192
  }

  /** Class 0 holds blocks of 32 bytes, class `i` those above the ceiling before it up to its own, class 9 the rest. */
  lemma MainClassInBytes(rows: nat, i: nat)
    requires rows >= 4 && i < 10
    ensures MainClass(rows) == i
       <==> (i == 0 && 8 * rows == 32) || (1 <= i <= 8 && Ceiling(i - 1) < 8 * rows <= Ceiling(i))
            || (i == 9 && 8 * rows > 8192)
  {
  }

  /** Quick list `i` holds blocks of 32 + 16 i bytes, up to 176; larger ones have none. */
  lemma QuickClassInBytes(rows: nat, i: nat)
    requires i < 10
    ensures QuickClass(rows) == i <==> 8 * rows == 32 + 16 * i
    ensures QuickClass(rows) == -1 <==> forall j | 0 <= j < 10 :: 8 * rows != 32 + 16 * j
  {
    if forall j | 0 <= j < 10 :: 8 * rows != 32 + 16 * j {
      assert 8 * rows != 32 + 16 * 0 && 8 * rows != 32 + 16 * 1 && 8 * rows != 32 + 16 * 2;
      assert 8 * rows != 32 + 16 * 3 && 8 * rows != 32 + 16 * 4 && 8 * rows != 32 + 16 * 5;
      assert 8 * rows != 32 + 16 * 6 && 8 * rows != 32 + 16 * 7 && 8 * rows != 32 + 16 * 8;
      assert 8 * rows != 32 + 16 * 9;
    }
  }

  /** The block that ends where `b` starts, if `b` is not the first, is not free. */
  ghost predicate AfterAllocated(blk: Blocks, b: int) {
    b == FIRST || exists p :: p in blk && Next(blk, p) == b && !blk[p].state.Free?
  }

  /** A header is the size in bytes, plus 4 in a block that is not free, plus 2 behind one that is not free. */
  lemma HeaderWord(mem: Memory, end: int, s: Shape, b: int)
    requires Core(mem, end, s) && b in s.blk
    ensures 0 <= b - 1 < |mem|
    ensures mem[b - 1] == 8 * s.blk[b].rows + (if s.blk[b].state.Free? then 0 else 4)
                          + (if AfterAllocated(s.blk, b) then 2 else 0)
    ensures s.blk[b].state.Free? ==> 0 <= b + s.blk[b].rows - 2 < |mem| && mem[b + s.blk[b].rows - 2] == mem[b - 1]
  {
    assert Tagged(mem, s.blk, b) && InHeap(s.blk, end, b);
    if b == FIRST {
      FirstIsMarked(s.blk, end);
    } else {
      var p := Predecessor(s.blk, end, b);
      assert PrvRight(s.blk, p);
      if q :| q in s.blk && Next(s.blk, q) == b && !s.blk[q].state.Free? {
        NextInjective(s.blk, end, p, q);
      }
    }
  }

  lemma FirstIsMarked(blk: Blocks, end: int)
    requires Layout(blk, end) && FIRST in blk
    ensures blk[FIRST].prv
  {
  }

  /** The block a freed one became part of is the first of the list for its size. */
  lemma LastFreedIsFirst(t: Shape, t': Shape, bp: int)
    requires Freed(t, t', bp)
    ensures exists r :: r in t'.blk && t'.blk[r].state.Free? && r <= bp && 0 <= MainClass(t'.blk[r].rows) < |t'.free|
              && t'.free[MainClass(t'.blk[r].rows)] != [] && t'.free[MainClass(t'.blk[r].rows)][0] == r - 2
  {
    var r :| FreedInto(t, t', bp, r);
    assert r <= bp;
  }
}
