/** The allocator of hw3/src/sfmm.c over an array of 8-byte rows. */
module Allocator {
  import opened HeapGeometry
  import opened LinkRings
  import opened HeapInvariant
  import opened HeapSteps
  import opened TagSteps
  import opened HeapClients
  import opened HeapMoves
  import opened HeapLists
  import opened RequestSize

  datatype QuickList = QuickList(length: int, first: int)

  const ENOMEM := 12

  class Heap {
    const mem: array<int>                 // static list heads below START, heap rows from START on
    const quickLists: array<QuickList>    // sf_quick_lists
    const limit: int                      // sf_mem_grow never moves `end` beyond this row
    var end: int                          // sf_mem_end()
    var lastBp: int                       // last_bp
    var errno: int                        // sf_errno
    ghost var s: Shape

    /** An empty heap that may grow to `pages` pages. */
    constructor (pages: nat)
      requires pages >= 1
      ensures Valid() && end == START && limit == START + PAGE * pages && fresh(mem) && fresh(quickLists)
    {
      mem := new int[START + PAGE * pages];
      quickLists := new QuickList[LISTS](_ => QuickList(0, NULL));
      limit := START + PAGE * pages;
      end, lastBp, errno := START, NULL, 0;
      s := Shape(map[], [], [], {});
    }

    // ----- the macros -----

    predicate Row(r: int) { 0 <= r < mem.Length }

    method Put(r: int, v: int)
      requires Row(r)
      modifies mem
      ensures mem[..] == old(mem[..])[r := v]
    {
      mem[r] := v;
    }

    function Rows(bp: int): int
      requires Row(bp - 1)
      reads mem
    {
      RowsOf(mem[bp - 1])
    }

    function NextBlk(bp: int): int
      requires Row(bp - 1)
      reads mem
    {
      bp + RowsOf(mem[bp - 1])
    }

    function PrevBlk(bp: int): int
      requires Row(bp - 2)
      reads mem
    {
      bp - RowsOf(mem[bp - 2])
    }

    function Ftr(bp: int): int
      requires Row(bp - 1)
      reads mem
    {
      bp + RowsOf(mem[bp - 1]) - 2
    }

    ghost predicate Inv()
      reads this, mem
    {
      Core(mem[..], end, s)
    }

    /** Reading the tags of a block gives what the abstract block says. */
    lemma ReadTag(b: int)
      requires Inv() && b in s.blk
      ensures Row(b - 1) && Row(Next(s.blk, b) - 2) && NextBlk(b) == Next(s.blk, b)
      ensures AllocOf(mem[b - 1]) == !s.blk[b].state.Free? && PrvOf(mem[b - 1]) == s.blk[b].prv
      ensures s.blk[b].state.Free? ==> PrevBlk(Next(s.blk, b)) == b
    {
      assert Tagged(mem[..], s.blk, b);
      PackFields(s.blk[b].rows, !s.blk[b].state.Free?, s.blk[b].prv);
    }

    // ----- free lists -----

    method RemoveMainList(sp: int) returns (ghost i: int, ghost k: int)
      requires Inv() && Listed(s, sp + 2) && s.blk[sp + 2].state.Free?
      modifies mem, this`s
      ensures Inv()
      ensures 0 <= i < LISTS && 0 <= k < |old(s).free[i]| && old(s).free[i][k] == sp
      ensures s == UnlinkShape(old(s), i, k) && s.free == ExceptAll(old(s).free, {sp})
      ensures SameClients(old(mem[..]), old(s.blk), mem[..], s.blk, 0)
    {
      assert OnItsList(s, sp + 2);
      i := MainClass(s.blk[sp + 2].rows);
      k :| 0 <= k < |s.free[i]| && s.free[i][k] == sp;
      ghost var m := mem[..];
      UnlinkStep(m, end, s, i, k);
      UnlinkClients(m, end, s, i, k);
      UnlinkExcept(s, i, k);
      RingOfEntry(m, end, s, i, k);
      var next, prev := mem[sp + 2], mem[sp + 3];
      Put(mem[sp + 3] + 2, mem[sp + 2]);
      Put(mem[sp + 2] + 3, mem[sp + 3]);
      assert mem[..] == Unlinked(m, sp);
      s := UnlinkShape(s, i, k);
    }

    /** `sp->prev_footer = GET(FTRP(PREV_BLKP(bp)))`: both sides are the same row. */
    method CopyPrevFooter(bp: int)
      requires Inv() && bp in s.blk
      modifies mem
      ensures mem[..] == old(mem[..])
    {
      ReadTag(bp);
      if !PrvOf(mem[bp - 1]) {
        assert PrevBits(s.blk);
        ghost var p := Predecessor(s.blk, end, bp);
        assert PrvRight(s.blk, p);
        ReadTag(p);
        Put(bp - 2, mem[Ftr(PrevBlk(bp))]);
      }
    }

    method AddMainList(bp: int)
      requires Inv() && bp in s.loose && bp in s.blk
      modifies mem, this`s
      ensures Inv()
      ensures 0 <= MainClass(old(s).blk[bp].rows) < LISTS && s == LinkShape(old(s), bp)
      ensures Fronted(old(s).free, s.free, old(s).blk[bp].rows, bp - 2)
      ensures SameClients(old(mem[..]), old(s.blk), mem[..], s.blk, 0)
    {
      var sp := bp - 2;
      ReadTag(bp);
      var index := MainClass(Rows(bp));
      CopyPrevFooter(bp);
      ghost var m := mem[..];
      LinkStep(m, end, s, bp);
      LinkClients(m, end, s, bp);
      var h := Head(index);
      Put(sp + 2, mem[h + 2]);
      Put(h + 2, sp);
      Put(sp + 3, h);
      Put(mem[sp + 2] + 3, sp);
      LinkFronted(s, bp);
      s := LinkShape(s, bp);
    }

    // ----- coalescing -----

    /** "Check whether created block is last block". */
    method NoteLast(bp: int)
      requires Inv() && bp in s.blk
      modifies this`lastBp
      ensures lastBp == if Next(s.blk, bp) == end then bp else old(lastBp)
    {
      ReadTag(bp);
      if Rows(bp) + bp == end {
        lastBp := bp;
      }
    }

    /** Case 2 of `coalesce`: only the next block is free. */
    method MergeNext(bp: int)
      requires Inv() && s.loose == {bp} && bp in s.blk && Coalesced(s.blk, {bp}) && s.blk[bp].prv
      requires Next(s.blk, bp) in s.blk && s.blk[Next(s.blk, bp)].state.Free?
      modifies mem, this`s, this`lastBp
      ensures Inv() && s.loose == {bp} && Coalesced(s.blk, {bp}) && Isolated(s.blk, bp)
      ensures s.blk == Absorb(old(s).blk, bp, Next(old(s).blk, bp)) && s.quick == old(s).quick
      ensures s.free == ExceptAll(old(s).free, {Next(old(s).blk, bp) - 2})
      ensures lastBp == if Next(s.blk, bp) == end then bp else old(lastBp)
      ensures SameClients(old(mem[..]), old(s).blk, mem[..], s.blk, 0)
    {
      ghost var n := Next(s.blk, bp);
      ghost var before := s;
      NextIsListed(end, s, bp);
      ReadTag(bp);
      var sp := NextBlk(bp) - 2;
      ghost var i, k := RemoveMainList(sp);
      ghost var m, t := mem[..], s;
      BothLoose(end, before, t, bp, n);
      ReadTag(bp);
      ReadTag(n);
      var size := Rows(bp) + Rows(NextBlk(bp));
      Put(bp - 1, Pack(size, false, true));
      Put(Ftr(bp), Pack(size, false, true));
      ghost var m' := mem[..];
      FuseStep(m, m', end, t, bp, n);
      FusedIsolated(t.blk, end, bp, n);
      assert MergeShape(t, bp, n).loose == {bp};
      SameClientsTrans(old(mem[..]), t.blk, m, t.blk, m', MergeShape(t, bp, n).blk, 0);
      s := MergeShape(t, bp, n);
      assert mem[..] == m';
      NoteLast(bp);
    }

    /** Case 3 of `coalesce`: only the previous block is free. */
    method MergePrev(bp: int) returns (r: int)
      requires Inv() && s.loose == {bp} && bp in s.blk && Coalesced(s.blk, {bp}) && !s.blk[bp].prv
      requires Next(s.blk, bp) in s.blk ==> !s.blk[Next(s.blk, bp)].state.Free?
      modifies mem, this`s, this`lastBp
      ensures Inv() && s.loose == {r} && Coalesced(s.blk, {r}) && Isolated(s.blk, r)
      ensures r in old(s).blk && Next(old(s).blk, r) == bp && s.blk == Absorb(old(s).blk, r, bp)
      ensures s.quick == old(s).quick && s.free == ExceptAll(old(s).free, {r - 2}) && r != bp
      ensures lastBp == if Next(s.blk, r) == end then r else old(lastBp)
      ensures SameClients(old(mem[..]), old(s).blk, mem[..], s.blk, 0)
    {
      hide LinkedLists, Indexed, SameClients;
      ghost var p := PrevIsListed(end, s, bp);
      assert InHeap(s.blk, end, p) && InHeap(s.blk, end, bp);
      ghost var before := s;
      ReadTag(bp);
      ReadTag(p);
      var sp := PrevBlk(bp) - 2;
      ghost var i, k := RemoveMainList(sp);
      ghost var m, t := mem[..], s;
      BothLoose(end, before, t, bp, p);
      ReadTag(bp);
      ReadTag(p);
      var prevAlloc := PrvOf(mem[PrevBlk(bp) - 1]);
      var size := Rows(bp) + Rows(PrevBlk(bp));
      Put(Ftr(bp), Pack(size, false, prevAlloc));
      Put(PrevBlk(bp) - 1, Pack(size, false, prevAlloc));
      r := PrevBlk(bp);
      assert r == p;
      ghost var m' := mem[..];
      FuseStep(m, m', end, t, p, bp);
      FusedIsolated(t.blk, end, p, bp);
      assert MergeShape(t, p, bp).loose == {p};
      SameClientsTrans(old(mem[..]), t.blk, m, t.blk, m', MergeShape(t, p, bp).blk, 0);
      s := MergeShape(t, p, bp);
      assert mem[..] == m';
      NoteLast(r);
      assert Isolated(s.blk, r);
    }

    /** Case 4 of `coalesce`: the previous and the next block are free. */
    method MergeBoth(bp: int) returns (r: int)
      requires Inv() && s.loose == {bp} && bp in s.blk && Coalesced(s.blk, {bp}) && !s.blk[bp].prv
      requires Next(s.blk, bp) in s.blk && s.blk[Next(s.blk, bp)].state.Free?
      modifies mem, this`s, this`lastBp
      ensures Inv() && s.loose == {r} && Coalesced(s.blk, {r}) && Isolated(s.blk, r)
      ensures r in old(s).blk && Next(old(s).blk, r) == bp && r != bp && s.quick == old(s).quick
      ensures s.blk == Absorb(Absorb(old(s).blk, bp, Next(old(s).blk, bp)), r, bp)
      ensures s.free == ExceptAll(old(s).free, {Next(old(s).blk, bp) - 2} + {r - 2})
      ensures lastBp == if Next(s.blk, r) == end then r else old(lastBp)
      ensures SameClients(old(mem[..]), old(s).blk, mem[..], s.blk, 0)
    {
      ghost var p := PrevIsListed(end, s, bp);
      ghost var n := Next(s.blk, bp);
      NextIsListed(end, s, bp);
      ghost var before, m0 := s, mem[..];
      ReadTag(bp);
      var sp := NextBlk(bp) - 2;
      ghost var i, k := RemoveMainList(sp);
      ghost var m1 := mem[..];
      ReadTag(bp);
      ReadTag(p);
      sp := PrevBlk(bp) - 2;
      i, k := RemoveMainList(sp);
      ExceptAllTwice(before.free, {n - 2}, {p - 2});
      ghost var m, t := mem[..], s;
      SameClientsTrans(m0, t.blk, m1, t.blk, m, t.blk, 0);
      ThreeLoose(end, before, t, p, bp, n);
      r := FuseBoth(bp, p, n);
      SameClientsTrans(m0, t.blk, m, t.blk, mem[..], s.blk, 0);
    }

    /** The second half of case 4: the sizes are added up and stored in the outer header and footer. */
    method FuseBoth(bp: int, ghost p: int, ghost n: int) returns (r: int)
      requires Inv() && s.loose == {p, bp, n} && p in s.blk && bp in s.blk && n in s.blk && Coalesced(s.blk, s.loose)
      requires Next(s.blk, p) == bp && Next(s.blk, bp) == n && p < bp
      requires s.blk[p].prv && (Next(s.blk, n) in s.blk ==> !s.blk[Next(s.blk, n)].state.Free?)
      modifies mem, this`s, this`lastBp
      ensures r == p && Inv() && s.loose == {r} && Coalesced(s.blk, {r}) && Isolated(s.blk, r)
      ensures s == MergeShape(MergeShape(old(s), bp, n), p, bp)
      ensures lastBp == if Next(s.blk, r) == end then r else old(lastBp)
      ensures SameClients(old(mem[..]), old(s).blk, mem[..], s.blk, 0)
    {
      hide Core, SameClients, Coalesced, Isolated;
      ghost var m, t := mem[..], s;
      BlockRows(m, end, s, p);
      BlockRows(m, end, s, bp);
      BlockRows(m, end, s, n);
      assert s.blk[p].state.Free? && s.blk[bp].state.Free? && s.blk[n].state.Free?;
      ReadTag(bp);
      ReadTag(p);
      ReadTag(n);
      var prevAlloc := PrvOf(mem[PrevBlk(bp) - 1]);
      var size := Rows(bp) + Rows(PrevBlk(bp)) + RowsOf(mem[Ftr(NextBlk(bp))]);
      Put(PrevBlk(bp) - 1, Pack(size, false, prevAlloc));
      Put(Ftr(NextBlk(bp)), Pack(size, false, prevAlloc));
      r := PrevBlk(bp);
      assert r == p;
      ghost var m' := mem[..];
      FuseThree(m, m', end, t, p, bp, n);
      s := MergeShape(MergeShape(t, bp, n), p, bp);
      assert mem[..] == m';
      NoteLast(r);
    }

    /** `coalesce`: the loose free block `bp` takes in its free neighbours. */
    method Coalesce(bp: int) returns (r: int)
      requires Inv() && s.loose == {bp} && bp in s.blk && Coalesced(s.blk, {bp})
      modifies mem, this`s, this`lastBp
      ensures Inv() && s.loose == {r} && Coalesced(s.blk, {r}) && Isolated(s.blk, r)
      ensures MergedFrom(old(s).blk, s.blk, bp, r) && s.quick == old(s).quick
      ensures s.free == ExceptAll(old(s).free, NextEntry(old(s).blk, bp) + (if r == bp then {} else {r - 2}))
      ensures lastBp == if s.blk != old(s).blk && Next(s.blk, r) == end then r else old(lastBp)
      ensures SameClients(old(mem[..]), old(s).blk, mem[..], s.blk, 0)
    {
      ReadTag(bp);
      var prevAlloc := PrvOf(mem[bp - 1]);
      var nextAlloc := true;
      NextExists(s.blk, end, bp);
      if NextBlk(bp) < end {
        ReadTag(Next(s.blk, bp));
        nextAlloc := AllocOf(mem[NextBlk(bp) - 1]);
      }
      ghost var gone := NextEntry(s.blk, bp);
      if prevAlloc && nextAlloc {
        r := bp;
        ExceptAllNone(s.free, {});
      } else if prevAlloc && !nextAlloc {
        MergeNext(bp);
        r := bp;
      } else if !prevAlloc && nextAlloc {
        r := MergePrev(bp);
      } else {
        r := MergeBoth(bp);
      }
      assert gone + {} == gone && {} + {r - 2} == {r - 2};
    }

    // ----- allocation -----

    /** Stores the prev-alloc bit of block `x`, the block after `bp`, if `x` is inside the heap. */
    method MarkPrevBit(x: int, alloc: bool, ghost bp: int)
      requires Tiled(s.blk, end) && bp in s.blk && x == Next(s.blk, bp)
      requires x in s.blk ==> Tagged(mem[..], s.blk, x)
      modifies mem
      ensures mem[..] == NextMarked(old(mem[..]), s.blk, bp, alloc)
    {
      NextExists(s.blk, end, bp);
      if x < end {
        ReadHeader(mem[..], s.blk, x);
        var size, own := Rows(x), AllocOf(mem[x - 1]);
        Put(x - 1, Pack(size, own, alloc));
        if !own {
          Put(x + size - 2, Pack(size, own, alloc));
        }
      }
    }

    /** `allocate` when the rest of the block would be a splinter: the client gets the whole block. */
    method TakeWhole(bp: int)
      requires Inv() && bp in s.blk && !Listed(s, bp) && Coalesced(s.blk, s.loose) && s.loose <= {bp}
      modifies mem, this`s, this`lastBp
      ensures Inv() && s == RestateShape(old(s), bp, Used) && s.loose == {} && Coalesced(s.blk, {})
      ensures lastBp == if Next(s.blk, bp) == end then bp else old(lastBp)
      ensures SameClients(old(mem[..]), old(s).blk, mem[..], s.blk, bp)
      ensures forall r | bp <= r < Next(s.blk, bp) - 1 :: Row(r) && mem[r] == old(mem[r])
    {
      hide LinkedLists, Indexed, Coalesced, SameClients;
      ghost var m, t := mem[..], s;
      ReadTag(bp);
      assert InHeap(s.blk, end, bp);
      var prevAlloc, ssize := PrvOf(mem[bp - 1]), Rows(bp);
      Put(bp - 1, Pack(ssize, true, prevAlloc));
      ghost var m1 := mem[..];
      RestateMove(m, m1, end, s, bp, Used);
      MarkPrevBit(bp + ssize, true, bp);
      ghost var m' := mem[..];
      TakenCoalesced(s.blk, end, bp, Used, s.loose);
      s := RestateShape(s, bp, Used);
      assert mem[..] == m';
      NoteLast(bp);
    }

    /** `allocate` when the rest is large enough to become a block of its own. */
    method TakePart(bp: int, size: int)
      requires Inv() && bp in s.blk && !Listed(s, bp) && Coalesced(s.blk, s.loose) && s.loose <= {bp}
      requires size % 2 == 0 && MIN_ROWS <= size <= s.blk[bp].rows - MIN_ROWS
      modifies mem, this`s, this`lastBp
      ensures Inv() && s.loose == {} && Coalesced(s.blk, {}) && s.quick == old(s).quick
      ensures IsUsed(s.blk, bp) && s.blk[bp].rows == size
      ensures RestListed(old(s).blk, old(s).free, s.free, bp, size)
      ensures EndsHeap(old(s).blk, end, old(lastBp)) ==> EndsHeap(s.blk, end, lastBp)
      ensures SameClients(old(mem[..]), old(s).blk, mem[..], s.blk, bp)
      ensures forall r | bp <= r < bp + size - 1 :: Row(r) && mem[r] == old(mem[r])
    {
      hide LinkedLists, Indexed, Tags, PrevBits, Aligned, Fronted, SameClients;
      ghost var m0, t := mem[..], s;
      var bp1 := SplitOff(bp, size);
      ghost var m1, t1 := mem[..], s;
      var r := Coalesce(bp1);
      ghost var m2, t2 := mem[..], s;
      IsolatedCoalesced(s.blk, end, r);
      CarvedRest(t.blk, end, bp, size, s.blk, r);
      assert NextEntry(t.blk, bp) + {} == NextEntry(t.blk, bp);
      AddMainList(r);
      NoteLast(r);
      SameClientsThen(m0, t.blk, m1, t1.blk, m2, t2.blk, bp, end, end);
      SameClientsThen(m0, t.blk, m2, t2.blk, mem[..], s.blk, bp, end, end);
      assert SameClient(m1, t1.blk, m2, t2.blk, bp);
      if EndsHeap(t.blk, end, old(lastBp)) {
        LastAfterCarve(t.blk, s.blk, end, bp, size, r, old(lastBp), lastBp);
      }
    }

    method WriteSplitTags(bp: int, size: int, ssize: int, prevAlloc: bool) returns (bp1: int)
      requires 0 <= bp - 1 && MIN_ROWS <= size <= ssize - MIN_ROWS && bp + ssize - 2 < mem.Length
      modifies mem
      ensures bp1 == bp + size && mem[..] == SplitTags(old(mem[..]), bp, size, ssize, prevAlloc)
    {
      Put(bp - 1, Pack(size, true, prevAlloc));
      PackFields(size, true, prevAlloc);
      bp1 := NextBlk(bp);
      Put(bp1 - 1, Pack(ssize - size, false, true));
      PackFields(ssize - size, false, true);
      Put(Ftr(bp1), Pack(ssize - size, false, true));
    }

    method SplitOff(bp: int, size: int) returns (bp1: int)
      requires Inv() && bp in s.blk && !Listed(s, bp) && Coalesced(s.blk, s.loose) && s.loose <= {bp}
      requires size % 2 == 0 && MIN_ROWS <= size <= s.blk[bp].rows - MIN_ROWS
      modifies mem, this`s
      ensures bp1 == bp + size && Inv() && s.loose == {bp1} && Coalesced(s.blk, {bp1})
      ensures s == CarveShape(old(s), bp, size)
      ensures SameClients(old(mem[..]), old(s).blk, mem[..], s.blk, bp)
      ensures forall r | bp <= r < bp + size - 1 :: Row(r) && mem[r] == old(mem[r])
    {
      ghost var m, t := mem[..], s;
      ReadTag(bp);
      assert InHeap(s.blk, end, bp);
      var prevAlloc, ssize := PrvOf(mem[bp - 1]), Rows(bp);
      SplitTagsMatch(m, end, t, bp, size);
      bp1 := WriteSplitTags(bp, size, ssize, prevAlloc);
      ghost var m1 := mem[..];
      CarveMove(m, m1, end, t, bp, size);
      MarkPrevBit(bp1 + (ssize - size), false, bp);
      ghost var m' := mem[..];
      CarveCoalesced(t.blk, end, bp, size, t.loose);
      s := CarveShape(t, bp, size);
      assert mem[..] == m';
    }

    /** `allocate`: the unlisted block at `sp` is given to a client that needs `size` rows. */
    method Allocate(sp: int, size: int)
      requires Inv() && sp + 2 in s.blk && !Listed(s, sp + 2) && Coalesced(s.blk, s.loose) && s.loose <= {sp + 2}
      requires size % 2 == 0 && MIN_ROWS <= size <= s.blk[sp + 2].rows && EndsHeap(s.blk, end, lastBp)
      modifies mem, this`s, this`lastBp
      ensures Inv() && s.loose == {} && Coalesced(s.blk, {}) && EndsHeap(s.blk, end, lastBp) && s.quick == old(s).quick
      ensures IsUsed(s.blk, sp + 2)
      ensures s.blk[sp + 2].rows == GrantedRows(old(s).blk[sp + 2].rows, size)
      ensures RestListed(old(s).blk, old(s).free, s.free, sp + 2, size)
      ensures SameClients(old(mem[..]), old(s).blk, mem[..], s.blk, sp + 2)
      ensures forall r | sp + 2 <= r < sp + 2 + size - 1 :: Row(r) && mem[r] == old(mem[r])
    {
      var bp := sp + 2;
      ReadTag(bp);
      assert Even(s.blk, bp);
      var ssize := Rows(bp);
      if ssize - size < MIN_ROWS {
        TakeWhole(bp);
      } else {
        TakePart(bp, size);
      }
      CopyPrevFooter(bp);
    }

    // ----- searching -----

    /** `find_main_fit`: the first block of list `i` with at least `size` rows. */
    method FindMainFit(sp: int, size: int, ghost i: int) returns (fit: int)
      requires Inv() && 0 <= i < LISTS && sp == Head(i)
      ensures fit == NULL ==> forall j | 0 <= j < |s.free[i]| ::
                FreeEntry(s, i, j) && s.blk[s.free[i][j] + 2].rows < size
      ensures fit != NULL ==> exists k | 0 <= k < |s.free[i]| :: FirstFit(s, i, k, size) && s.free[i][k] == fit
    {
      ListStarts(mem[..], end, s, i);
      hide Core, Coalesced, SameClients;
      ghost var L := s.free[i];
      var current, head := mem[sp + 2], sp;
      ghost var k := 0;
      while current != head
        invariant 0 <= k <= |L| && current == Node(sp, L, k + 1)
        invariant forall j | 0 <= j < k :: FreeEntry(s, i, j) && s.blk[L[j] + 2].rows < size
        decreases |L| - k
      {
        ListGoesOn(mem[..], end, s, i, k);
        assert current == L[k] && FreeEntry(s, i, k);
        ReadTag(current + 2);
        var next := mem[current + 2];
        if Rows(current + 2) >= size {
          assert FirstFit(s, i, k, size);
          return current;
        }
        current := next;
        k := k + 1;
      }
      if k < |L| {
        ListGoesOn(mem[..], end, s, i, k);
      }
      return NULL;
    }

    /** `find_quick_fit`: the first block of quick list `i` with at least `size` rows. */
    method FindQuickFit(sp: int, size: int, ghost i: int) returns (fit: int)
      requires Inv() && 0 <= i < LISTS && sp == First(s.quick[i])
      ensures fit == NULL ==> forall j | 0 <= j < |s.quick[i]| ::
                QuickEntry(s, i, j) && s.blk[s.quick[i][j] + 2].rows < size
      ensures fit != NULL ==> exists k | 0 <= k < |s.quick[i]| ::
                QuickEntry(s, i, k) && s.quick[i][k] == fit && s.blk[fit + 2].rows >= size
                && forall j | 0 <= j < k :: QuickEntry(s, i, j) && s.blk[s.quick[i][j] + 2].rows < size
    {
      ghost var L := s.quick[i];
      assert Chain(mem[..], L);
      var current := sp;
      ghost var k := 0;
      while current != NULL
        invariant 0 <= k <= |L| && current == (if k < |L| then L[k] else NULL)
        invariant forall j | 0 <= j < k :: QuickEntry(s, i, j) && s.blk[L[j] + 2].rows < size
        decreases |L| - k
      {
        assert QuickEntry(s, i, k) && Chained(mem[..], L, k);
        ReadTag(current + 2);
        var next := mem[current + 2];
        if Rows(current + 2) >= size {
          return current;
        }
        current := next;
        k := k + 1;
      }
      if k < |L| {
        assert QuickEntry(s, i, k);
        HeadFar(end, s, L[k] + 2, i);
      }
      return NULL;
    }

    // ----- the heap between calls -----

    /** The quick list records agree with the chains. */
    ghost predicate QuickHeads()
      reads this, quickLists
      requires |s.quick| == LISTS
    {
      quickLists.Length == LISTS
      && forall i | 0 <= i < LISTS :: quickLists[i] == QuickList(|s.quick[i]|, First(s.quick[i]))
    }

    /** The heap invariant between calls; before the first request the heap is empty and nothing is set up. */
    ghost predicate Valid()
      reads this, mem, quickLists
    {
      && START + PAGE <= limit <= mem.Length && quickLists.Length == LISTS
      && end % 2 == 0
      && (if end == START then s.blk == map[] && forall i | 0 <= i < LISTS :: quickLists[i].first == NULL
          else START < end <= limit && Ready() && QuickHeads())
    }

    /** The part of the invariant that concerns memory and lists. */
    ghost predicate Ready()
      reads this, mem
    {
      Inv() && s.loose == {} && Coalesced(s.blk, {}) && EndsHeap(s.blk, end, lastBp)
    }

    // ----- growing -----

    /** `sf_mem_grow`: one more page, or NULL and ENOMEM at the limit. */
    method MemGrow() returns (bp: int)
      modifies this`end, this`errno
      ensures old(end) + PAGE <= limit ==> bp == old(end) && end == old(end) + PAGE && errno == old(errno)
      ensures old(end) + PAGE > limit ==> bp == NULL && end == old(end) && errno == ENOMEM
    {
      if end + PAGE <= limit {
        bp := end;
        end := end + PAGE;
      } else {
        bp := NULL;
        errno := ENOMEM;
      }
    }

    /** The grow branch of the search loop in `sf_malloc`. */
    method GrowAndList() returns (ok: bool)
      requires Ready() && START < end && limit <= mem.Length && end % 2 == 0
      modifies mem, this`s, this`lastBp, this`end, this`errno
      ensures Ready() && s.quick == old(s).quick
      ensures ok <==> old(end) + PAGE <= limit
      ensures end == if ok then old(end) + PAGE else old(end)
      ensures !ok ==> s == old(s) && lastBp == old(lastBp) && errno == ENOMEM
      ensures ok ==> errno == old(errno) && Tail(s.blk, lastBp) == Tail(old(s).blk, old(lastBp)) + PAGE
      ensures ok ==> lastBp == Grown(old(s).blk, old(lastBp), old(end)) && PageAdded(old(s), s, lastBp)
      ensures SameClients(old(mem[..]), old(s).blk, mem[..], s.blk, 0)
    {
      var bp := MemGrow();
      if bp == NULL {
        return false;
      }
      ok := true;
      assert mem[..] == old(mem[..]);
      bp := AddPage(bp);
      IsolatedCoalesced(s.blk, end, bp);
      ghost var m1, t1 := mem[..], s;
      AddMainList(bp);
      SameClientsTrans(old(mem[..]), old(s).blk, m1, t1.blk, mem[..], s.blk, 0);
      lastBp := bp;
    }

    /** The new page becomes a free block and joins a free block before it. */
    method AddPage(page: int) returns (bp: int)
      requires Core(mem[..], page, s) && s.loose == {} && Coalesced(s.blk, {}) && EndsHeap(s.blk, page, lastBp)
      requires page % 2 == 0 && end == page + PAGE <= mem.Length
      modifies mem, this`s, this`lastBp
      ensures Inv() && s.loose == {bp} && Coalesced(s.blk, {bp}) && Isolated(s.blk, bp) && s.quick == old(s).quick
      ensures EndsHeap(s.blk, end, bp) && Tail(s.blk, bp) == Tail(old(s).blk, old(lastBp)) + PAGE
      ensures bp == Grown(old(s).blk, old(lastBp), page) && s.free == ExceptAll(old(s).free, {bp - 2})
      ensures forall d {:trigger s.blk[d]} | d in s.blk && d != bp :: d in old(s).blk && s.blk[d] == old(s).blk[d]
      ensures SameClients(old(mem[..]), old(s).blk, mem[..], s.blk, 0)
    {
      ghost var m, t, last := mem[..], s, lastBp;
      assert Tagged(m, s.blk, lastBp);
      ReadHeader(m, s.blk, lastBp);
      var space, prv := PAGE, AllocOf(mem[lastBp - 1]);
      Put(page - 1, Pack(space, false, prv));
      PackFields(space, false, prv);
      Put(Ftr(page), Pack(space, false, prv));
      ghost var m1 := mem[..];
      GrowStep(m, m1, page, t, lastBp);
      GrowClients(m, m1, page, t.blk, prv);
      GrowCoalesced(t.blk, page, Block(PAGE, Free, prv));
      s := GrowShape(t, page, prv);
      assert mem[..] == m1 && s.loose == {page};
      ghost var t1 := s;
      bp := Coalesce(page);
      SameClientsTrans(m, t.blk, m1, t1.blk, mem[..], s.blk, 0);
      LastAfterGrow(t1.blk, s.blk, page, end, bp, last);
      JoinedLists(t, t1.blk, page, bp, s.free);
    }

    // ----- sf_malloc -----

    /** Every list head points both ways to itself, and every quick list is empty. */
    method ClearLists()
      requires START + PAGE <= mem.Length && quickLists.Length == LISTS
      requires forall i | 0 <= i < LISTS :: quickLists[i].first == NULL
      modifies mem, quickLists
      ensures forall j | 0 <= j < LISTS :: mem[Head(j) + 2] == Head(j) && mem[Head(j) + 3] == Head(j)
      ensures forall j | 0 <= j < LISTS :: quickLists[j] == QuickList(0, NULL)
    {
      for i := 0 to LISTS
        invariant forall j | 0 <= j < i :: mem[Head(j) + 2] == Head(j) && mem[Head(j) + 3] == Head(j)
        invariant forall j | 0 <= j < i :: quickLists[j] == QuickList(0, NULL)
        invariant forall j | i <= j < LISTS :: quickLists[j].first == NULL
        modifies mem, quickLists
      {
        var sp := Head(i);
        mem[sp + 3] := sp;
        mem[sp + 2] := sp;
        quickLists[i] := QuickList(0, quickLists[i].first);
      }
    }

    /** The first call: empty lists, one page, one free block. */
    method InitHeap()
      requires Valid() && end == START
      modifies mem, quickLists, this`s, this`lastBp, this`end, this`errno
      ensures Valid() && end == START + PAGE && Ready() && QuickHeads()
      ensures s.blk == map[FIRST := Block(PAGE - 2, Free, true)] && s.quick == [[], [], [], [], [], [], [], [], [], []]
      ensures errno == old(errno) && lastBp == FIRST
    {
      hide Core, SameClients, Coalesced;
      ClearLists();
      var space := PAGE - 2;
      var bp := MemGrow();
      bp := bp + 2;
      ghost var m := mem[..];
      Put(bp - 1, Pack(space, false, true));
      PackFields(space, false, true);
      Put(Ftr(bp), Pack(space, false, true));
      assert mem[..] == m[FIRST - 1 := Pack(space, false, true)][START + PAGE - 2 := Pack(space, false, true)];
      FirstPage(m, mem[..]);
      s := FirstShape();
      ghost var m1 := mem[..];
      AddMainList(bp);
      lastBp := bp;
    }

    /** A block taken from the front of quick list `index`. */
    method TakeQuick(index: int, sp: int, size: int) returns (bp: int)
      requires Valid() && Ready() && QuickHeads() && START < end <= limit
      requires 0 <= index < LISTS && |s.quick[index]| > 0 && sp == s.quick[index][0]
      requires size >= 0 && index == QuickClass(size)
      modifies mem, quickLists, this`s, this`lastBp
      ensures bp == sp + 2 && Ready() && QuickHeads()
      ensures !IsUsed(old(s).blk, bp) && IsUsed(s.blk, bp) && s.blk[bp].rows == size
      ensures s.quick == old(s).quick[index := old(s).quick[index][1..]] && s.free == old(s).free
      ensures SameClients(old(mem[..]), old(s).blk, mem[..], s.blk, bp)
    {
      ghost var m, t := mem[..], s;
      assert Chain(m, s.quick[index]);
      assert QuickEntry(s, index, 0) && Chained(m, s.quick[index], 0);
      bp := sp + 2;
      QuickSizes(s.blk[bp].rows, size);
      PopStep(m, end, s, index);
      PopClients(m, end, s, index);
      quickLists[index] := QuickList(quickLists[index].length - 1, mem[sp + 2]);
      PoppedReady(t, end, index, lastBp);
      s := PopShape(t, index);
      assert mem[..] == m;
      ghost var t1 := s;
      Allocate(sp, size);
      SameClientsTrans(m, t.blk, m, t1.blk, mem[..], s.blk, bp);
    }

    /** The block found by the search leaves its list and goes to the client. */
    method TakeMain(sp: int, size: int, ghost index: int) returns (bp: int)
      requires Ready() && size >= MIN_ROWS && size % 2 == 0
      requires 0 <= index < LISTS && exists k | 0 <= k < |s.free[index]| ::
                FirstFit(s, index, k, size) && s.free[index][k] == sp
      modifies mem, this`s, this`lastBp
      ensures bp == sp + 2 && Ready() && s.quick == old(s).quick
      ensures !IsUsed(old(s).blk, bp) && IsUsed(s.blk, bp) && size <= s.blk[bp].rows < size + MIN_ROWS
      ensures bp in old(s).blk && s.blk[bp].rows == GrantedRows(old(s).blk[bp].rows, size)
      ensures Given(old(s).free, s.free, old(s).blk[bp].rows, size, bp)
      ensures SameClients(old(mem[..]), old(s).blk, mem[..], s.blk, bp)
    {
      ghost var m, t := mem[..], s;
      bp := sp + 2;
      ghost var i, k := RemoveMainList(sp);
      ghost var m1, t1 := mem[..], s;
      assert Coalesced(s.blk, s.loose) by { LooseCoalesced(s.blk, s.loose); }
      Allocate(sp, size);
      AllocatedIsGiven(t.blk, t.free, s.free, bp, size);
      NullIsNoBlock(t1.blk, end);
      SameClientsTwice(m, t.blk, m1, t1.blk, mem[..], s.blk, bp);
    }

    /** One free list is searched, the lower ones having been searched in vain. */
    method SearchClass(size: int, cls: int) returns (sp: int)
      requires Ready() && size >= 0 && 0 <= cls < LISTS && SearchedBelow(s, cls, size)
      ensures SearchState(s, cls, size, sp)
    {
      hide LinkedLists, Tags, Layout, Coalesced, EndsHeap;
      sp := FindMainFit(Head(cls), size, cls);
    }

    /** The search loop of `sf_malloc`: the free lists from the request's class upward, growing the heap when
        all of them fail. */
    method FindOrGrow(size: int) returns (sp: int, ghost index: int)
      requires Ready() && START < end <= limit <= mem.Length && end % 2 == 0 && size >= MIN_ROWS
      modifies mem, this`s, this`lastBp, this`end, this`errno
      ensures Ready() && old(end) <= end <= limit && end % 2 == 0 && s.quick == old(s).quick
      ensures sp == NULL ==> NoFit(s.blk, size) && end + PAGE > limit && errno == ENOMEM
      ensures sp != NULL ==> MainClass(size) <= index < LISTS && SearchState(s, index, size, sp)
      ensures if end == old(end) then s == old(s) else NoFit(old(s).blk, size)
      ensures end > old(end) ==> Tail(old(s).blk, old(lastBp)) + (end - old(end)) - PAGE < size
      ensures end > old(end) ==>
        GrownFrom(old(s), s, lastBp, size) && lastBp == Grown(old(s).blk, old(lastBp), old(end))
      ensures Tail(s.blk, lastBp) == Tail(old(s).blk, old(lastBp)) + (end - old(end))
      ensures sp != NULL ==> errno == old(errno)
      ensures SameClients(old(mem[..]), old(s).blk, mem[..], s.blk, 0)
    {
      hide Core, Coalesced, SameClients, SearchState, SearchedBelow, NoFit, Tail, GrownFrom, PageAdded;
      MainClassRange(size);
      ghost var m0, s0, tail := mem[..], s, Tail(s.blk, lastBp);
      SameClientsRefl(m0, s0.blk);
      var cls := MainClass(size);
      NothingBelow(s, size);
      sp := SearchClass(size, cls);
      while sp == NULL
        invariant Ready() && old(end) <= end <= limit && end % 2 == 0 && s.quick == s0.quick
        invariant MainClass(size) <= cls < LISTS
        invariant SearchState(s, cls, size, sp)
        invariant SameClients(m0, s0.blk, mem[..], s.blk, 0)
        invariant if end == old(end) then s == s0 else NoFit(s0.blk, size)
        invariant Tail(s.blk, lastBp) == tail + (end - old(end))
        invariant end > old(end) ==> tail + (end - old(end)) - PAGE < size
        invariant end == old(end) ==> lastBp == old(lastBp)
        invariant errno == old(errno)
        invariant end > old(end) ==> GrownFrom(s0, s, lastBp, size) && lastBp == Grown(s0.blk, old(lastBp), old(end))
        decreases limit - end, LISTS - cls
      {
        SearchedOn(s, cls, size);
        cls := cls + 1;
        if cls == LISTS {
          ListsIndexed(mem[..], end, s);
          SearchFailed(s, size);
          TailTooSmall(s.blk, lastBp, size);
          ghost var m, t, grew := mem[..], s, end > old(end);
          if grew {
            GrownStays(s0, t, lastBp, size, end);
          }
          var ok := GrowAndList();
          SameClientsTrans(m0, s0.blk, m, t.blk, mem[..], s.blk, 0);
          if !ok {
            return NULL, 0;
          }
          if grew {
            GrowsAgain(s0, t, s, lastBp, size);
          } else {
            GrowsFirst(s0, s, lastBp, size);
          }
          cls := MainClass(size);
          NothingBelow(s, size);
        }
        sp := SearchClass(size, cls);
      }
      index := cls;
    }

    /** `sf_malloc` past the quick lists. */
    method MallocMain(size: int) returns (bp: int)
      requires Ready() && START < end <= limit <= mem.Length && end % 2 == 0 && size >= MIN_ROWS && size % 2 == 0
      modifies mem, this`s, this`lastBp, this`end, this`errno
      ensures Ready() && old(end) <= end <= limit && end % 2 == 0 && s.quick == old(s).quick
      ensures bp != NULL ==> !IsUsed(old(s).blk, bp) && IsUsed(s.blk, bp) && size <= s.blk[bp].rows < size + MIN_ROWS
      ensures bp != NULL ==> SameClients(old(mem[..]), old(s).blk, mem[..], s.blk, bp)
      ensures bp == NULL ==> NoFit(s.blk, size) && end + PAGE > limit && errno == ENOMEM
      ensures bp == NULL ==> SameClients(old(mem[..]), old(s).blk, mem[..], s.blk, 0)
      ensures !NoFit(old(s).blk, size) ==> bp != NULL && end == old(end)
      ensures end > old(end) ==> Tail(old(s).blk, old(lastBp)) + (end - old(end)) - PAGE < size
      ensures bp != NULL ==>
        if end == old(end) then LowestFit(old(s), size, bp) else bp == Grown(old(s).blk, old(lastBp), old(end))
      ensures bp != NULL ==> Served(old(s), old(end), old(lastBp), size, bp, s, end)
      ensures bp != NULL ==> errno == old(errno)
    {
      hide NoFit, Tail, GrownFrom, LowestFit, Given, SearchedBelow, FirstFit, LinkedLists, Tags, PrevBits, Coalesced;
      ghost var m0, s0, last0 := mem[..], s, lastBp;
      NullIsNoBlock(s.blk, end);
      ghost var index;
      var sp;
      sp, index := FindOrGrow(size);
      if sp == NULL {
        return NULL;
      }
      ghost var m, t := mem[..], s;
      NullIsNoBlock(t.blk, end);
      FoundIsPlaced(s0, old(end), last0, t, end, lastBp, size, index, sp);
      bp := TakeMain(sp, size, index);
      GivenAlike(t.free, s0.free, s.free, t.blk[bp].rows, size, bp);
      NullIsNoBlock(s.blk, end);
      SameClientsTwice(m0, s0.blk, m, t.blk, mem[..], s.blk, bp);
    }

    /** The rows that the next page is joined with; of the first page of all two rows stay unused. */
    ghost function Reach(): int
      reads this
    {
      if end == START then -2 else Tail(s.blk, lastBp)
    }

    /** `sf_malloc`: the heap grows page by page, and stops as soon as the block at its end is large enough. */
    method SfMalloc(request: int) returns (bp: int)
      requires Valid() && 0 <= request < SIZE_T
      modifies this, mem, quickLists
      ensures Valid() && end >= old(end)
      ensures request == 0 ==> bp == NULL && end == old(end) && s == old(s) && mem[..] == old(mem[..])
      ensures bp != NULL ==> !IsUsed(old(s).blk, bp) && IsUsed(s.blk, bp)
      ensures bp != NULL ==> RowsFor(request) <= s.blk[bp].rows < RowsFor(request) + MIN_ROWS
      ensures SameClients(old(mem[..]), old(s).blk, mem[..], s.blk, bp)
      ensures request > 0 && bp == NULL ==> NoFit(s.blk, RowsFor(request)) && end + PAGE > limit && errno == ENOMEM
      ensures request > 0 && old(end) > START && !NoFit(old(s).blk, RowsFor(request)) ==> bp != NULL && end == old(end)
      ensures end > old(end) ==> old(Reach()) + (end - old(end)) - PAGE < RowsFor(request)
      ensures bp != NULL ==> Placed(old(s), old(end), old(lastBp), RowsFor(request), bp, end)
      ensures bp != NULL && old(end) == START ==> s.blk[bp].rows == GrantedRows(end - START - 2, RowsFor(request))
      ensures bp != NULL && old(end) > START && !QuickServes(old(s), RowsFor(request)) ==>
        s.quick == old(s).quick && Served(old(s), old(end), old(lastBp), RowsFor(request), bp, s, end)
      ensures bp == NULL && old(end) > START ==> s.quick == old(s).quick
      ensures old(end) > START && request > 0 && QuickServes(old(s), RowsFor(request)) ==> s.free == old(s).free
      ensures var i := QuickClass(RowsFor(request));
              request > 0 && old(end) > START && 0 <= i < |old(s).quick| && old(s).quick[i] != []
              ==> bp == old(s).quick[i][0] + 2 && s.quick == old(s).quick[i := old(s).quick[i][1..]] && end == old(end)
      ensures bp != NULL || request == 0 ==> errno == old(errno)
    {
      ghost var m0, s0 := mem[..], s;
      SameClientsRefl(m0, s0.blk);
      if request == 0 {
        return NULL;
      }
      var bytes := RoundRequest(request);
      BlockHoldsRequest(request);
      var size := bytes / 8;
      if end == START {
        InitHeap();
      }
      ghost var m, t := mem[..], s;
      bp := MallocReady(size);
      SameClientsTwice(m0, s0.blk, m, t.blk, mem[..], s.blk, bp);
    }

    /** `sf_malloc` on a heap that is set up: the quick list first, then the free lists. */
    method MallocReady(size: int) returns (bp: int)
      requires Valid() && end > START && size >= MIN_ROWS && size % 2 == 0
      modifies this, mem, quickLists
      ensures Valid() && end >= old(end)
      ensures bp != NULL ==> !IsUsed(old(s).blk, bp) && IsUsed(s.blk, bp) && size <= s.blk[bp].rows < size + MIN_ROWS
      ensures SameClients(old(mem[..]), old(s).blk, mem[..], s.blk, bp)
      ensures !IsUsed(old(s).blk, 0) && !IsUsed(s.blk, 0)
      ensures bp == NULL ==> NoFit(s.blk, size) && end + PAGE > limit && errno == ENOMEM
      ensures !NoFit(old(s).blk, size) ==> bp != NULL && end == old(end)
      ensures end > old(end) ==> Tail(old(s).blk, old(lastBp)) + (end - old(end)) - PAGE < size
      ensures bp != NULL ==> Placed(old(s), old(end), old(lastBp), size, bp, end)
      ensures bp != NULL && !QuickServes(old(s), size) ==>
        s.quick == old(s).quick && Served(old(s), old(end), old(lastBp), size, bp, s, end)
      ensures bp == NULL ==> s.quick == old(s).quick
      ensures QuickServes(old(s), size) ==> s.free == old(s).free
      ensures var i := QuickClass(size);
              0 <= i < |old(s).quick| && old(s).quick[i] != []
              ==> bp == old(s).quick[i][0] + 2 && s.quick == old(s).quick[i := old(s).quick[i][1..]] && end == old(end)
      ensures bp != NULL ==> errno == old(errno)
    {
      NullIsNoBlock(s.blk, end);
      ghost var t, last := s, lastBp;
      var index := QuickClass(size);
      if index != -1 {
        var sp := FindQuickFit(quickLists[index].first, size, index);
        if sp != NULL {
          QuickHeadFits(s, index, size);
          bp := TakeQuick(index, sp, size);
          NullIsNoBlock(s.blk, end);
          return;
        }
        QuickHeadFits(s, index, size);
      }
      bp := MallocMain(size);
      NullIsNoBlock(s.blk, end);
    }

    // ----- sf_free -----

    /** The block at `bp` is marked free in its own tags and in the next block's prev-alloc bit. */
    method Release(bp: int)
      requires Inv() && s.loose == {} && Coalesced(s.blk, {}) && IsUsed(s.blk, bp)
      modifies mem, this`s
      ensures Inv() && s == RestateShape(old(s), bp, Free) && s.loose == {bp} && Coalesced(s.blk, {bp})
      ensures SameClients(old(mem[..]), old(s).blk, mem[..], s.blk, bp)
    {
      ghost var m, t := mem[..], s;
      ReadTag(bp);
      assert InHeap(s.blk, end, bp);
      var prevAlloc, size := PrvOf(mem[bp - 1]), Rows(bp);
      Put(bp - 1, Pack(size, false, prevAlloc));
      PackFields(size, false, prevAlloc);
      Put(Ftr(bp), Pack(size, false, prevAlloc));
      ghost var m1 := mem[..];
      RestateMove(m, m1, end, t, bp, Free);
      MarkPrevBit(bp + size, false, bp);
      ghost var m' := mem[..];
      WithStateCoalesced(t.blk, end, bp, Free);
      s := RestateShape(t, bp, Free);
      assert mem[..] == m' && s.loose == {bp};
    }

    /** A used block is freed, coalesced with its free neighbours and put on the list of its new size. */
    method FreeToMain(bp: int)
      requires Ready() && IsUsed(s.blk, bp)
      modifies mem, this`s, this`lastBp
      ensures Ready() && s.quick == old(s).quick && !IsUsed(s.blk, bp)
      ensures Freed(old(s), s, bp)
      ensures SameClients(old(mem[..]), old(s).blk, mem[..], s.blk, bp)
    {
      hide Fronted, Freed, LinkedLists, Indexed, ExceptAll;
      ghost var m0, s0 := mem[..], s;
      Release(bp);
      ghost var m1, s1 := mem[..], s;
      LastAfterRestate(s0.blk, end, bp, Free, lastBp);
      ghost var last := lastBp;
      var r := Coalesce(bp);
      LastAfterMerge(s1.blk, s.blk, end, bp, r, last, lastBp);
      ghost var m2, s2 := mem[..], s;
      NextStaysMarked(r);
      IsolatedCoalesced(s.blk, end, r);
      AddMainList(r);
      assert InHeap(s0.blk, end, bp);
      FreesInto(s0, s2, s, bp, r);
      SameClientsThen(m0, s0.blk, m1, s1.blk, m2, s2.blk, bp, end, end);
      SameClientsThen(m0, s0.blk, m2, s2.blk, mem[..], s.blk, bp, end, end);
      assert SameClient(m1, s1.blk, m2, s2.blk, bp);
    }

    /** `sf_free` stores the prev-alloc bit of the next block once more after coalescing; it is already stored. */
    method NextStaysMarked(bp: int)
      requires Inv() && bp in s.blk && s.blk[bp].state.Free?
      requires Next(s.blk, bp) in s.blk ==> !s.blk[Next(s.blk, bp)].state.Free?
      modifies mem
      ensures mem[..] == old(mem[..])
    {
      ReadTag(bp);
      NextExists(s.blk, end, bp);
      if NextBlk(bp) < end {
        ghost var n := Next(s.blk, bp);
        ReadTag(n);
        assert PrvRight(s.blk, bp) && Tagged(mem[..], s.blk, n);
        Put(NextBlk(bp) - 1, Pack(Rows(NextBlk(bp)), AllocOf(mem[NextBlk(bp) - 1]), false));
      }
    }

    /** `flush_list`: every block of quick list `i` goes back to the free lists. */
    method FlushList(sp: int, ghost i: int)
      requires Ready() && 0 <= i < LISTS && sp == First(s.quick[i]) && sp != NULL
      modifies mem, this`s, this`lastBp
      ensures Ready() && s.quick == old(s).quick[i := []]
      ensures SameClients(old(mem[..]), old(s).blk, mem[..], s.blk, 0)
    {
      ghost var m0, s0 := mem[..], s;
      SameClientsRefl(m0, s0.blk);
      var current := sp;
      ChainHead(mem[..], end, s, i);
      while current != NULL
        invariant Ready() && current == First(s.quick[i]) && s.quick == s0.quick[i := s.quick[i]]
        invariant |s.quick[i]| > 0 <==> current != NULL
        invariant SameClients(m0, s0.blk, mem[..], s.blk, 0)
        decreases |s.quick[i]|
      {
        ghost var m, t := mem[..], s;
        current := FlushOne(current, i);
        SameClientsTrans(m0, s0.blk, m, t.blk, mem[..], s.blk, 0);
      }
    }

    /** One round of the flush loop. */
    method FlushOne(current: int, ghost i: int) returns (next: int)
      requires Ready() && 0 <= i < LISTS && |s.quick[i]| > 0 && current == s.quick[i][0]
      modifies mem, this`s, this`lastBp
      ensures Ready() && s.quick == old(s).quick[i := old(s).quick[i][1..]]
      ensures next == First(s.quick[i]) && (|s.quick[i]| > 0 <==> next != NULL)
      ensures SameClients(old(mem[..]), old(s).blk, mem[..], s.blk, 0)
    {
      ghost var m, t := mem[..], s;
      assert Chain(m, s.quick[i]);
      assert Chained(m, s.quick[i], 0) && QuickEntry(s, i, 0);
      next := mem[current + 2];
      PopStep(m, end, s, i);
      PopClients(m, end, s, i);
      PoppedReady(t, end, i, lastBp);
      s := PopShape(t, i);
      assert mem[..] == m;
      ghost var t1 := s;
      FreeToMain(current + 2);
      SameClientsTrans(m, t.blk, m, t1.blk, mem[..], s.blk, current + 2);
      assert SameClient(m, t.blk, mem[..], s.blk, current + 2);
      SameClientsWeaken(m, t.blk, mem[..], s.blk, current + 2, 0);
      ChainHead(mem[..], end, s, i);
    }

    /** A block bound for a quick list stays marked allocated; its header is cleared and stored again, and its
        last row gets a copy. */
    method Retag(bp: int)
      requires Ready() && IsUsed(s.blk, bp)
      modifies mem
      ensures Ready()
      ensures SameClients(old(mem[..]), s.blk, mem[..], s.blk, bp)
    {
      ghost var m := mem[..];
      ReadTag(bp);
      assert InHeap(s.blk, end, bp);
      var prevAlloc, size := PrvOf(mem[bp - 1]), Rows(bp);
      if !prevAlloc {
        assert PrevBits(s.blk);
        ghost var p := Predecessor(s.blk, end, bp);
        assert PrvRight(s.blk, p) && InHeap(s.blk, end, p);
        ReadTag(p);
        Put(bp - 1, 0);
        Put(bp - 2, mem[Ftr(PrevBlk(bp))]);
      } else {
        Put(bp - 1, 0);
      }
      assert mem[..] == m[bp - 1 := 0];
      Put(bp - 1, Pack(size, true, prevAlloc));
      PackFields(size, true, prevAlloc);
      Put(Ftr(bp), Pack(size, true, prevAlloc));
      ghost var m1 := mem[..];
      RestateMove(m, m1, end, s, bp, Used);
      RestateSame(s, end, bp);
      MarkPrevBit(NextBlk(bp), true, bp);
    }

    /** Rows of a used block's payload may change. */
    lemma PayloadChanged(m: Memory, bp: int)
      requires Core(m, end, s) && IsUsed(s.blk, bp) && OnlyWithin(m, mem[..], bp, Next(s.blk, bp) - 2)
      ensures Inv() && SameClients(m, s.blk, mem[..], s.blk, bp)
    {
      assert InHeap(s.blk, end, bp) && Tagged(m, s.blk, bp);
      RestateSame(s, end, bp);
      RestatePayload(m, mem[..], end, s, bp);
    }

    /** The case of a full quick list: it is flushed, and then holds the block alone. */
    method FlushFull(bp: int, index: int)
      requires Valid() && Ready() && QuickHeads() && START < end <= limit && IsUsed(s.blk, bp)
      requires index == QuickClass(s.blk[bp].rows) && 0 <= index < LISTS && |s.quick[index]| == QUICK_MAX
      modifies mem, quickLists, this`s, this`lastBp
      ensures Ready() && s.quick == old(s).quick[index := []]
      ensures IsUsed(s.blk, bp) && s.blk[bp].rows == old(s).blk[bp].rows && Row(bp) && mem[bp] == NULL
      ensures quickLists[..] == old(quickLists[..])[index := QuickList(1, bp - 2)]
      ensures SameClients(old(mem[..]), old(s).blk, mem[..], s.blk, bp)
    {
      hide LinkedLists, Indexed, Tags, PrevBits, Coalesced, EndsHeap;
      ghost var m0, s0 := mem[..], s;
      BlockRows(m0, end, s, bp);
      var sp := bp - 2;
      var first := quickLists[index].first;
      quickLists[index] := QuickList(1, first);
      Put(sp + 3, NULL);
      Put(sp + 2, NULL);
      ghost var m1 := mem[..];
      PayloadChanged(m0, bp);
      ChainHead(mem[..], end, s, index);
      FlushList(first, index);
      SameClientsThen(m0, s0.blk, m1, s0.blk, mem[..], s.blk, bp, end, end);
      KeptFirstRow(m1, s0.blk, mem[..], s.blk, end, bp);
      quickLists[index] := QuickList(quickLists[index].length, sp);
    }

    /** The three cases of pushing on quick list `index`. */
    method PushQuick(bp: int, index: int)
      requires Valid() && Ready() && QuickHeads() && START < end <= limit && IsUsed(s.blk, bp)
      requires index == QuickClass(s.blk[bp].rows) && 0 <= index < LISTS
      modifies mem, quickLists, this`s, this`lastBp
      ensures Ready() && QuickHeads()
      ensures s.quick == old(s).quick[index := [bp - 2] + (if |old(s).quick[index]| == QUICK_MAX then []
        else old(s).quick[index])]
      ensures !IsUsed(s.blk, bp) && (|old(s).quick[index]| < QUICK_MAX ==> s.free == old(s).free)
      ensures SameClients(old(mem[..]), old(s).blk, mem[..], s.blk, bp)
    {
      hide LinkedLists, Coalesced, PrevBits, Aligned;
      ghost var m0, s0 := mem[..], s;
      var sp := bp - 2;
      assert InHeap(s.blk, end, bp) && Tagged(m0, s.blk, bp) && WellSized(s, index);
      if quickLists[index].length == QUICK_MAX {
        FlushFull(bp, index);
      } else if quickLists[index].length == 0 {
        quickLists[index] := QuickList(1, quickLists[index].first);
        Put(sp + 3, NULL);
        Put(sp + 2, NULL);
        PayloadChanged(m0, bp);
        quickLists[index] := QuickList(quickLists[index].length, sp);
      } else {
        quickLists[index] := QuickList(quickLists[index].length + 1, quickLists[index].first);
        Put(sp + 3, NULL);
        Put(sp + 2, quickLists[index].first);
        PayloadChanged(m0, bp);
        quickLists[index] := QuickList(quickLists[index].length, sp);
      }
      ghost var m2, s2 := mem[..], s;
      PushStep(m2, m2, end, s2, bp);
      PushedReady(s2, end, bp, lastBp);
      PushClients(m2, end, s2, bp);
      s := PushShape(s2, bp);
      assert mem[..] == m2;
      SameClientsTrans(m0, s0.blk, m2, s2.blk, m2, s.blk, bp);
    }

    /** `sf_free` of a block a client owns. */
    method SfFree(bp: int)
      requires Valid() && IsUsed(s.blk, bp)
      modifies mem, quickLists, this`s, this`lastBp
      ensures Valid() && end > START && !IsUsed(s.blk, bp)
      ensures SameClients(old(mem[..]), old(s).blk, mem[..], s.blk, bp)
      ensures QuickClass(old(s).blk[bp].rows) == -1 ==> Freed(old(s), s, bp)
      ensures var i := QuickClass(old(s).blk[bp].rows);
              i != -1 && |old(s).quick[i]| < QUICK_MAX ==> s.free == old(s).free
      ensures var i := QuickClass(old(s).blk[bp].rows);
              s.quick == if i == -1 then old(s).quick
                         else old(s).quick[i := [bp - 2] + (if |old(s).quick[i]| == QUICK_MAX then []
                         else old(s).quick[i])]
    {
      ReadTag(bp);
      var index := QuickClass(Rows(bp));
      if index != -1 {
        ghost var m, t := mem[..], s;
        Retag(bp);
        ghost var m1 := mem[..];
        PushQuick(bp, index);
        SameClientsTrans(m, t.blk, m1, t.blk, mem[..], s.blk, bp);
      } else {
        FreeToMain(bp);
      }
    }

    // ----- sf_realloc -----

    /** `memcpy` of `bytes` bytes; the first `have` rows at `src` belong to the caller.  A partial last row and
        rows outside memory are not specified. */
    method MemCpy(dst: int, src: int, bytes: int, ghost have: int)
      requires 0 <= dst && dst + (bytes + 7) / 8 <= mem.Length && bytes >= 0
      requires 0 <= src && 0 <= have <= bytes / 8 && src + have <= mem.Length
      requires src + have <= dst || dst + (bytes + 7) / 8 <= src
      modifies mem
      ensures Copied(old(mem[..]), src, mem[..], dst, have)
      ensures OnlyWithin(old(mem[..]), mem[..], dst, dst + (bytes + 7) / 8 - 1)
    {
      ghost var m := mem[..];
      for k := 0 to bytes / 8
        invariant Copied(m, src, mem[..], dst, if k < have then k else have)
        invariant forall r | 0 <= r < mem.Length && !(dst <= r < dst + k) :: mem[r] == old(mem[r])
      {
        var v: int := *;
        ghost var before := mem[..];
        mem[dst + k] := if src + k < mem.Length then mem[src + k] else v;
        assert forall j {:trigger RowCopied(m, src, mem[..], dst, j)} | 0 <= j < k && j < have ::
            RowCopied(m, src, before, dst, j) ==> RowCopied(m, src, mem[..], dst, j);
        assert k < have ==> RowCopied(m, src, mem[..], dst, k);
      }
      ghost var before := mem[..];
      if bytes % 8 != 0 {
        var v: int := *;
        mem[dst + bytes / 8] := v;
        assert forall j {:trigger RowCopied(m, src, mem[..], dst, j)} | 0 <= j < have ::
            RowCopied(m, src, before, dst, j) ==> RowCopied(m, src, mem[..], dst, j);
      }
    }

    /** The shrinking case of `sf_realloc`. */
    method Shrink(pp: int, size: int)
      requires Valid() && IsUsed(s.blk, pp) && size % 2 == 0 && MIN_ROWS <= size <= s.blk[pp].rows
      modifies mem, this`s, this`lastBp
      ensures Valid() && IsUsed(s.blk, pp) && size <= s.blk[pp].rows < size + MIN_ROWS
      ensures s.blk[pp].rows == GrantedRows(old(s).blk[pp].rows, size) && s.quick == old(s).quick
      ensures RestListed(old(s).blk, old(s).free, s.free, pp, size)
      ensures Copied(old(mem[..]), pp, mem[..], pp, size - 1)
      ensures SameClients(old(mem[..]), old(s).blk, mem[..], s.blk, pp)
    {
      ghost var m := mem[..];
      Allocate(pp - 2, size);
      forall k {:trigger RowCopied(m, pp, mem[..], pp, k)} | 0 <= k < size - 1
        ensures RowCopied(m, pp, mem[..], pp, k)
      {
        assert Row(pp + k) && mem[pp + k] == old(mem[pp + k]);
      }
    }

    /** The growing case of `sf_realloc`: a new block, a copy, and the old block freed. */
    method Move(pp: int, rsize: int) returns (lp: int)
      requires Valid() && IsUsed(s.blk, pp) && 0 < rsize < SIZE_T && RowsFor(rsize) > s.blk[pp].rows
      modifies this, mem, quickLists
      ensures Valid() && end > START
      ensures lp == NULL ==> NoFit(s.blk, RowsFor(rsize)) && end + PAGE > limit && errno == ENOMEM
                             && SameClient(old(mem[..]), old(s).blk, mem[..], s.blk, pp)
      ensures lp != NULL ==> IsUsed(s.blk, lp) && RowsFor(rsize) <= s.blk[lp].rows < RowsFor(rsize) + MIN_ROWS
      ensures lp != NULL ==> lp != pp && Placed(old(s), old(end), old(lastBp), RowsFor(rsize), lp, end)
      ensures lp != NULL ==> !IsUsed(old(s).blk, lp) && !IsUsed(s.blk, pp)
      ensures lp != NULL ==> Copied(old(mem[..]), pp, mem[..], lp, old(s).blk[pp].rows - 1)
      ensures forall d {:trigger SameClient(old(mem[..]), old(s).blk, mem[..], s.blk, d)} | d != pp && d != lp ::
                SameClient(old(mem[..]), old(s).blk, mem[..], s.blk, d)
      ensures lp != NULL ==> errno == old(errno)
    {
      ghost var m0, s0 := mem[..], s;
      PayloadRows(m0, end, s0, pp);
      assert Tagged(m0, s0.blk, pp);
      lp := SfMalloc(rsize);
      ghost var m1, s1, end1 := mem[..], s, end;
      if lp == NULL {
        assert 0 in s0.blk ==> InHeap(s0.blk, old(end), 0);
        assert SameClient(m0, s0.blk, m1, s1.blk, pp);
        return;
      }
      assert SameClient(m0, s0.blk, m1, s1.blk, pp);
      CopyAndFree(lp, pp, rsize);
      MovedClients(m0, s0.blk, m1, s1.blk, mem[..], s.blk, pp, lp);
      KeptThenCopied(m0, m1, pp, mem[..], lp, s0.blk[pp].rows - 1, s0.blk);
    }

    method CopyAndFree(lp: int, pp: int, rsize: int)
      requires Valid() && IsUsed(s.blk, pp) && IsUsed(s.blk, lp) && lp != pp && 0 < rsize < SIZE_T
      requires s.blk[lp].rows >= RowsFor(rsize) > s.blk[pp].rows
      modifies mem, quickLists, this`s, this`lastBp
      ensures Valid() && end == old(end) && IsUsed(s.blk, lp) && s.blk[lp].rows == old(s).blk[lp].rows
        && !IsUsed(s.blk, pp)
      ensures Copied(old(mem[..]), pp, mem[..], lp, old(s).blk[pp].rows - 1)
      ensures forall d {:trigger SameClient(old(mem[..]), old(s).blk, mem[..], s.blk, d)} | d != pp && d != lp ::
                SameClient(old(mem[..]), old(s).blk, mem[..], s.blk, d)
    {
      ghost var m1, s1 := mem[..], s;
      PayloadRows(m1, end, s, pp);
      assert Even(s.blk, pp);
      LargerRequest(rsize, s.blk[pp].rows);
      PayloadRows(m1, end, s, lp);
      RowsApart(s.blk, end, pp, lp);
      MemCpy(lp, pp, rsize, s.blk[pp].rows - 1);
      ghost var m2 := mem[..];
      PayloadChanged(m1, lp);
      SfFree(pp);
      FreedClients(m1, s1.blk, m2, mem[..], s.blk, pp, lp);
      CopiedThenKept(m1, pp, m2, lp, s1.blk[pp].rows - 1, mem[..], end, s1.blk);
    }

    /** `sf_realloc` of a block a client owns. */
    method SfRealloc(pp: int, rsize: int) returns (r: int)
      requires Valid() && IsUsed(s.blk, pp) && 0 <= rsize < SIZE_T
      modifies this, mem, quickLists
      ensures Valid() && end > START
      ensures rsize == 0 ==> r == NULL && !IsUsed(s.blk, pp)
      ensures rsize > 0 && r == NULL ==> RowsFor(rsize) > old(s).blk[pp].rows
      ensures rsize > 0 && r == NULL ==> NoFit(s.blk, RowsFor(rsize)) && end + PAGE > limit && errno == ENOMEM
      ensures rsize > 0 && r == NULL ==> SameClient(old(mem[..]), old(s).blk, mem[..], s.blk, pp)
      ensures r != NULL ==> IsUsed(s.blk, r) && RowsFor(rsize) <= s.blk[r].rows < RowsFor(rsize) + MIN_ROWS
      ensures rsize > 0 && RowsFor(rsize) <= old(s).blk[pp].rows ==>
        && r == pp && s.blk[pp].rows == GrantedRows(old(s).blk[pp].rows, RowsFor(rsize)) && end == old(end)
        && s.quick == old(s).quick && RestListed(old(s).blk, old(s).free, s.free, pp, RowsFor(rsize))
      ensures RowsFor(rsize) > old(s).blk[pp].rows && r != NULL ==>
        r != pp && Placed(old(s), old(end), old(lastBp), RowsFor(rsize), r, end)
      ensures r != NULL ==> Copied(old(mem[..]), pp, mem[..], r,
                                   if old(s).blk[pp].rows < RowsFor(rsize) then old(s).blk[pp].rows - 1
                                   else RowsFor(rsize) - 1)
      ensures r != NULL && r != pp ==> !IsUsed(old(s).blk, r) && !IsUsed(s.blk, pp)
      ensures forall d {:trigger SameClient(old(mem[..]), old(s).blk, mem[..], s.blk, d)} | d != pp && d != r ::
                SameClient(old(mem[..]), old(s).blk, mem[..], s.blk, d)
      ensures r != NULL || rsize == 0 ==> errno == old(errno)
    {
      hide LinkedLists, Indexed, PrevBits, Coalesced, Placed, Fronted, Freed, NoFit, QuickHeads;
      if rsize == 0 {
        SfFree(pp);
        return NULL;
      }
      ReadTag(pp);
      var size := Rows(pp);
      var bytes := RoundRequest(rsize);
      BlockHoldsRequest(rsize);
      var ssize := bytes / 8;
      if size == ssize {
        SameClientsRefl(mem[..], s.blk);
        PayloadRows(mem[..], end, s, pp);
        return pp;
      }
      if ssize > size {
        r := Move(pp, rsize);
      } else {
        bytes := RoundRequest(rsize);
        Shrink(pp, bytes / 8);
        return pp;
      }
    }
  }


  /** Following next from the head of a free list, entry by entry. */
  lemma ListStarts(mem: Memory, end: int, s: Shape, i: int)
    requires Core(mem, end, s) && 0 <= i < LISTS
    ensures |s.free| == LISTS && 0 <= Head(i) + 2 < |mem| && mem[Head(i) + 2] == Node(Head(i), s.free[i], 1)
  {
    assert Ring(mem, Head(i), s.free[i]) && Joined(mem, Head(i), s.free[i], 0);
  }

  lemma ListGoesOn(mem: Memory, end: int, s: Shape, i: int, k: int)
    requires Core(mem, end, s) && 0 <= i < LISTS && |s.free| == LISTS && 0 <= k < |s.free[i]|
    ensures FreeEntry(s, i, k) && s.free[i][k] != Head(i) && 0 < s.free[i][k] && s.free[i][k] + 2 < |mem|
    ensures mem[s.free[i][k] + 2] == Node(Head(i), s.free[i], k + 2)
  {
    assert Ring(mem, Head(i), s.free[i]) && Joined(mem, Head(i), s.free[i], k + 1);
    assert FreeEntry(s, i, k);
    HeadFar(end, s, s.free[i][k] + 2, i);
  }

  lemma NothingBelow(s: Shape, size: int)
    requires size >= 0
    ensures SearchedBelow(s, MainClass(size), size)
  {
  }

  lemma ListsIndexed(mem: Memory, end: int, s: Shape)
    requires Core(mem, end, s)
    ensures Indexed(s)
  {
  }

  lemma KeptFirstRow(m: Memory, blk: Blocks, m': Memory, blk': Blocks, end: int, b: int)
    requires SameClients(m, blk, m', blk', 0) && IsUsed(blk, b) && InHeap(blk, end, b) && 0 <= b < end <= |m| && b != 0
    ensures IsUsed(blk', b) && blk'[b].rows == blk[b].rows && b < |m'| && m'[b] == m[b]
  {
    assert SameClient(m, blk, m', blk', b);
  }

  lemma BlockRows(mem: Memory, end: int, s: Shape, b: int)
    requires Core(mem, end, s) && b in s.blk
    ensures InHeap(s.blk, end, b) && b < Next(s.blk, b) <= end <= |mem|
    ensures START < b && Tagged(mem, s.blk, b)
    ensures b in s.loose ==> s.blk[b].state.Free?
  {
    assert InHeap(s.blk, end, b) && Tagged(mem, s.blk, b);
  }

  /** The links of a list entry do not overlap its neighbours' links. */
  lemma RingOfEntry(mem: Memory, end: int, s: Shape, i: int, k: int)
    requires Core(mem, end, s) && 0 <= i < LISTS && 0 <= k < |s.free[i]|
    ensures var sp := s.free[i][k];
            Fits(mem, sp) && Fits(mem, mem[sp + 2]) && Fits(mem, mem[sp + 3])
            && Far(sp, mem[sp + 2]) && Far(sp, mem[sp + 3])
  {
    var h, L := Head(i), s.free[i];
    assert Ring(mem, h, L);
    assert Joined(mem, h, L, k) && Joined(mem, h, L, k + 1);
    FreeListSpread(end, s, i);
    FarOrSame(h, L, k, k + 1);
    FarOrSame(h, L, k + 1, k + 2);
  }
}
