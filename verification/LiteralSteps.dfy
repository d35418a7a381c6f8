/** The steps of hw3/src/sfmm.c that the allocator model repairs, as the source has them, and exactly when
    they are right. */
module LiteralSteps {
  import opened HeapGeometry
  import opened LinkRings
  import opened HeapInvariant
  import opened HeapSteps
  import opened TagSteps
  import opened HeapClients
  import opened HeapMoves

  lemma PackDiffers(rows: int, alloc: bool, prv: bool, alloc': bool, prv': bool)
    ensures Pack(rows, alloc, prv) == Pack(rows, alloc', prv') <==> alloc == alloc' && prv == prv'
  {
  }

  // ----- allocate: the whole block is taken -----

  /** Only the header is rewritten (hw3/src/sfmm.c:266). */
  function LiteralTake(mem: Memory, blk: Blocks, b: int): Memory
    requires b in blk && 0 <= b - 1 < |mem|
  {
    mem[b - 1 := Pack(blk[b].rows, true, blk[b].prv)]
  }

  /** Taking a whole block, free or popped from a quick list, without telling its successor is right exactly when
      it was allocated already or there is no successor. */
  lemma TakeWithoutMark(mem: Memory, end: int, s: Shape, b: int)
    requires Core(mem, end, s) && b in s.blk && (b in s.loose || IsUsed(s.blk, b))
    ensures 0 <= b - 1 < |mem|
    ensures Core(LiteralTake(mem, s.blk, b), end, RestateShape(s, b, Used))
            <==> IsUsed(s.blk, b) || Next(s.blk, b) == end
  {
    if IsUsed(s.blk, b) {
      TakeUsed(mem, end, s, b);
    } else {
      TakeFree(mem, end, s, b);
    }
  }

  /** A used block's header says all that is written. */
  lemma TakeUsed(mem: Memory, end: int, s: Shape, b: int)
    requires Core(mem, end, s) && IsUsed(s.blk, b)
    ensures 0 <= b - 1 < |mem| && LiteralTake(mem, s.blk, b) == mem && RestateShape(s, b, Used) == s
  {
    assert Tagged(mem, s.blk, b) && InHeap(s.blk, end, b);
    RestateSame(s, end, b);
  }

  lemma TakeFree(mem: Memory, end: int, s: Shape, b: int)
    requires Core(mem, end, s) && b in s.loose && b in s.blk && !IsUsed(s.blk, b)
    ensures 0 <= b - 1 < |mem|
    ensures Core(LiteralTake(mem, s.blk, b), end, RestateShape(s, b, Used)) <==> Next(s.blk, b) == end
  {
    var n := Next(s.blk, b);
    assert Tagged(mem, s.blk, b) && InHeap(s.blk, end, b);
    NextExists(s.blk, end, b);
    var mem1, s' := LiteralTake(mem, s.blk, b), RestateShape(s, b, Used);
    if n == end {
      RestateMove(mem, mem1, end, s, b, Used);
    } else if Core(mem1, end, s') {
      assert PrvRight(s.blk, b) && Tagged(mem, s.blk, n) && Tagged(mem1, s'.blk, n);
      PackDiffers(s.blk[n].rows, !s.blk[n].state.Free?, true, !s.blk[n].state.Free?, false);
      assert false;
    }
  }

  // ----- allocate: an allocated block is split by sf_realloc -----

  /** The split writes three tags; the rest block then joins a free successor (hw3/src/sfmm.c:273-278). */
  function LiteralShrink(mem: Memory, blk: Blocks, b: int, k: int): Memory
    requires b in blk && 0 <= b - 1 && 2 <= k <= blk[b].rows - 2 && Next(blk, b) - 2 < |mem|
    requires Next(blk, b) in blk ==> 2 <= Next(blk, Next(blk, b)) && Next(blk, Next(blk, b)) - 2 < |mem|
  {
    var n := Next(blk, b);
    var mem1 := SplitTags(mem, b, k, blk[b].rows, blk[b].prv);
    if n in blk && blk[n].state.Free? then
      var word := Pack(blk[b].rows - k + blk[n].rows, false, true);
      mem1[b + k - 1 := word][Next(blk, n) - 2 := word]
    else mem1
  }

  function ShrinkShape(s: Shape, b: int, k: nat): Shape
    requires b in s.blk && k <= s.blk[b].rows && b + k !in s.blk && 0 < k
  {
    var n := Next(s.blk, b);
    if n in s.blk && s.blk[n].state.Free? then MergeShape(CarveShape(s, b, k), b + k, n) else CarveShape(s, b, k)
  }

  /** Splitting a used block without telling its successor is right exactly when the successor does not exist
      or is free, and so is absorbed. */
  lemma ShrinkWithoutMark(mem: Memory, end: int, s: Shape, b: int, k: nat)
    requires Core(mem, end, s) && IsUsed(s.blk, b) && k % 2 == 0 && MIN_ROWS <= k <= s.blk[b].rows - MIN_ROWS
    requires var n := Next(s.blk, b);
             Coalesced(s.blk, {}) && s.loose == if n in s.blk && s.blk[n].state.Free? then {n} else {}
    ensures 0 <= b - 1 && Next(s.blk, b) - 2 < |mem| && b + k !in s.blk
    ensures Next(s.blk, b) in s.blk ==> 2 <= Next(s.blk, Next(s.blk, b)) <= |mem|
    ensures Core(LiteralShrink(mem, s.blk, b, k), end, ShrinkShape(s, b, k))
            <==> Next(s.blk, b) !in s.blk || s.blk[Next(s.blk, b)].state.Free?
  {
    var n := Next(s.blk, b);
    assert InHeap(s.blk, end, b);
    NextExists(s.blk, end, b);
    NoneInside(s.blk, end, b, b + k);
    if n in s.blk { assert InHeap(s.blk, end, n); }
    SplitTagsMatch(mem, end, s, b, k);
    var mem1 := SplitTags(mem, b, k, s.blk[b].rows, s.blk[b].prv);
    CarveMove(mem, mem1, end, s, b, k);
    if n in s.blk && s.blk[n].state.Free? {
      ShrinkIntoFree(mem, mem1, end, s, b, k);
    } else if n in s.blk && Core(mem1, end, CarveShape(s, b, k)) {
      assert PrvRight(s.blk, b) && Tagged(mem1, s.blk, n) && Tagged(mem1, CarveShape(s, b, k).blk, n);
      PackDiffers(s.blk[n].rows, true, true, true, false);
      assert false;
    }
  }

  lemma ShrinkIntoFree(mem: Memory, mem1: Memory, end: int, s: Shape, b: int, k: nat)
    requires Core(mem, end, s) && IsUsed(s.blk, b) && k % 2 == 0 && MIN_ROWS <= k <= s.blk[b].rows - MIN_ROWS
    requires Coalesced(s.blk, {}) && Next(s.blk, b) in s.blk && s.blk[Next(s.blk, b)].state.Free?
      && s.loose == {Next(s.blk, b)}
    requires 0 <= b - 1 && Next(s.blk, b) - 2 < |mem| && mem1 == SplitTags(mem, b, k, s.blk[b].rows, s.blk[b].prv)
    requires OnlyWithin(mem, mem1, b - 1, Next(s.blk, b) - 2)
    requires Tagged(mem1, s.blk, Next(s.blk, b)) && b + k !in s.blk && Next(s.blk, Next(s.blk, b)) - 2 < |mem|
    requires Core(NextMarked(mem1, s.blk, b, false), end, CarveShape(s, b, k))
    ensures Core(LiteralShrink(mem, s.blk, b, k), end, MergeShape(CarveShape(s, b, k), b + k, Next(s.blk, b)))
  {
    var n, t := Next(s.blk, b), CarveShape(s, b, k);
    assert InHeap(s.blk, end, b) && InHeap(s.blk, end, n);
    PrvMarkedTagged(mem1, s.blk, t.blk, n, false);
    CarveCoalesced(s.blk, end, b, k, {});
    LooseCoalescedMore(t.blk, {b + k}, t.loose);
    FuseStep(NextMarked(mem1, s.blk, b, false), LiteralShrink(mem, s.blk, b, k), end, t, b + k, n);
  }

  lemma LooseCoalescedMore(blk: Blocks, loose: set<int>, more: set<int>)
    requires Coalesced(blk, loose) && loose <= more
    ensures Coalesced(blk, more)
  {
    forall d {:trigger Settled(blk, d)} | d in blk && d !in more && Next(blk, d) !in more ensures Settled(blk, d) {
    }
  }

  // ----- sf_free: the footer of the next block -----

  /** The next block's header and footer rows are stored whatever its state (hw3/src/sfmm.c:452-453, 482-483). */
  function LiteralMark(mem: Memory, x: int, prv: bool): Memory
    requires 0 <= x - 1 < |mem| && 0 <= x + RowsOf(mem[x - 1]) - 2 < |mem|
  {
    var word := Pack(RowsOf(mem[x - 1]), AllocOf(mem[x - 1]), prv);
    mem[x - 1 := word][x + RowsOf(mem[x - 1]) - 2 := word]
  }

  /** Storing the footer as well spares every client but the one being freed exactly when the next block is not
      in use, or happens to hold that very word in its last payload row. */
  lemma MarkWithFooter(mem: Memory, end: int, s: Shape, b: int, prv: bool)
    requires Core(mem, end, s) && b in s.blk && Next(s.blk, b) in s.blk
    ensures var n := Next(s.blk, b);
            && 0 <= n - 1 < |mem| && RowsOf(mem[n - 1]) == s.blk[n].rows && 0 <= Next(s.blk, n) - 2 < |mem|
            && (SameClients(mem, s.blk, LiteralMark(mem, n, prv), s.blk, b)
                <==> (!s.blk[n].state.Used? || mem[Next(s.blk, n) - 2] == Pack(s.blk[n].rows, true, prv)))
  {
    var n := Next(s.blk, b);
    assert Tagged(mem, s.blk, n) && InHeap(s.blk, end, n) && InHeap(s.blk, end, b);
    ReadHeader(mem, s.blk, n);
    var mem' := LiteralMark(mem, n, prv);
    if s.blk[n].state.Used? && mem[Next(s.blk, n) - 2] != Pack(s.blk[n].rows, true, prv) {
      assert mem'[Next(s.blk, n) - 2] != mem[Next(s.blk, n) - 2];
      assert IsUsed(s.blk, n) && !SameClient(mem, s.blk, mem', s.blk, n);
    } else {
      forall d {:trigger SameClient(mem, s.blk, mem', s.blk, d)} | d != b
        ensures SameClient(mem, s.blk, mem', s.blk, d)
      {
        if IsUsed(s.blk, d) && d != n { RowsApart(s.blk, end, d, n); }
      }
    }
  }

  // ----- flush_list: coalescing a block that is still marked allocated -----

  /** What `coalesce` stores for a block whose alloc bit is still set (hw3/src/sfmm.c:388): nothing when no
      neighbour is free, otherwise the tags of the joined block.  `p` is the block before `b`. */
  function LiteralFlush(mem: Memory, blk: Blocks, p: int, b: int): Memory
    requires b in blk && 1 <= b <= |mem| && 2 <= Next(blk, b) && Next(blk, b) - 2 < |mem|
    requires !blk[b].prv ==> p in blk && 1 <= p <= |mem|
    requires Next(blk, b) in blk ==> 2 <= Next(blk, Next(blk, b)) && Next(blk, Next(blk, b)) - 2 < |mem|
  {
    var n := Next(blk, b);
    var last := if n in blk && blk[n].state.Free? then n else b;
    var first := if blk[b].prv then b else p;
    if first == last then mem
    else
      var word := Pack(Next(blk, last) - first, false, blk[first].prv);
      mem[first - 1 := word][Next(blk, last) - 2 := word]
  }

  function FlushShape(s: Shape, p: int, b: int): Shape
    requires b in s.blk && b < Next(s.blk, b)
    requires !s.blk[b].prv ==> p in s.blk && p < b && Next(s.blk, p) == b
  {
    var n, t := Next(s.blk, b), RestateShape(s, b, Free);
    var withNext := if n in s.blk && s.blk[n].state.Free? then MergeShape(t, b, n) else t;
    if s.blk[b].prv then withNext else MergeShape(withNext, p, b)
  }

  /** The state of a flush round: the block has left its quick list, its free neighbours their free lists. */
  ghost predicate Flushing(s: Shape, p: int, b: int)
    requires b in s.blk
  {
    var n := Next(s.blk, b);
    && IsUsed(s.blk, b) && (!s.blk[b].prv ==> p in s.blk && Next(s.blk, p) == b) && Coalesced(s.blk, {})
    && s.loose == (if n in s.blk && s.blk[n].state.Free? then {n} else {}) + (if s.blk[b].prv then {} else {p})
  }

  /** A flush round that leaves the alloc bit set is right exactly when a free neighbour absorbs the block and
      no block in use follows. */
  lemma FlushWithoutClearing(mem: Memory, end: int, s: Shape, p: int, b: int)
    requires Core(mem, end, s) && b in s.blk && Flushing(s, p, b)
    ensures 1 <= b < Next(s.blk, b) <= |mem| && (!s.blk[b].prv ==> 1 <= p < b)
    ensures Next(s.blk, b) in s.blk ==> 2 <= Next(s.blk, Next(s.blk, b)) <= |mem|
    ensures var n := Next(s.blk, b);
            Core(LiteralFlush(mem, s.blk, p, b), end, FlushShape(s, p, b))
            <==> (n in s.blk && s.blk[n].state.Free?) || (!s.blk[b].prv && n == end)
  {
    var n := Next(s.blk, b);
    assert InHeap(s.blk, end, b);
    if !s.blk[b].prv { assert InHeap(s.blk, end, p); }
    NextExists(s.blk, end, b);
    if n in s.blk { assert InHeap(s.blk, end, n); }
    if n in s.blk && s.blk[n].state.Free? {
      FlushIntoNext(mem, end, s, p, b);
    } else if s.blk[b].prv {
      FlushAlone(mem, end, s, p, b);
    } else {
      FlushIntoPrev(mem, end, s, p, b);
    }
  }

  /** The repaired memory of a flush round before any neighbour is joined. */
  function Cleared(mem: Memory, blk: Blocks, b: int): Memory
    requires b in blk && 1 <= b <= |mem| && 2 <= Next(blk, b) && Next(blk, b) - 2 < |mem|
  {
    var word := Pack(blk[b].rows, false, blk[b].prv);
    mem[b - 1 := word][Next(blk, b) - 2 := word]
  }

  lemma ClearedMove(mem: Memory, end: int, s: Shape, p: int, b: int)
    requires Core(mem, end, s) && b in s.blk && Flushing(s, p, b)
    requires 1 <= b < Next(s.blk, b) <= |mem|
    ensures var mem1, t := Cleared(mem, s.blk, b), RestateShape(s, b, Free);
            && (Next(s.blk, b) in s.blk ==> Tagged(mem1, s.blk, Next(s.blk, b)))
            && Core(NextMarked(mem1, s.blk, b, false), end, t)
            && OnlyBlockAndNextTag(mem, NextMarked(mem1, s.blk, b, false), s.blk, b)
            && Coalesced(t.blk, t.loose)
  {
    var mem1, t := Cleared(mem, s.blk, b), RestateShape(s, b, Free);
    assert InHeap(s.blk, end, b);
    RestateMove(mem, mem1, end, s, b, Free);
    if Next(s.blk, b) in s.blk {
      PrvMarkedTagged(mem1, s.blk, t.blk, Next(s.blk, b), false);
    }
    WithStateCoalesced(s.blk, end, b, Free);
    LooseCoalescedMore(t.blk, {b}, t.loose);
  }

  lemma FlushIntoNext(mem: Memory, end: int, s: Shape, p: int, b: int)
    requires Core(mem, end, s) && b in s.blk && Flushing(s, p, b)
    requires Next(s.blk, b) in s.blk && s.blk[Next(s.blk, b)].state.Free?
    requires 1 <= b < Next(s.blk, b) < Next(s.blk, Next(s.blk, b)) <= |mem| && (!s.blk[b].prv ==> 1 <= p < b)
    ensures Core(LiteralFlush(mem, s.blk, p, b), end, FlushShape(s, p, b))
  {
    var n, t := Next(s.blk, b), RestateShape(s, b, Free);
    var mem' := LiteralFlush(mem, s.blk, p, b);
    ClearedMove(mem, end, s, p, b);
    var mem2 := NextMarked(Cleared(mem, s.blk, b), s.blk, b, false);
    if s.blk[b].prv {
      FuseStep(mem2, mem', end, t, b, n);
    } else {
      assert PrvRight(s.blk, p);
      assert t.loose == {p, b, n};
      PrevIsAllocated(s.blk, end, p);
      assert Settled(s.blk, n);
      FuseThree(mem2, mem', end, t, p, b, n);
    }
  }

  lemma PrevIsAllocated(blk: Blocks, end: int, p: int)
    requires Layout(blk, end) && Coalesced(blk, {}) && p in blk && blk[p].state.Free?
    ensures blk[p].prv
  {
    BeforeFree(blk, end, p, {});
  }

  lemma FlushIntoPrev(mem: Memory, end: int, s: Shape, p: int, b: int)
    requires Core(mem, end, s) && b in s.blk && Flushing(s, p, b) && !s.blk[b].prv
    requires Next(s.blk, b) in s.blk ==>
               !s.blk[Next(s.blk, b)].state.Free? && Next(s.blk, b) < Next(s.blk, Next(s.blk, b)) <= |mem|
    requires 1 <= p < b < Next(s.blk, b) <= |mem|
    ensures Core(LiteralFlush(mem, s.blk, p, b), end, FlushShape(s, p, b)) <==> Next(s.blk, b) == end
  {
    var n, t := Next(s.blk, b), RestateShape(s, b, Free);
    var mem' := LiteralFlush(mem, s.blk, p, b);
    ClearedMove(mem, end, s, p, b);
    NextExists(s.blk, end, b);
    assert PrvRight(s.blk, p) && PrvRight(s.blk, b) && InHeap(s.blk, end, b);
    if n == end {
      FuseStep(NextMarked(Cleared(mem, s.blk, b), s.blk, b, false), mem', end, t, p, b);
    } else if Core(mem', end, FlushShape(s, p, b)) {
      assert Tagged(mem, s.blk, n) && Tagged(mem', FlushShape(s, p, b).blk, n);
      PackDiffers(s.blk[n].rows, true, true, true, false);
      assert false;
    }
  }

  lemma FlushAlone(mem: Memory, end: int, s: Shape, p: int, b: int)
    requires Core(mem, end, s) && b in s.blk && Flushing(s, p, b) && s.blk[b].prv
    requires Next(s.blk, b) in s.blk ==>
               !s.blk[Next(s.blk, b)].state.Free? && Next(s.blk, b) < Next(s.blk, Next(s.blk, b)) <= |mem|
    requires 1 <= b < Next(s.blk, b) <= |mem|
    ensures !Core(LiteralFlush(mem, s.blk, p, b), end, FlushShape(s, p, b))
  {
    assert Tagged(mem, s.blk, b);
    PackDiffers(s.blk[b].rows, true, true, false, true);
    assert !Tagged(LiteralFlush(mem, s.blk, p, b), FlushShape(s, p, b).blk, b);
  }

  // ----- a heap on which the literal steps fail -----

  /** After one page is set up and two payloads of 9 rows are handed out: two blocks of 10 rows in use, and the
      rest of the page free, still to be listed. */
  function TwoCarved(): Shape {
    CarveShape(CarveShape(FirstShape(), FIRST, 10), FIRST + 10, 10)
  }

  function TwoInUse(): Shape {
    LinkShape(TwoCarved(), FIRST + 20)
  }

  function OneCarved(): Shape {
    CarveShape(FirstShape(), FIRST, 10)
  }

  lemma OneCarvedExists() returns (mem: Memory)
    ensures |mem| == START + PAGE && Core(mem, START + PAGE, OneCarved())
    ensures mem[FIRST + 18] == 0
  {
    hide LinkedLists, Indexed;
    var heads := seq(START + PAGE, i => if 8 <= i < 48 && i % 4 >= 2 then i / 4 * 4 else 0);
    var word := Pack(PAGE - 2, false, true);
    var m0 := heads[FIRST - 1 := word][START + PAGE - 2 := word];
    FirstPage(heads, m0);
    SplitTagsMatch(m0, START + PAGE, FirstShape(), FIRST, 10);
    mem := SplitTags(m0, FIRST, 10, PAGE - 2, true);
    CarveMove(m0, mem, START + PAGE, FirstShape(), FIRST, 10);
  }

  lemma TwoCarvedExists() returns (mem: Memory)
    ensures |mem| == START + PAGE && Core(mem, START + PAGE, TwoCarved()) && Coalesced(TwoInUse().blk, {})
    ensures mem[FIRST + 18] == 0
  {
    hide LinkedLists, Indexed;
    var m1 := OneCarvedExists();
    SplitTagsMatch(m1, START + PAGE, OneCarved(), FIRST + 10, 10);
    mem := SplitTags(m1, FIRST + 10, 10, PAGE - 12, true);
    CarveMove(m1, mem, START + PAGE, OneCarved(), FIRST + 10, 10);
    TwoInUseCoalesced();
  }

  lemma TwoInUseCoalesced()
    ensures Coalesced(TwoInUse().blk, {})
  {
    assert forall d {:trigger Settled(TwoInUse().blk, d)} | d in TwoInUse().blk :: Settled(TwoInUse().blk, d);
  }

  /** Such a heap exists. */
  lemma TwoInUseExists() returns (mem: Memory)
    ensures |mem| == START + PAGE && Core(mem, START + PAGE, TwoInUse()) && Coalesced(TwoInUse().blk, {})
    ensures TwoInUse().loose == {} && mem[FIRST + 18] == 0
  {
    var m := TwoCarvedExists();
    LinkStep(m, START + PAGE, TwoCarved(), FIRST + 20);
    mem := Pushed(m, Head(MainClass(PAGE - 22)), FIRST + 18);
    var L: seq<int> := TwoCarved().free[7];
    assert L == [];
    assert Ring(m, Head(7), L);
    assert Joined(m, Head(7), L, 0);
  }

  /** On that heap the source's steps go wrong: freeing the first block overwrites a payload row of the second;
      shrinking the first block, flushing it from a quick list, and taking it again after it was free all leave
      tags that no longer describe the heap. */
  lemma LiteralStepsFail() returns (mem: Memory, mem1: Memory)
    ensures var s, end := TwoInUse(), START + PAGE;
            && Core(mem, end, s) && s.loose == {} && Coalesced(s.blk, {})
            && IsUsed(s.blk, FIRST) && IsUsed(s.blk, FIRST + 10) && Next(s.blk, FIRST) == FIRST + 10
            && Next(s.blk, FIRST + 10) == FIRST + 20 && FIRST + 20 <= |mem| && RowsOf(mem[FIRST + 9]) == 10
            && !SameClients(mem, s.blk, LiteralMark(mem, FIRST + 10, true), s.blk, FIRST)
            && FIRST + 4 !in s.blk
            && !Core(LiteralShrink(mem, s.blk, FIRST, 4), end, ShrinkShape(s, FIRST, 4))
            && s.blk[FIRST].prv
            && !Core(LiteralFlush(mem, s.blk, NULL, FIRST), end, FlushShape(s, NULL, FIRST))
            && var t := RestateShape(s, FIRST, Free);
               Core(mem1, end, t) && FIRST <= |mem1| && !Core(LiteralTake(mem1, t.blk, FIRST), end,
               RestateShape(t, FIRST, Used))
  {
    var s, end := TwoInUse(), START + PAGE;
    mem := TwoInUseExists();
    MarkWithFooter(mem, end, s, FIRST, true);
    ShrinkWithoutMark(mem, end, s, FIRST, 4);
    FlushWithoutClearing(mem, end, s, NULL, FIRST);
    ClearedMove(mem, end, s, NULL, FIRST);
    mem1 := NextMarked(Cleared(mem, s.blk, FIRST), s.blk, FIRST, false);
    TakeWithoutMark(mem1, end, RestateShape(s, FIRST, Free), FIRST);
  }
}
