/** What the clients of the allocator see: the payloads of the used blocks. */
module HeapClients {
  import opened HeapGeometry
  import opened LinkRings
  import opened HeapInvariant
  import opened HeapSteps
  import opened TagSteps

  ghost predicate IsUsed(blk: Blocks, d: int) {
    d in blk && blk[d].state.Used?
  }

  ghost predicate KeptPayload(mem: Memory, mem': Memory, blk: Blocks, d: int)
    requires d in blk
  {
    |mem'| == |mem| && forall r | d <= r < Next(blk, d) - 1 && 0 <= r < |mem| :: mem'[r] == mem[r]
  }

  /** Block `d` is used in both states or in neither; if used, its size and payload are the same. */
  ghost predicate SameClient(mem: Memory, blk: Blocks, mem': Memory, blk': Blocks, d: int) {
    && (IsUsed(blk, d) <==> IsUsed(blk', d))
    && (IsUsed(blk, d) ==> blk'[d].rows == blk[d].rows && KeptPayload(mem, mem', blk, d))
  }

  /** Every client but the one that owns `x` sees no change. */
  ghost predicate SameClients(mem: Memory, blk: Blocks, mem': Memory, blk': Blocks, x: int) {
    forall d {:trigger SameClient(mem, blk, mem', blk', d)} | d != x :: SameClient(mem, blk, mem', blk', d)
  }

  lemma SameClientsTrans(m0: Memory, b0: Blocks, m1: Memory, b1: Blocks, m2: Memory,
          b2: Blocks, x: int)
    requires SameClients(m0, b0, m1, b1, x) && SameClients(m1, b1, m2, b2, x)
    ensures SameClients(m0, b0, m2, b2, x)
  {
    forall d {:trigger SameClient(m0, b0, m2, b2, d)} | d != x ensures SameClient(m0, b0, m2, b2, d) {
      assert SameClient(m0, b0, m1, b1, d) && SameClient(m1, b1, m2, b2, d);
    }
  }

  /** A step that spares every client, after a step that may touch the client at `x`. */
  lemma SameClientsThen(m0: Memory, b0: Blocks, m1: Memory, b1: Blocks, m2: Memory,
          b2: Blocks, x: int, end1: int, end2: int)
    requires SameClients(m0, b0, m1, b1, x) && SameClients(m1, b1, m2, b2, 0) && Tiled(b1, end1) && Tiled(b2, end2)
    ensures SameClients(m0, b0, m2, b2, x) && SameClient(m1, b1, m2, b2, x)
  {
    assert 0 in b1 ==> InHeap(b1, end1, 0);
    assert 0 in b2 ==> InHeap(b2, end2, 0);
    assert SameClient(m1, b1, m2, b2, x);
    forall d {:trigger SameClient(m0, b0, m2, b2, d)} | d != x ensures SameClient(m0, b0, m2, b2, d) {
      assert SameClient(m0, b0, m1, b1, d) && SameClient(m1, b1, m2, b2, d);
    }
  }

  lemma SameClientsWeaken(m0: Memory, b0: Blocks, m1: Memory, b1: Blocks, x: int, y: int)
    requires SameClients(m0, b0, m1, b1, x) && SameClient(m0, b0, m1, b1, x)
    ensures SameClients(m0, b0, m1, b1, y)
  {
    forall d {:trigger SameClient(m0, b0, m1, b1, d)} | d != y ensures SameClient(m0, b0, m1, b1, d) {
      assert d != x ==> SameClient(m0, b0, m1, b1, d);
    }
  }

  lemma LinkWriteClients(mem: Memory, end: int, blk: Blocks, c: int, r: int, v: int)
    requires Tiled(blk, end) && 0 <= r < |mem|
    requires r < START || (c in blk && !blk[c].state.Used? && c <= r <= c + 1)
    ensures SameClients(mem, blk, mem[r := v], blk, 0)
  {
    var mem' := mem[r := v];
    forall d {:trigger SameClient(mem, blk, mem', blk, d)} ensures SameClient(mem, blk, mem', blk, d) {
      if IsUsed(blk, d) {
        assert InHeap(blk, end, d);
        if r >= START {
          RowsApart(blk, end, d, c);
          assert InHeap(blk, end, c);
        }
      }
    }
  }

  lemma UnlinkClients(mem: Memory, end: int, s: Shape, i: int, k: int)
    requires Core(mem, end, s) && 0 <= i < LISTS && 0 <= k < |s.free[i]|
    requires var sp := s.free[i][k]; Fits(mem, sp) && Fits(mem, mem[sp + 2]) && Fits(mem, mem[sp + 3])
    ensures SameClients(mem, s.blk, Unlinked(mem, s.free[i][k]), s.blk, 0)
  {
    var h, L := Head(i), s.free[i];
    var sp := L[k];
    assert Ring(mem, h, L);
    assert Joined(mem, h, L, k) && Joined(mem, h, L, k + 1);
    var prev, next := mem[sp + 3], mem[sp + 2];
    NodeIsBlock(end, s, i, k);
    NodeIsBlock(end, s, i, k + 2);
    LinkWriteClients(mem, end, s.blk, prev + 2, prev + 2, next);
    LinkWriteClients(mem[prev + 2 := next], end, s.blk, next + 2, next + 3, prev);
    SameClientsTrans(mem, s.blk, mem[prev + 2 := next], s.blk, Unlinked(mem, sp), s.blk, 0);
  }

  lemma LinkClients(mem: Memory, end: int, s: Shape, b: int)
    requires Core(mem, end, s) && b in s.loose && b in s.blk
    requires var i := MainClass(s.blk[b].rows);
             0 <= i < LISTS && Fits(mem, Head(i)) && Fits(mem, b - 2) && Fits(mem, mem[Head(i) + 2])
             && Far(Head(i), b - 2)
    ensures SameClients(mem, s.blk, Pushed(mem, Head(MainClass(s.blk[b].rows)), b - 2), s.blk, 0)
  {
    var i, sp := MainClass(s.blk[b].rows), b - 2;
    var h, L := Head(i), s.free[i];
    assert Ring(mem, h, L);
    assert Joined(mem, h, L, 0);
    var first := mem[h + 2];
    NodeIsBlock(end, s, i, 1);
    var mem1 := mem[sp + 2 := first];
    var mem2 := mem1[h + 2 := sp];
    var mem3 := mem2[sp + 3 := h];
    LinkWriteClients(mem, end, s.blk, b, sp + 2, first);
    LinkWriteClients(mem1, end, s.blk, b, h + 2, sp);
    LinkWriteClients(mem2, end, s.blk, b, sp + 3, h);
    LinkWriteClients(mem3, end, s.blk, first + 2, first + 3, sp);
    SameClientsTrans(mem, s.blk, mem1, s.blk, mem2, s.blk, 0);
    SameClientsTrans(mem, s.blk, mem2, s.blk, mem3, s.blk, 0);
    SameClientsTrans(mem, s.blk, mem3, s.blk, Pushed(mem, h, sp), s.blk, 0);
  }

  lemma MergeClients(mem: Memory, mem': Memory, end: int, s: Shape, b: int, c: int)
    requires Core(mem, end, s) && b in s.loose && c in s.loose && b in s.blk && c in s.blk && Next(s.blk, b) == c
    requires OnlyWithin(mem, mem', b - 1, Next(s.blk, c) - 2)
    ensures SameClients(mem, s.blk, mem', MergeShape(s, b, c).blk, 0)
  {
    var blk' := MergeShape(s, b, c).blk;
    forall d {:trigger SameClient(mem, s.blk, mem', blk', d)} ensures SameClient(mem, s.blk, mem', blk', d) {
      if IsUsed(s.blk, d) {
        RowsApart(s.blk, end, d, b);
        RowsApart(s.blk, end, d, c);
      }
    }
  }

  lemma TagClients(mem: Memory, mem': Memory, end: int, blk: Blocks, blk': Blocks, b: int)
    requires Tiled(blk, end) && b in blk && OnlyBlockAndNextTag(mem, mem', blk, b)
    requires forall d {:trigger IsUsed(blk', d)} | d != b :: IsUsed(blk', d) <==> IsUsed(blk, d)
    requires forall d {:trigger blk'[d]} | d in blk && d in blk' && d != b :: blk'[d].rows == blk[d].rows
    ensures SameClients(mem, blk, mem', blk', b)
  {
    forall d {:trigger SameClient(mem, blk, mem', blk', d)} | d != b ensures SameClient(mem, blk, mem', blk', d) {
      assert IsUsed(blk', d) <==> IsUsed(blk, d);
      if IsUsed(blk, d) {
        assert InHeap(blk, end, d);
        if d != Next(blk, b) {
          UntouchedKept(mem, mem', end, blk, b, d);
        } else {
          assert InHeap(blk, end, b);
        }
      }
    }
  }

  lemma CarveClients(mem: Memory, mem': Memory, end: int, blk: Blocks, b: int, k: nat)
    requires Tiled(blk, end) && b in blk && OnlyBlockAndNextTag(mem, mem', blk, b) && k <= blk[b].rows && b + k !in blk
    ensures SameClients(mem, blk, mem', Carve(blk, b, k), b)
  {
    TagClients(mem, mem', end, blk, Carve(blk, b, k), b);
  }

  lemma RestateClients(mem: Memory, mem': Memory, end: int, blk: Blocks, b: int, st: State)
    requires Tiled(blk, end) && b in blk && OnlyBlockAndNextTag(mem, mem', blk, b)
    ensures SameClients(mem, blk, mem', WithState(blk, b, st), b)
  {
    assert InHeap(blk, end, b);
    TagClients(mem, mem', end, blk, WithState(blk, b, st), b);
  }

  lemma GrowClients(mem: Memory, mem': Memory, end: int, blk: Blocks, prv: bool)
    requires Tiled(blk, end) && end !in blk && OnlyWithin(mem, mem', end - 1, end + PAGE - 2)
    ensures SameClients(mem, blk, mem', blk[end := Block(PAGE, Free, prv)], 0)
  {
    var blk' := blk[end := Block(PAGE, Free, prv)];
    forall d {:trigger SameClient(mem, blk, mem', blk', d)} ensures SameClient(mem, blk, mem', blk', d) {
      if IsUsed(blk, d) { assert InHeap(blk, end, d); }
    }
  }

  lemma FuseStep(mem: Memory, mem': Memory, end: int, s: Shape, b: int, c: int)
    requires Core(mem, end, s) && Coalesced(s.blk, s.loose)
    requires b in s.loose && c in s.loose && b in s.blk && c in s.blk && Next(s.blk, b) == c
    requires OnlyWithin(mem, mem', b - 1, Next(s.blk, c) - 2)
    requires 0 <= b - 1 < |mem'| && 0 <= Next(s.blk, c) - 2 < |mem'|
    requires var word := Pack(s.blk[b].rows + s.blk[c].rows, false, s.blk[b].prv);
             mem'[b - 1] == word && mem'[Next(s.blk, c) - 2] == word
    ensures Core(mem', end, MergeShape(s, b, c)) && Coalesced(MergeShape(s, b, c).blk, s.loose - {c})
    ensures SameClients(mem, s.blk, mem', MergeShape(s, b, c).blk, 0)
  {
    assert InHeap(s.blk, end, b) && InHeap(s.blk, end, c);
    MergeStep(mem, mem', end, s, b, c);
    MergeClients(mem, mem', end, s, b, c);
    AbsorbCoalesced(s.blk, end, b, c, s.loose);
    assert s.loose - {c} + {b} == s.loose - {c};
  }

  /** The state after `b`, loose before, and its neighbour `c` have both left the lists. */
  lemma BothLoose(end: int, s: Shape, s': Shape, b: int, c: int)
    requires Layout(s.blk, end) && Coalesced(s.blk, s.loose) && b in s.loose && s'.blk == s.blk
      && s'.loose == s.loose + {c}
    ensures Coalesced(s'.blk, s'.loose)
  {
    forall d {:trigger Settled(s.blk, d)} | d in s.blk && d !in s'.loose && Next(s.blk, d) !in s'.loose
      ensures Settled(s.blk, d)
    {
    }
  }

  /** The free block `n` after the loose block `b` is listed, and the block after it is not free. */
  lemma NextIsListed(end: int, s: Shape, b: int)
    requires Layout(s.blk, end) && s.loose == {b} && b in s.blk && Coalesced(s.blk, {b})
    requires Next(s.blk, b) in s.blk && s.blk[Next(s.blk, b)].state.Free?
    ensures Listed(s, Next(s.blk, b)) && Settled(s.blk, Next(s.blk, b)) && b < Next(s.blk, b)
  {
    var n := Next(s.blk, b);
    assert InHeap(s.blk, end, b) && InHeap(s.blk, end, n);
    assert Next(s.blk, n) in s.blk ==> Settled(s.blk, n);
  }

  /** The free block before the loose block `b` is listed, and the block before it is not free. */
  lemma PrevIsListed(end: int, s: Shape, b: int) returns (p: int)
    requires Layout(s.blk, end) && s.loose == {b} && b in s.blk && Coalesced(s.blk, {b}) && !s.blk[b].prv
    ensures p in s.blk && Next(s.blk, p) == b && p < b && s.blk[p].state.Free? && Listed(s, p) && s.blk[p].prv
  {
    p := Predecessor(s.blk, end, b);
    assert PrvRight(s.blk, p);
    forall d {:trigger Next(s.blk, d)} | d in s.blk && Next(s.blk, d) == p ensures d !in {b} {
      assert InHeap(s.blk, end, b);
    }
    BeforeFree(s.blk, end, p, {b});
  }

  /** A block that has taken in both free neighbours, or the only one, has no free neighbour left. */
  lemma FusedIsolated(blk: Blocks, end: int, b: int, c: int)
    requires Layout(blk, end) && b in blk && c in blk && Next(blk, b) == c
    requires blk[b].prv && (Next(blk, c) in blk ==> !blk[Next(blk, c)].state.Free?)
    ensures Isolated(Absorb(blk, b, c), b)
  {
    assert InHeap(blk, end, b) && InHeap(blk, end, c);
  }

  /** A block, its predecessor and its successor, all free and unlisted, become one block. */
  lemma FuseThree(mem: Memory, mem': Memory, end: int, s: Shape, p: int, b: int, c: int)
    requires Core(mem, end, s) && Coalesced(s.blk, s.loose)
    requires s.loose == {p, b, c} && p in s.blk && b in s.blk && c in s.blk && Next(s.blk, p) == b
      && Next(s.blk, b) == c
    requires OnlyWithin(mem, mem', p - 1, Next(s.blk, c) - 2)
    requires 0 <= p - 1 < |mem'| && 0 <= Next(s.blk, c) - 2 < |mem'|
    requires var word := Pack(s.blk[p].rows + s.blk[b].rows + s.blk[c].rows, false, s.blk[p].prv);
             mem'[p - 1] == word && mem'[Next(s.blk, c) - 2] == word
    requires s.blk[p].prv && (Next(s.blk, c) in s.blk ==> !s.blk[Next(s.blk, c)].state.Free?)
    ensures var t := MergeShape(MergeShape(s, b, c), p, b);
            t.loose == {p} && Core(mem', end, t) && Coalesced(t.blk, {p}) && Isolated(t.blk, p)
            && SameClients(mem, s.blk, mem', t.blk, 0)
  {
    assert InHeap(s.blk, end, p) && InHeap(s.blk, end, b) && InHeap(s.blk, end, c);
    var word := Pack(s.blk[b].rows + s.blk[c].rows, false, s.blk[b].prv);
    var mem1, s1 := mem[b - 1 := word][Next(s.blk, c) - 2 := word], MergeShape(s, b, c);
    FuseStep(mem, mem1, end, s, b, c);
    assert s1.loose == {p, b};
    FuseStep(mem1, mem', end, s1, p, b);
    FusedIsolated(s1.blk, end, p, b);
    assert s1.loose - {b} == {p};
    SameClientsTrans(mem, s.blk, mem1, s1.blk, mem', MergeShape(s1, p, b).blk, 0);
  }

  lemma ThreeLoose(end: int, s: Shape, s': Shape, p: int, b: int, c: int)
    requires Layout(s.blk, end) && s.loose == {b} && Coalesced(s.blk, {b}) && s'.blk == s.blk
      && s'.loose == {b} + {c} + {p}
    ensures s'.loose == {p, b, c} && Coalesced(s'.blk, s'.loose)
  {
    forall d {:trigger Settled(s.blk, d)} | d in s.blk && d !in s'.loose && Next(s.blk, d) !in s'.loose
      ensures Settled(s.blk, d)
    {
    }
  }
}
