/** What each elementary step of the allocator does to the heap invariant. */
module HeapSteps {
  import opened HeapGeometry
  import opened LinkRings
  import opened HeapInvariant

  // ----- linking and unlinking a block -----

  /** Writing a link row of a block, or a row below the heap, keeps every header and footer. */
  lemma LinkWriteKeepsTags(mem: Memory, blk: Blocks, end: int, c: int, r: int, v: int)
    requires Tiled(blk, end) && Tags(mem, blk) && 0 <= r < |mem|
    requires r < START || (c in blk && c <= r <= c + 1)
    ensures Tags(mem[r := v], blk)
  {
    var mem' := mem[r := v];
    forall d {:trigger Tagged(mem', blk, d)} | d in blk ensures Tagged(mem', blk, d) {
      assert Tagged(mem, blk, d) && InHeap(blk, end, d);
      if r >= START && d != c {
        assert InHeap(blk, end, c);
        RowsApart(blk, end, d, c);
      }
    }
  }

  /** Listed blocks have disjoint link rows, apart from every list head. */
  lemma ListedFar(end: int, s: Shape, b: int, c: int)
    requires Layout(s.blk, end) && b in s.blk && c in s.blk && b != c
    ensures Far(b - 2, c - 2)
  {
    assert Apart(s.blk, b, c) && Apart(s.blk, c, b) && InHeap(s.blk, end, b) && InHeap(s.blk, end, c);
  }

  lemma HeadFar(end: int, s: Shape, b: int, i: int)
    requires Layout(s.blk, end) && b in s.blk && 0 <= i < LISTS
    ensures Far(Head(i), b - 2) && Head(i) + 3 < START <= b - 2
  {
    assert InHeap(s.blk, end, b);
  }

  lemma FreeListSpread(end: int, s: Shape, i: int)
    requires Layout(s.blk, end) && Indexed(s) && 0 <= i < LISTS
    ensures Spread(Head(i), s.free[i])
  {
    var h, L := Head(i), s.free[i];
    assert WellSized(s, i);
    forall j, k {:trigger FarNodes(h, L, j, k)} | 0 <= j < k <= |L| ensures FarNodes(h, L, j, k) {
      assert FreeEntry(s, i, k - 1);
      if j == 0 {
        HeadFar(end, s, L[k - 1] + 2, i);
      } else {
        assert FreeEntry(s, i, j - 1) && L[j - 1] != L[k - 1];
        ListedFar(end, s, L[j - 1] + 2, L[k - 1] + 2);
      }
    }
  }

  function UnlinkShape(s: Shape, i: int, k: int): Shape
    requires 0 <= i < |s.free| && 0 <= k < |s.free[i]|
  {
    s.(free := s.free[i := s.free[i][..k] + s.free[i][k + 1..]], loose := s.loose + {s.free[i][k] + 2})
  }

  lemma UnlinkIndex(s: Shape, i: int, k: int)
    requires Indexed(s) && 0 <= i < LISTS && 0 <= k < |s.free[i]|
    ensures Indexed(UnlinkShape(s, i, k))
  {
    var s' := UnlinkShape(s, i, k);
    var u, L' := s.free[i][k], s'.free[i];
    assert FreeEntry(s, i, k) && WellSized(s, i);
    forall n {:trigger WellSized(s', n)} | 0 <= n < LISTS ensures WellSized(s', n) {
      assert WellSized(s, n);
    }
    forall n, j {:trigger FreeEntry(s', n, j)} | 0 <= n < LISTS && 0 <= j < |s'.free[n]| ensures FreeEntry(s', n, j) {
      var j' := if n == i && j >= k then j + 1 else j;
      assert FreeEntry(s, n, j') && s'.free[n][j] == s.free[n][j'];
    }
    forall n, j {:trigger QuickEntry(s', n, j)} | 0 <= n < LISTS && 0 <= j < |s'.quick[n]|
      ensures QuickEntry(s', n, j)
    {
      assert QuickEntry(s, n, j);
    }
    forall b {:trigger OnItsList(s', b)} | Listed(s', b) ensures OnItsList(s', b) {
      assert OnItsList(s, b);
      if b - 2 in s.free[i] {
        var j :| 0 <= j < |s.free[i]| && s.free[i][j] == b - 2;
        assert L'[if j < k then j else j - 1] == b - 2;
      }
    }
  }

  /** `remove_main_list` on entry `k` of list `i`. */
  lemma UnlinkStep(mem: Memory, end: int, s: Shape, i: int, k: int)
    requires Core(mem, end, s) && 0 <= i < LISTS && 0 <= k < |s.free[i]|
    ensures var sp := s.free[i][k];
            Fits(mem, sp) && Fits(mem, mem[sp + 2]) && Fits(mem, mem[sp + 3])
            && Core(Unlinked(mem, sp), end, UnlinkShape(s, i, k))
  {
    var h, L := Head(i), s.free[i];
    var sp := L[k];
    FreeListSpread(end, s, i);
    assert Ring(mem, h, L);
    UnlinkKeepsRing(mem, h, L, k + 1);
    assert Joined(mem, h, L, k) && Joined(mem, h, L, k + 1);
    var prev, next := mem[sp + 3], mem[sp + 2];
    assert prev == Node(h, L, k) && next == Node(h, L, k + 2);
    var mem' := Unlinked(mem, sp);
    UnlinkIndex(s, i, k);
    NodeIsBlock(end, s, i, k);
    NodeIsBlock(end, s, i, k + 2);
    LinkWriteKeepsTags(mem, s.blk, end, prev + 2, prev + 2, next);
    LinkWriteKeepsTags(mem[prev + 2 := next], s.blk, end, next + 2, next + 3, prev);
    assert L[..k] == L[..k + 1 - 1];
    assert FreeEntry(s, i, k);
    OtherListsKept(mem, mem', end, s, i, UnlinkShape(s, i, k).free, prev, next, prev);
  }

  /** A node of a free list is the list head or a free block of the heap. */
  lemma NodeIsBlock(end: int, s: Shape, i: int, j: int)
    requires Layout(s.blk, end) && Indexed(s) && 0 <= i < LISTS && 0 <= j <= |s.free[i]| + 1
    ensures var u := Node(Head(i), s.free[i], j);
            (u == Head(i) && u + 3 < START)
            || (u + 2 in s.blk && s.blk[u + 2].state.Free? && u + 2 !in s.loose && MainClass(s.blk[u + 2].rows) == i)
  {
    if 1 <= j <= |s.free[i]| { assert FreeEntry(s, i, j - 1); }
  }

  ghost predicate NodeOf(s: Shape, i: int, u: int) {
    u == Head(i)
    || (u + 2 in s.blk && s.blk[u + 2].state.Free? && (u + 2 !in s.loose ==> MainClass(s.blk[u + 2].rows) == i))
  }

  /** Relinking list `i` leaves the other lists as they are. */
  lemma OtherListsKept(mem: Memory, mem': Memory, end: int, s: Shape, i: int,
          free': seq<seq<int>>, u: int, v: int, w: int)
    requires Layout(s.blk, end) && Indexed(s) && LinkedLists(mem, s.free, s.quick) && 0 <= i < LISTS
    requires NodeOf(s, i, u) && NodeOf(s, i, v) && NodeOf(s, i, w)
    requires |mem'| == |mem|
    requires forall r | 0 <= r < |mem| && !(u + 2 <= r <= u + 3) && !(v + 2 <= r <= v + 3) && !(w + 2 <= r <= w + 3) ::
               mem'[r] == mem[r]
    requires |free'| == LISTS && Ring(mem', Head(i), free'[i]) && forall n | 0 <= n < LISTS && n != i ::
      free'[n] == s.free[n]
    ensures LinkedLists(mem', free', s.quick)
  {
    forall n {:trigger Ring(mem', Head(n), free'[n])} | 0 <= n < LISTS ensures Ring(mem', Head(n), free'[n]) {
      if n != i {
        assert Ring(mem, Head(n), s.free[n]);
        forall j {:trigger Node(Head(n), s.free[n], j)} | 0 <= j <= |s.free[n]|
          ensures SameLinks(mem, mem', Node(Head(n), s.free[n], j))
        {
          NodeIsBlock(end, s, n, j);
          OtherNodeFar(end, s, i, n, u, Node(Head(n), s.free[n], j));
          OtherNodeFar(end, s, i, n, v, Node(Head(n), s.free[n], j));
          OtherNodeFar(end, s, i, n, w, Node(Head(n), s.free[n], j));
        }
        RingFrame(mem, mem', Head(n), s.free[n]);
      }
    }
    forall n {:trigger Chain(mem', s.quick[n])} | 0 <= n < LISTS ensures Chain(mem', s.quick[n]) {
      assert Chain(mem, s.quick[n]);
      forall j {:trigger Chained(mem', s.quick[n], j)} | 0 <= j < |s.quick[n]| ensures Chained(mem', s.quick[n], j) {
        assert Chained(mem, s.quick[n], j) && QuickEntry(s, n, j);
        QuickNodeFar(end, s, i, u, s.quick[n][j]);
        QuickNodeFar(end, s, i, v, s.quick[n][j]);
        QuickNodeFar(end, s, i, w, s.quick[n][j]);
      }
    }
  }

  lemma OtherNodeFar(end: int, s: Shape, i: int, n: int, u: int, x: int)
    requires Layout(s.blk, end) && 0 <= i < LISTS && 0 <= n < LISTS && i != n && NodeOf(s, i, u)
    requires x == Head(n) || (x + 2 in s.blk && x + 2 !in s.loose && MainClass(s.blk[x + 2].rows) == n)
    ensures Far(u, x)
  {
    if u != Head(i) && x != Head(n) {
      ListedFar(end, s, u + 2, x + 2);
    } else {
      if u != Head(i) { HeadFar(end, s, u + 2, n); }
      if x != Head(n) { HeadFar(end, s, x + 2, i); }
    }
  }

  lemma QuickNodeFar(end: int, s: Shape, i: int, u: int, x: int)
    requires Layout(s.blk, end) && 0 <= i < LISTS && NodeOf(s, i, u)
    requires x + 2 in s.blk && s.blk[x + 2].state.Quick?
    ensures Far(u, x)
  {
    if u == Head(i) {
      HeadFar(end, s, x + 2, i);
    } else {
      ListedFar(end, s, u + 2, x + 2);
    }
  }

  function LinkShape(s: Shape, b: int): Shape
    requires b in s.blk && 0 <= MainClass(s.blk[b].rows) < |s.free|
  {
    var i := MainClass(s.blk[b].rows);
    s.(free := s.free[i := [b - 2] + s.free[i]], loose := s.loose - {b})
  }

  lemma LinkIndex(s: Shape, b: int)
    requires Indexed(s) && b in s.loose && b in s.blk && s.blk[b].state.Free?
    requires 0 <= MainClass(s.blk[b].rows) < LISTS
    ensures Indexed(LinkShape(s, b))
  {
    var s', i := LinkShape(s, b), MainClass(s.blk[b].rows);
    forall n {:trigger WellSized(s', n)} | 0 <= n < LISTS ensures WellSized(s', n) {
      assert WellSized(s, n);
      forall j, k | 0 <= j < k < |s'.free[n]| ensures s'.free[n][j] != s'.free[n][k] {
        if n == i { assert FreeEntry(s, i, k - 1); }
      }
    }
    forall n, j {:trigger FreeEntry(s', n, j)} | 0 <= n < LISTS && 0 <= j < |s'.free[n]| ensures FreeEntry(s', n, j) {
      if n != i { assert FreeEntry(s, n, j); }
      if n == i && j > 0 { assert FreeEntry(s, i, j - 1); }
    }
    forall n, j {:trigger QuickEntry(s', n, j)} | 0 <= n < LISTS && 0 <= j < |s'.quick[n]|
      ensures QuickEntry(s', n, j)
    {
      assert QuickEntry(s, n, j);
    }
    forall d {:trigger OnItsList(s', d)} | Listed(s', d) ensures OnItsList(s', d) {
      if d != b { assert OnItsList(s, d); }
    }
  }

  lemma MainClassRange(rows: nat)
    requires rows >= MIN_ROWS
    ensures 0 <= MainClass(rows) < LISTS
  {
  }

  /** `add_main_list` on the unlisted free block `b`. */
  lemma LinkStep(mem: Memory, end: int, s: Shape, b: int)
    requires Core(mem, end, s) && b in s.loose && b in s.blk
    ensures var i := MainClass(s.blk[b].rows);
            0 <= i < LISTS && Fits(mem, Head(i)) && Fits(mem, b - 2) && Fits(mem, mem[Head(i) + 2])
            && Far(Head(i), b - 2)
            && Core(Pushed(mem, Head(i), b - 2), end, LinkShape(s, b))
  {
    var sp := b - 2;
    assert InHeap(s.blk, end, b);
    MainClassRange(s.blk[b].rows);
    var i := MainClass(s.blk[b].rows);
    var h, L, s' := Head(i), s.free[i], LinkShape(s, b);
    assert Ring(mem, h, L);
    LinkIndex(s, b);
    FreeListSpread(end, s, i);
    FreeListSpread(end, s', i);
    PushKeepsRing(mem, h, L, sp);
    assert Joined(mem, h, L, 0);
    var first := mem[h + 2];
    NodeIsBlock(end, s, i, 1);
    HeadFar(end, s, b, i);
    var mem1 := mem[sp + 2 := first];
    LinkWriteKeepsTags(mem, s.blk, end, b, sp + 2, first);
    LinkWriteKeepsTags(mem1, s.blk, end, b, h + 2, sp);
    LinkWriteKeepsTags(mem1[h + 2 := sp], s.blk, end, b, sp + 3, h);
    LinkWriteKeepsTags(mem1[h + 2 := sp][sp + 3 := h], s.blk, end, first + 2, first + 3, sp);
    OtherListsKept(mem, Pushed(mem, h, sp), end, s, i, s'.free, h, sp, first);
  }
}
