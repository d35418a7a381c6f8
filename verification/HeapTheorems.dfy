/** What the heap invariant means for the raw rows and for the clients. */
module HeapTheorems {
  import opened HeapGeometry
  import opened LinkRings
  import opened HeapInvariant
  import opened HeapClients
  import opened HeapMoves
  import opened RequestSize

  // ----- walking the raw heap -----

  /** The payload rows met by walking the sizes in the raw headers from `p` on.  The walk stops at the end of
      the heap, or where a header is out of reach or too small. */
  function Walk(mem: Memory, end: int, p: int): seq<int>
    decreases end - p
  {
    if p < end && 1 <= p <= |mem| && RowsOf(mem[p - 1]) >= MIN_ROWS
    then [p] + Walk(mem, end, p + RowsOf(mem[p - 1]))
    else []
  }

  /** Where that walk stops. */
  function WalkEnd(mem: Memory, end: int, p: int): int
    decreases end - p
  {
    if p < end && 1 <= p <= |mem| && RowsOf(mem[p - 1]) >= MIN_ROWS
    then WalkEnd(mem, end, p + RowsOf(mem[p - 1]))
    else p
  }

  /** Total rows of the walked blocks. */
  function TotalRows(mem: Memory, ps: seq<int>): int {
    if ps == [] then 0
    else (if 1 <= ps[0] <= |mem| then RowsOf(mem[ps[0] - 1]) else 0) + TotalRows(mem, ps[1..])
  }

  /** Walking the raw headers from heap start + 16 bytes meets every block once, in address order, and stops
      exactly at the end of the heap. */
  lemma {:induction false} WalkTiles(mem: Memory, end: int, s: Shape)
    requires Core(mem, end, s)
    ensures WalkEnd(mem, end, FIRST) == end
    ensures forall b :: b in Walk(mem, end, FIRST) <==> b in s.blk
    ensures forall i, j | 0 <= i < j < |Walk(mem, end, FIRST)| :: Walk(mem, end, FIRST)[i] < Walk(mem, end, FIRST)[j]
    ensures TotalRows(mem, Walk(mem, end, FIRST)) == end - FIRST
  {
    WalkFrom(mem, end, s, FIRST);
    forall b ensures b in Walk(mem, end, FIRST) <==> b in s.blk {
      assert b in s.blk ==> InHeap(s.blk, end, b);
    }
  }

  lemma {:induction false} WalkFrom(mem: Memory, end: int, s: Shape, p: int)
    requires Core(mem, end, s) && (p in s.blk || p == end)
    ensures WalkEnd(mem, end, p) == end
    ensures forall b :: b in Walk(mem, end, p) <==> b in s.blk && p <= b
    ensures forall i, j | 0 <= i < j < |Walk(mem, end, p)| :: Walk(mem, end, p)[i] < Walk(mem, end, p)[j]
    ensures TotalRows(mem, Walk(mem, end, p)) == end - p
    decreases end - p
  {
    hide LinkedLists, Indexed, PrevBits, Aligned;
    if p == end {
      forall b ensures !(b in s.blk && p <= b) {
        assert b in s.blk ==> InHeap(s.blk, end, b);
      }
    } else {
      assert InHeap(s.blk, end, p) && Tagged(mem, s.blk, p);
      ReadHeader(mem, s.blk, p);
      var n := Next(s.blk, p);
      WalkFrom(mem, end, s, n);
      assert Walk(mem, end, p) == [p] + Walk(mem, end, n);
      assert Walk(mem, end, p)[1..] == Walk(mem, end, n);
      forall b ensures b in Walk(mem, end, p) <==> b in s.blk && p <= b {
        assert b in s.blk ==> Apart(s.blk, p, b);
      }
    }
  }

  // ----- the lists, read from raw memory -----

  /** The node reached from `u` after `n` steps along the `next` links. */
  function Follow(mem: Memory, u: int, n: nat): int
    decreases n
  {
    if n == 0 then u
    else if Fits(mem, u) then Follow(mem, mem[u + 2], n - 1)
    else u
  }

  /** The node reached from `u` after `n` steps along the `prev` links. */
  function FollowBack(mem: Memory, u: int, n: nat): int
    decreases n
  {
    if n == 0 then u
    else if Fits(mem, u) then FollowBack(mem, mem[u + 3], n - 1)
    else u
  }

  lemma {:induction false} FollowRing(mem: Memory, h: int, L: seq<int>, from: nat, n: nat)
    requires Ring(mem, h, L) && from + n <= |L| + 1
    ensures Follow(mem, Node(h, L, from), n) == Node(h, L, from + n)
    decreases n
  {
    if n > 0 {
      assert Joined(mem, h, L, from);
      FollowRing(mem, h, L, from + 1, n - 1);
    }
  }

  lemma {:induction false} FollowRingBack(mem: Memory, h: int, L: seq<int>, from: nat, n: nat)
    requires Ring(mem, h, L) && n <= from <= |L| + 1
    ensures FollowBack(mem, Node(h, L, from), n) == Node(h, L, from - n)
    decreases n
  {
    if n > 0 {
      assert Joined(mem, h, L, from - 1);
      FollowRingBack(mem, h, L, from - 1, n - 1);
    }
  }

  /** Each free list is a circle through its dummy head in both directions, and meets exactly the free blocks
      of its size class, each once. */
  lemma {:induction false} FreeListsAreCircles(mem: Memory, end: int, s: Shape, i: int)
    requires Core(mem, end, s) && s.loose == {} && 0 <= i < LISTS
    ensures var L := s.free[i];
            && Follow(mem, Head(i), |L| + 1) == Head(i) && FollowBack(mem, Head(i), |L| + 1) == Head(i)
            && (forall n | 1 <= n <= |L| :: Follow(mem, Head(i), n) == L[n - 1]
                 && FollowBack(mem, Head(i), n) == L[|L| - n])
            && NoDup(L)
            && (forall b :: b - 2 in L <==> b in s.blk && s.blk[b].state.Free? && MainClass(s.blk[b].rows) == i)
  {
    var h, L := Head(i), s.free[i];
    assert Ring(mem, h, L);
    assert WellSized(s, i);
    FollowRing(mem, h, L, 0, |L| + 1);
    FollowRingBack(mem, h, L, |L| + 1, |L| + 1);
    forall n | 1 <= n <= |L| ensures Follow(mem, h, n) == L[n - 1] && FollowBack(mem, h, n) == L[|L| - n] {
      FollowRing(mem, h, L, 0, n);
      FollowRingBack(mem, h, L, |L| + 1, n);
    }
    forall b ensures b - 2 in L <==> b in s.blk && s.blk[b].state.Free? && MainClass(s.blk[b].rows) == i {
      OnListIffFree(s, i, b);
    }
  }

  lemma OnListIffFree(s: Shape, i: int, b: int)
    requires Indexed(s) && s.loose == {} && 0 <= i < LISTS
    ensures b - 2 in s.free[i] <==> b in s.blk && s.blk[b].state.Free? && MainClass(s.blk[b].rows) == i
  {
    if b - 2 in s.free[i] {
      var j :| 0 <= j < |s.free[i]| && s.free[i][j] == b - 2;
      assert FreeEntry(s, i, j);
    }
    if b in s.blk && s.blk[b].state.Free? {
      assert Listed(s, b) && OnItsList(s, b);
    }
  }

  /** The alloc bit of a raw header is clear exactly for the blocks on a free list, and the prev-alloc bit
      repeats the alloc bit of the block before. */
  lemma RawBits(mem: Memory, end: int, s: Shape, b: int)
    requires Core(mem, end, s) && s.loose == {} && b in s.blk
    ensures 1 <= b && b + 2 <= Next(s.blk, b) <= |mem|
    ensures !AllocOf(mem[b - 1]) <==> exists i | 0 <= i < LISTS :: b - 2 in s.free[i]
    ensures Next(s.blk, b) in s.blk ==> PrvOf(mem[Next(s.blk, b) - 1]) == AllocOf(mem[b - 1])
    ensures b == FIRST ==> PrvOf(mem[b - 1])
    ensures !AllocOf(mem[b - 1]) ==> mem[Next(s.blk, b) - 2] == mem[b - 1]
  {
    assert Tagged(mem, s.blk, b) && PrvRight(s.blk, b) && InHeap(s.blk, end, b);
    ReadHeader(mem, s.blk, b);
    if Next(s.blk, b) in s.blk {
      assert Tagged(mem, s.blk, Next(s.blk, b));
      ReadHeader(mem, s.blk, Next(s.blk, b));
    }
    if s.blk[b].state.Free? {
      assert Listed(s, b) && OnItsList(s, b);
    }
    forall i | 0 <= i < LISTS && b - 2 in s.free[i] ensures s.blk[b].state.Free? {
      OnListIffFree(s, i, b);
    }
  }

  /** The `next` links of quick list `i` lead through at most five blocks of 32 + 16 i bytes, all marked
      allocated, to NULL. */
  lemma {:induction false} QuickListsAreChains(mem: Memory, end: int, s: Shape, i: int)
    requires Core(mem, end, s) && 0 <= i < LISTS
    ensures var L := s.quick[i];
            && |L| <= QUICK_MAX && NoDup(L)
            && Follow(mem, First(L), |L|) == NULL
            && (forall n | 0 <= n < |L| ::
                  Follow(mem, First(L), n) == L[n] && 0 <= L[n] + 1 < |mem|
                  && RowsOf(mem[L[n] + 1]) == 4 + 2 * i && AllocOf(mem[L[n] + 1]))
  {
    var L := s.quick[i];
    assert WellSized(s, i) && Chain(mem, L);
    if L != [] { FollowChain(mem, L, 0, |L|); }
    forall n | 0 <= n < |L|
      ensures Follow(mem, First(L), n) == L[n] && 0 <= L[n] + 1 < |mem|
              && RowsOf(mem[L[n] + 1]) == 4 + 2 * i && AllocOf(mem[L[n] + 1])
    {
      FollowChain(mem, L, 0, n);
      assert QuickEntry(s, i, n);
      assert Tagged(mem, s.blk, L[n] + 2);
      ReadHeader(mem, s.blk, L[n] + 2);
    }
  }

  lemma {:induction false} FollowChain(mem: Memory, L: seq<int>, from: nat, n: nat)
    requires Chain(mem, L) && from < |L| && from + n <= |L|
    ensures Follow(mem, L[from], n) == if from + n < |L| then L[from + n] else NULL
    decreases n
  {
    if n > 0 {
      assert Chained(mem, L, from);
      if from + 1 < |L| {
        FollowChain(mem, L, from + 1, n - 1);
      }
    }
  }

  // ----- the client view -----

  /** The outstanding payloads: for every used block, the rows its client may use. */
  function Payloads(mem: Memory, blk: Blocks): map<int, seq<int>> {
    map p | p in blk && blk[p].state.Used? && 0 <= p < Next(blk, p) <= |mem| :: mem[p..Next(blk, p) - 1]
  }

  /** Outstanding payloads are 16-byte aligned, lie inside the heap and do not overlap. */
  lemma PayloadsAreSeparate(mem: Memory, end: int, s: Shape, p: int, q: int)
    requires Core(mem, end, s) && p in Payloads(mem, s.blk) && q in Payloads(mem, s.blk)
    ensures p % 2 == 0 && START < p && p + |Payloads(mem, s.blk)[p]| < end
    ensures p != q ==> p + |Payloads(mem, s.blk)[p]| < q || q + |Payloads(mem, s.blk)[q]| < p
  {
    assert InHeap(s.blk, end, p) && Even(s.blk, p) && InHeap(s.blk, end, q);
    if p != q { RowsApart(s.blk, end, p, q); }
  }

  /** Every used block lies in memory. */
  ghost predicate InMemory(mem: Memory, blk: Blocks) {
    forall p {:trigger IsUsed(blk, p)} | IsUsed(blk, p) :: 0 <= p < Next(blk, p) <= |mem|
  }

  lemma CoreInMemory(mem: Memory, end: int, s: Shape)
    requires Core(mem, end, s)
    ensures InMemory(mem, s.blk)
  {
    forall p {:trigger IsUsed(s.blk, p)} | IsUsed(s.blk, p) ensures 0 <= p < Next(s.blk, p) <= |mem| {
      assert InHeap(s.blk, end, p);
    }
  }

  lemma PayloadOf(mem: Memory, blk: Blocks, p: int)
    requires InMemory(mem, blk)
    ensures p in Payloads(mem, blk) <==> IsUsed(blk, p)
    ensures IsUsed(blk, p) ==> |Payloads(mem, blk)[p]| == blk[p].rows - 1
  {
    assert IsUsed(blk, p) || !IsUsed(blk, p);
  }

  /** A client that a step spares sees the same payload before and after. */
  lemma SparedPayload(mem: Memory, blk: Blocks, mem': Memory, blk': Blocks, d: int)
    requires InMemory(mem, blk) && InMemory(mem', blk') && SameClient(mem, blk, mem', blk', d)
    ensures d in Payloads(mem, blk) <==> d in Payloads(mem', blk')
    ensures d in Payloads(mem, blk) ==> Payloads(mem', blk')[d] == Payloads(mem, blk)[d]
  {
    PayloadOf(mem, blk, d);
    PayloadOf(mem', blk', d);
    if IsUsed(blk, d) {
      var p, p' := Payloads(mem, blk)[d], Payloads(mem', blk')[d];
      forall k | 0 <= k < |p| ensures p'[k] == p[k] {
        assert mem'[d + k] == mem[d + k];
      }
    }
  }

  lemma SparedPayloads(mem: Memory, blk: Blocks, mem': Memory, blk': Blocks, x: int, y: int)
    requires InMemory(mem, blk) && InMemory(mem', blk')
    requires forall d {:trigger SameClient(mem, blk, mem', blk', d)} | d != x && d != y ::
      SameClient(mem, blk, mem', blk', d)
    ensures Payloads(mem', blk') - {x, y} == Payloads(mem, blk) - {x, y}
  {
    forall d | d != x && d != y
      ensures d in Payloads(mem, blk) <==> d in Payloads(mem', blk')
      ensures d in Payloads(mem, blk) ==> Payloads(mem', blk')[d] == Payloads(mem, blk)[d]
    {
      assert SameClient(mem, blk, mem', blk', d);
      SparedPayload(mem, blk, mem', blk', d);
    }
  }

  // ----- the allocator as its clients see it -----

  /**
   * `w` is a payload at `p` for a request of `n` bytes: large enough, and less than 48 bytes larger, unless the size
   * arithmetic wrapped.
   */
  predicate Grants(p: int, w: seq<int>, n: int) {
    p % 2 == 0 && (n <= SIZE_T - 24 ==> n <= 8 * |w| < n + 48)
  }

  predicate SeparateFrom(c: map<int, seq<int>>, p: int, w: seq<int>) {
    forall q | q in c && q != p :: p + |w| < q || q + |c[q]| < p
  }

  /** One call of the interface on the outstanding payloads `c`. */
  datatype Op = Malloc(n: int) | Release(p: int) | Realloc(p: int, n: int) | Write(p: int, k: int, v: int)

  predicate Allowed(c: map<int, seq<int>>, op: Op) {
    match op
    case Malloc(n) => 0 <= n < SIZE_T
    case Release(p) => p in c
    case Realloc(p, n) => p in c && 0 <= n < SIZE_T
    case Write(p, k, v) => p in c && 0 <= k < |c[p]|
  }

  function Smaller(a: int, b: int): int { if a < b then a else b }

  /** No free block is large enough for the request, and the heap cannot grow by another page. */
  ghost predicate Full(blk: Blocks, end: int, limit: int, n: int) {
    0 <= n < SIZE_T && NoFit(blk, RowsFor(n)) && end + PAGE > limit
  }

  /** What a call may do to the outstanding payloads: this is the whole promise to clients. Nothing is granted only
      on a heap left `full`, or for no bytes; a realloc is turned down only if it asks for a larger block. */
  ghost predicate Effect(op: Op, c: map<int, seq<int>>, c': map<int, seq<int>>, full: bool)
    requires Allowed(c, op)
  {
    match op
    case Malloc(n) =>
      ((n == 0 || full) && c' == c)
      || (n > 0 && exists p, w :: p !in c && c' == c[p := w] && Grants(p, w, n) && SeparateFrom(c, p, w))
    case Release(p) =>
      c' == c - {p}
    case Realloc(p, n) =>
      if n == 0 then c' == c - {p}
      else
        (full && RowsFor(n) - 1 > |c[p]| && c' == c)
        || exists q, w ::
             && (q == p || q !in c) && c' == (c - {p})[q := w] && Grants(q, w, n) && SeparateFrom(c - {p}, q, w)
             && (q == p <==> RowsFor(n) - 1 <= |c[p]|) && RowsFor(n) - 1 <= |w| < RowsFor(n) - 1 + MIN_ROWS
             && forall k | 0 <= k < Smaller(|c[p]|, RowsFor(n) - 1) :: w[k] == c[p][k]
    case Write(p, k, v) =>
      c' == c[p := c[p][k := v]]
  }

  lemma MallocEffect(mem: Memory, blk: Blocks, mem': Memory, end': int, s': Shape, bp: int, n: int,
          limit: int)
    requires InMemory(mem, blk) && Core(mem', end', s') && 0 <= n < SIZE_T
    requires SameClients(mem, blk, mem', s'.blk, bp)
    requires bp != NULL ==> n > 0 && !IsUsed(blk, bp) && IsUsed(s'.blk, bp)
    requires bp != NULL ==> RowsFor(n) <= s'.blk[bp].rows < RowsFor(n) + MIN_ROWS
    requires bp == NULL ==> !IsUsed(blk, NULL) && (n == 0 || Full(s'.blk, end', limit, n))
    ensures Effect(Malloc(n), Payloads(mem, blk), Payloads(mem', s'.blk), Full(s'.blk, end', limit, n))
  {
    var c, c' := Payloads(mem, blk), Payloads(mem', s'.blk);
    CoreInMemory(mem', end', s');
    SparedPayloads(mem, blk, mem', s'.blk, bp, bp);
    PayloadOf(mem, blk, bp);
    PayloadOf(mem', s'.blk, bp);
    NullIsNoBlock(s'.blk, end');
    assert c' - {bp} == c' - {bp, bp} == c - {bp, bp} == c - {bp};
    if bp == NULL {
      assert c' == c' - {bp} == c - {bp} == c;
    } else {
      var w := c'[bp];
      assert c == c - {bp} && c' == (c' - {bp})[bp := w];
      GrantedFits(mem', end', s', bp, n);
      SeparateInHeap(mem', end', s', bp);
      assert SeparateFrom(c, bp, w);
    }
  }

  lemma GrantedFits(mem: Memory, end: int, s: Shape, p: int, n: int)
    requires Core(mem, end, s) && IsUsed(s.blk, p) && 0 < n < SIZE_T
    requires RowsFor(n) <= s.blk[p].rows < RowsFor(n) + MIN_ROWS
    ensures p in Payloads(mem, s.blk) && Grants(p, Payloads(mem, s.blk)[p], n)
  {
    CoreInMemory(mem, end, s);
    PayloadOf(mem, s.blk, p);
    assert Even(s.blk, p);
    BlockHoldsRequest(n);
  }

  lemma SeparateInHeap(mem: Memory, end: int, s: Shape, p: int)
    requires Core(mem, end, s) && p in Payloads(mem, s.blk)
    ensures SeparateFrom(Payloads(mem, s.blk), p, Payloads(mem, s.blk)[p])
  {
    var c := Payloads(mem, s.blk);
    forall q | q in c && q != p ensures p + |c[p]| < q || q + |c[q]| < p {
      PayloadsAreSeparate(mem, end, s, p, q);
    }
  }

  lemma ReleaseEffect(mem: Memory, end: int, s: Shape, mem': Memory, end': int, s': Shape, bp: int)
    requires Core(mem, end, s) && Core(mem', end', s') && SameClients(mem, s.blk, mem', s'.blk, bp)
      && !IsUsed(s'.blk, bp)
    ensures Payloads(mem', s'.blk) == Payloads(mem, s.blk) - {bp}
  {
    CoreInMemory(mem, end, s);
    CoreInMemory(mem', end', s');
    SparedPayloads(mem, s.blk, mem', s'.blk, bp, bp);
    PayloadOf(mem', s'.blk, bp);
    var c, c' := Payloads(mem, s.blk), Payloads(mem', s'.blk);
    assert c' == c' - {bp, bp} == c - {bp, bp} == c - {bp};
  }

  lemma WriteEffect(mem: Memory, mem': Memory, end: int, s: Shape, p: int, k: int, v: int)
    requires Core(mem, end, s) && p in Payloads(mem, s.blk) && 0 <= k < |Payloads(mem, s.blk)[p]|
    requires 0 <= p + k < |mem| && mem' == mem[p + k := v]
    ensures Core(mem', end, s)
    ensures Payloads(mem', s.blk) == Payloads(mem, s.blk)[p := Payloads(mem, s.blk)[p][k := v]]
  {
    CoreInMemory(mem, end, s);
    PayloadOf(mem, s.blk, p);
    RestatePayload(mem, mem', end, s, p);
    CoreInMemory(mem', end, s);
    PayloadOf(mem', s.blk, p);
    SparedPayloads(mem, s.blk, mem', s.blk, p, p);
    var c, c' := Payloads(mem, s.blk), Payloads(mem', s.blk);
    assert c'[p] == c[p][k := v];
    assert c' == (c' - {p, p})[p := c'[p]];
    assert (c - {p, p})[p := c'[p]] == c[p := c'[p]];
  }

  /** A failed realloc leaves every payload as it was. */
  lemma NothingMoved(mem: Memory, end: int, s: Shape, mem': Memory, end': int, s': Shape, p: int)
    requires Core(mem, end, s) && Core(mem', end', s')
    requires forall d {:trigger SameClient(mem, s.blk, mem', s'.blk, d)} :: SameClient(mem, s.blk, mem', s'.blk, d)
    ensures Payloads(mem, s.blk) == Payloads(mem', s'.blk)
  {
    hide LinkedLists, Indexed, Tags, PrevBits, Aligned, SameClient, Tiled;
    var c, c' := Payloads(mem, s.blk), Payloads(mem', s'.blk);
    CoreInMemory(mem, end, s);
    CoreInMemory(mem', end', s');
    forall d
      ensures d in c <==> d in c'
      ensures d in c ==> c'[d] == c[d]
    {
      PayloadOf(mem, s.blk, d);
      PayloadOf(mem', s'.blk, d);
      assert SameClient(mem, s.blk, mem', s'.blk, d);
      SparedPayload(mem, s.blk, mem', s'.blk, d);
    }
  }

  lemma ReallocEffect(mem: Memory, end: int, s: Shape, mem': Memory, end': int, s': Shape,
          p: int, r: int, n: int, limit: int)
    requires Core(mem, end, s) && Core(mem', end', s') && p in Payloads(mem, s.blk) && 0 < n < SIZE_T
    requires forall d {:trigger SameClient(mem, s.blk, mem', s'.blk, d)} | d != p && d != r ::
      SameClient(mem, s.blk, mem', s'.blk, d)
    requires r == NULL ==> SameClient(mem, s.blk, mem', s'.blk, p)
    requires r == NULL ==> RowsFor(n) > s.blk[p].rows && Full(s'.blk, end', limit, n)
    requires r != NULL ==> IsUsed(s'.blk, r) && RowsFor(n) <= s'.blk[r].rows < RowsFor(n) + MIN_ROWS
    requires r != NULL ==> (r == p <==> RowsFor(n) <= s.blk[p].rows)
    requires r != NULL ==> Copied(mem, p, mem', r, if s.blk[p].rows < RowsFor(n) then s.blk[p].rows - 1
      else RowsFor(n) - 1)
    requires r != NULL && r != p ==> !IsUsed(s.blk, r) && !IsUsed(s'.blk, p)
    ensures Effect(Realloc(p, n), Payloads(mem, s.blk), Payloads(mem', s'.blk), Full(s'.blk, end', limit, n))
  {
    hide Full, LinkedLists, Indexed, Tags, PrevBits, Aligned, Copied, SameClient, Payloads, Tiled;
    CoreInMemory(mem, end, s);
    PayloadOf(mem, s.blk, p);
    if r == NULL {
      NullUnchanged(mem, end, s, mem', end', s', p);
    } else {
      MovedEffect(mem, end, s, mem', end', s', p, r, n, Full(s'.blk, end', limit, n));
    }
  }

  lemma NullUnchanged(mem: Memory, end: int, s: Shape, mem': Memory, end': int, s': Shape, p: int)
    requires Core(mem, end, s) && Core(mem', end', s')
    requires forall d {:trigger SameClient(mem, s.blk, mem', s'.blk, d)} | d != p && d != NULL ::
      SameClient(mem, s.blk, mem', s'.blk, d)
    requires SameClient(mem, s.blk, mem', s'.blk, p)
    ensures Payloads(mem, s.blk) == Payloads(mem', s'.blk)
  {
    hide Core, Payloads;
    CoreTiled(mem, end, s);
    CoreTiled(mem', end', s');
    NullIsNoBlock(s.blk, end);
    NullIsNoBlock(s'.blk, end');
    assert SameClient(mem, s.blk, mem', s'.blk, NULL);
    NothingMoved(mem, end, s, mem', end', s', p);
  }

  lemma CoreTiled(mem: Memory, end: int, s: Shape)
    requires Core(mem, end, s)
    ensures Tiled(s.blk, end)
  {
  }

  lemma MovedEffect(mem: Memory, end: int, s: Shape, mem': Memory, end': int, s': Shape,
          p: int, r: int, n: int, full: bool)
    requires Core(mem, end, s) && Core(mem', end', s') && p in Payloads(mem, s.blk) && 0 < n < SIZE_T
    requires forall d {:trigger SameClient(mem, s.blk, mem', s'.blk, d)} | d != p && d != r ::
      SameClient(mem, s.blk, mem', s'.blk, d)
    requires r != NULL && IsUsed(s'.blk, r) && RowsFor(n) <= s'.blk[r].rows < RowsFor(n) + MIN_ROWS
    requires p in s.blk && (r == p <==> RowsFor(n) <= s.blk[p].rows)
    requires Copied(mem, p, mem', r, if s.blk[p].rows < RowsFor(n) then s.blk[p].rows - 1
      else RowsFor(n) - 1)
    requires r != p ==> !IsUsed(s.blk, r) && !IsUsed(s'.blk, p)
    ensures Effect(Realloc(p, n), Payloads(mem, s.blk), Payloads(mem', s'.blk), full)
  {
    hide LinkedLists, Indexed, Tags, PrevBits, Aligned, Copied, SameClient, Payloads, Tiled;
    var c, c' := Payloads(mem, s.blk), Payloads(mem', s'.blk);
    CoreInMemory(mem, end, s);
    CoreInMemory(mem', end', s');
    SparedPayloads(mem, s.blk, mem', s'.blk, p, r);
    PayloadOf(mem, s.blk, p);
    PayloadOf(mem', s'.blk, p);
    PayloadOf(mem, s.blk, r);
    PayloadOf(mem', s'.blk, r);
    assert c' == (c' - {p, r})[r := c'[r]];
    assert c - {p, r} == (c - {p}) - {r};
    assert (c - {p, r})[r := c'[r]] == (c - {p})[r := c'[r]];
    GrantedFits(mem', end', s', r, n);
    SeparateInHeap(mem', end', s', r);
    MovedSeparate(c, c', p, r);
    MovedContents(mem, s.blk, mem', s'.blk, p, r, n);
  }

  lemma MovedSeparate(c: map<int, seq<int>>, c': map<int, seq<int>>, p: int, r: int)
    requires r in c' && c' - {p, r} == c - {p, r} && SeparateFrom(c', r, c'[r])
    ensures SeparateFrom(c - {p}, r, c'[r])
  {
    forall q | q in c - {p} && q != r ensures r + |c'[r]| < q || q + |(c - {p})[q]| < r {
      assert q in c - {p, r};
      assert c'[q] == (c' - {p, r})[q] == c[q];
    }
  }

  lemma MovedContents(mem: Memory, blk: Blocks, mem': Memory, blk': Blocks, p: int, r: int, n: int)
    requires InMemory(mem, blk) && InMemory(mem', blk') && IsUsed(blk, p) && IsUsed(blk', r) && 0 < n < SIZE_T
    requires RowsFor(n) <= blk'[r].rows < RowsFor(n) + MIN_ROWS
    requires Copied(mem, p, mem', r, if blk[p].rows < RowsFor(n) then blk[p].rows - 1 else RowsFor(n) - 1)
    ensures p in Payloads(mem, blk) && r in Payloads(mem', blk')
    ensures var v, w := Payloads(mem, blk)[p], Payloads(mem', blk')[r];
            && RowsFor(n) - 1 <= |w| < RowsFor(n) - 1 + MIN_ROWS
            && forall k | 0 <= k < Smaller(|v|, RowsFor(n) - 1) :: w[k] == v[k]
  {
    PayloadOf(mem, blk, p);
    PayloadOf(mem', blk', r);
    var v, w := Payloads(mem, blk)[p], Payloads(mem', blk')[r];
    forall k | 0 <= k < Smaller(|v|, RowsFor(n) - 1) ensures w[k] == v[k] {
      assert RowCopied(mem, p, mem', r, k);
    }
  }
}
