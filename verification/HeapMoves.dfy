/** Whole moves of the allocator on memory: taking, releasing and splitting a block. */
module HeapMoves {
  import opened HeapGeometry
  import opened LinkRings
  import opened HeapInvariant
  import opened TagSteps
  import opened HeapClients
  import opened HeapLists

  /** Memory after the prev-alloc bit of block `x` is set to `prv`, in its header and, if `x` is free, its footer. */
  function PrvMarked(mem: Memory, x: int, prv: bool): Memory
    requires 0 <= x - 1 < |mem| && 0 <= x + RowsOf(mem[x - 1]) - 2 < |mem|
  {
    var word := Pack(RowsOf(mem[x - 1]), AllocOf(mem[x - 1]), prv);
    if AllocOf(mem[x - 1])
    then mem[x - 1 := word]
    else mem[x - 1 := word][x + RowsOf(mem[x - 1]) - 2 := word]
  }

  lemma ReadHeader(mem: Memory, blk: Blocks, x: int)
    requires x in blk && Tagged(mem, blk, x)
    ensures RowsOf(mem[x - 1]) == blk[x].rows && AllocOf(mem[x - 1]) == !blk[x].state.Free?
    ensures PrvOf(mem[x - 1]) == blk[x].prv
  {
    PackFields(blk[x].rows, !blk[x].state.Free?, blk[x].prv);
  }

  lemma PrvMarkedTagged(mem: Memory, blk: Blocks, blk': Blocks, x: int, prv: bool)
    requires x in blk && Tagged(mem, blk, x)
    requires x in blk' && blk'[x] == Block(blk[x].rows, blk[x].state, prv)
    ensures 0 <= x - 1 < |mem| && 0 <= x + RowsOf(mem[x - 1]) - 2 < |mem|
    ensures Tagged(PrvMarked(mem, x, prv), blk', x)
    ensures |PrvMarked(mem, x, prv)| == |mem|
    ensures forall r | 0 <= r < |mem| && r != x - 1 && (blk[x].state.Free? ==> r != Next(blk, x) - 2) ::
              PrvMarked(mem, x, prv)[r] == mem[r]
  {
    ReadHeader(mem, blk, x);
  }

  /** Memory after block `b`, whose own rows are already rewritten, tells the next block its state. */
  function NextMarked(mem: Memory, blk: Blocks, b: int, alloc: bool): Memory
    requires b in blk
    requires Next(blk, b) in blk ==> Tagged(mem, blk, Next(blk, b))
  {
    var n := Next(blk, b);
    if n in blk then
      ReadHeader(mem, blk, n);
      PrvMarked(mem, n, alloc)
    else mem
  }

  /** Block `b` changes state: its own tags are rewritten, then the next block's prev-alloc bit. */
  lemma RestateMove(mem: Memory, mem1: Memory, end: int, s: Shape, b: int, st: State)
    requires Core(mem, end, s) && b in s.blk && !Listed(s, b) && !st.Quick?
    requires OnlyWithin(mem, mem1, b - 1, Next(s.blk, b) - 2) && Tagged(mem1, WithState(s.blk, b, st), b)
    ensures Next(s.blk, b) in s.blk ==> Tagged(mem1, s.blk, Next(s.blk, b))
    ensures var mem' := NextMarked(mem1, s.blk, b, !st.Free?);
            Core(mem', end, RestateShape(s, b, st)) && SameClients(mem, s.blk, mem', RestateShape(s, b, st).blk, b)
  {
    var n, blk' := Next(s.blk, b), WithState(s.blk, b, st);
    NextExists(s.blk, end, b);
    if n in s.blk {
      assert Tagged(mem, s.blk, n) && InHeap(s.blk, end, n);
      PrvMarkedTagged(mem1, s.blk, blk', n, !st.Free?);
    }
    var mem' := NextMarked(mem1, s.blk, b, !st.Free?);
    assert InHeap(s.blk, end, b);
    assert Tagged(mem', blk', b);
    RestateStep(mem, mem', end, s, b, st);
    RestateClients(mem, mem', end, s.blk, b, st);
  }

  /** Block `b` keeps `k` rows; the rest gets free tags, and the next block's prev-alloc bit is cleared. */
  lemma CarveMove(mem: Memory, mem1: Memory, end: int, s: Shape, b: int, k: nat)
    requires Core(mem, end, s) && b in s.blk && !Listed(s, b)
    requires k % 2 == 0 && MIN_ROWS <= k <= s.blk[b].rows - MIN_ROWS
    requires OnlyWithin(mem, mem1, b - 1, Next(s.blk, b) - 2)
    requires Tagged(mem1, Carve(s.blk, b, k), b) && Tagged(mem1, Carve(s.blk, b, k), b + k)
    ensures Next(s.blk, b) in s.blk ==> Tagged(mem1, s.blk, Next(s.blk, b))
    ensures b + k !in s.blk
    ensures var mem' := NextMarked(mem1, s.blk, b, false);
            Core(mem', end, CarveShape(s, b, k)) && SameClients(mem, s.blk, mem', CarveShape(s, b, k).blk, b)
  {
    var n, blk' := Next(s.blk, b), Carve(s.blk, b, k);
    NextExists(s.blk, end, b);
    NoneInside(s.blk, end, b, b + k);
    if n in s.blk {
      assert Tagged(mem, s.blk, n) && InHeap(s.blk, end, n);
      PrvMarkedTagged(mem1, s.blk, blk', n, false);
    }
    var mem' := NextMarked(mem1, s.blk, b, false);
    assert InHeap(s.blk, end, b);
    assert Tagged(mem', blk', b) && Tagged(mem', blk', b + k);
    CarveStep(mem, mem', end, s, b, k);
    CarveClients(mem, mem', end, s.blk, b, k);
  }

  /** Memory after the tags of a used block of `size` rows and of a free rest block are written. */
  function SplitTags(mem: Memory, b: int, size: int, ssize: int, prv: bool): Memory
    requires 0 <= b - 1 && 2 <= size && 2 <= ssize - size && b + ssize - 2 < |mem|
  {
    var rest := Pack(ssize - size, false, true);
    mem[b - 1 := Pack(size, true, prv)][b + size - 1 := rest][b + ssize - 2 := rest]
  }

  lemma SplitTagsMatch(mem: Memory, end: int, s: Shape, b: int, k: int)
    requires Core(mem, end, s) && b in s.blk && k % 2 == 0 && MIN_ROWS <= k <= s.blk[b].rows - MIN_ROWS
    ensures 0 <= b - 1 && Next(s.blk, b) - 2 < |mem|
    ensures var mem1 := SplitTags(mem, b, k, s.blk[b].rows, s.blk[b].prv);
            OnlyWithin(mem, mem1, b - 1, Next(s.blk, b) - 2)
            && Tagged(mem1, Carve(s.blk, b, k), b) && Tagged(mem1, Carve(s.blk, b, k), b + k)
  {
    assert InHeap(s.blk, end, b);
  }

  /** `blk'` is `blk` with the block at `bp` joined to its free neighbours, the result starting at `r`. */
  ghost predicate MergedFrom(blk: Blocks, blk': Blocks, bp: int, r: int)
    requires bp in blk
  {
    var n := Next(blk, bp);
    var withNext := if n in blk && blk[n].state.Free? then Absorb(blk, bp, n) else blk;
    if blk[bp].prv
    then r == bp && blk' == withNext
    else r in blk && Next(blk, r) == bp && r in withNext && bp in withNext && blk' == Absorb(withNext, r, bp)
  }

  /** What a client gets from a block of `ssize` rows: the whole block if the rest would be a splinter. */
  function GrantedRows(ssize: int, size: int): int {
    if ssize - size < MIN_ROWS then ssize else size
  }

  /** Entry `k` is the first block of free list `i` with at least `size` rows. */
  ghost predicate FirstFit(s: Shape, i: int, k: int, size: int) {
    && 0 <= i < |s.free| && 0 <= k < |s.free[i]|
    && FreeEntry(s, i, k) && s.blk[s.free[i][k] + 2].rows >= size
    && forall j | 0 <= j < k :: FreeEntry(s, i, j) && s.blk[s.free[i][j] + 2].rows < size
  }

  /** The last block of the heap. */
  ghost predicate EndsHeap(blk: Blocks, end: int, b: int) {
    b in blk && Next(blk, b) == end
  }

  lemma LastAfterCarve(blk: Blocks, blk': Blocks, end: int, b: int, k: nat, r: int,
          last: int, last': int)
    requires Layout(blk, end) && b in blk && k % 2 == 0 && MIN_ROWS <= k <= blk[b].rows - MIN_ROWS
    requires b + k in Carve(blk, b, k) && MergedFrom(Carve(blk, b, k), blk', b + k, r) && r in blk'
    requires Carve(blk, b, k)[b + k].prv
    requires EndsHeap(blk, end, last) && last' == (if Next(blk', r) == end then r else last)
    ensures EndsHeap(blk', end, last')
  {
    NoneInside(blk, end, b, b + k);
    assert InHeap(blk, end, last);
    NextExists(blk, end, b);
    NextInjective(blk, end, b, last);
    if Next(blk, b) in blk {
      NextInjective(blk, end, Next(blk, b), last);
      NextExists(blk, end, Next(blk, b));
    }
  }

  /** The rows of the last block that a new page is joined with. */
  function Tail(blk: Blocks, last: int): int {
    if last in blk && blk[last].state.Free? then blk[last].rows else 0
  }

  lemma LastAfterGrow(blk: Blocks, blk': Blocks, page: int, end: int, r: int, last: int)
    requires Layout(blk, end) && page in blk && Next(blk, page) == end && MergedFrom(blk, blk', page, r)
    requires blk[page].state.Free? && last in blk && Next(blk, last) == page
    ensures EndsHeap(blk', end, r) && Tail(blk', r) == Tail(blk, last) + blk[page].rows
    ensures r == if blk[last].state.Free? then last else page
    ensures blk'[r].state.Free? && NextEntry(blk, page) == {}
    ensures forall d {:trigger blk'[d]} | d in blk' && d != r :: d in blk && blk'[d] == blk[d] && d != page
  {
    NextExists(blk, end, page);
    assert PrvRight(blk, last);
    if !blk[page].prv {
      NextInjective(blk, end, last, r);
    }
  }

  /** The block that the next page is joined with, or the page itself. */
  function Grown(blk: Blocks, last: int, end: int): int {
    if last in blk && blk[last].state.Free? then last else end
  }

  /** After the heap grew no free block but the last is large enough, and the last alone changed its list. */
  ghost predicate GrownFrom(t: Shape, s: Shape, b: int, size: int) {
    && b in s.blk && s.blk[b].state.Free?
    && (forall d {:trigger s.blk[d]} | d in s.blk && d != b && s.blk[d].state.Free? :: s.blk[d].rows < size)
    && ExceptAll(s.free, {b - 2}) == ExceptAll(t.free, {b - 2})
  }

  /** What one page changes. */
  ghost predicate PageAdded(t: Shape, s: Shape, b: int) {
    && b in s.blk && s.blk[b].state.Free?
    && (forall d {:trigger s.blk[d]} | d in s.blk && d != b && s.blk[d].state.Free? ::
          d in t.blk && t.blk[d] == s.blk[d])
    && Fronted(ExceptAll(t.free, {b - 2}), s.free, s.blk[b].rows, b - 2)
  }

  lemma GrowsFirst(t: Shape, s: Shape, b: int, size: int)
    requires PageAdded(t, s, b) && NoFit(t.blk, size)
    ensures GrownFrom(t, s, b, size)
  {
    ExceptFronted(ExceptAll(t.free, {b - 2}), s.free, s.blk[b].rows, b - 2);
    ExceptAllTwice(t.free, {b - 2}, {b - 2});
    assert {b - 2} + {b - 2} == {b - 2};
  }

  lemma GrowsAgain(t: Shape, s: Shape, s': Shape, b: int, size: int)
    requires GrownFrom(t, s, b, size) && PageAdded(s, s', b) && NoFit(s.blk, size)
    ensures GrownFrom(t, s', b, size)
  {
    GrowsFirst(s, s', b, size);
  }

  lemma GrownStays(t: Shape, s: Shape, b: int, size: int, end: int)
    requires GrownFrom(t, s, b, size)
    ensures Grown(s.blk, b, end) == b
  {
  }

  /** The search of a heap that grew can only have found the last block. */
  lemma GrownIsFound(t: Shape, s: Shape, b: int, size: int, index: int, sp: int)
    requires size >= 0 && GrownFrom(t, s, b, size) && SearchState(s, index, size, sp) && sp != NULL
    ensures sp == b - 2
  {
  }

  /** Block `b` is the first of its free list with `size` rows, and no lower list has one. */
  ghost predicate LowestFit(s: Shape, size: int, b: int) {
    exists i, k :: FitAt(s, size, b, i, k)
  }

  ghost predicate FitAt(s: Shape, size: int, b: int, i: int, k: int) {
    && 0 <= i < |s.free| && 0 <= k < |s.free[i]| && s.free[i][k] == b - 2 && b in s.blk && s.blk[b].rows >= size
    && (forall n, j | 0 <= n < |s.free| && 0 <= j < |s.free[n]| && (n < i || (n == i && j < k)) ::
          s.free[n][j] + 2 in s.blk && s.blk[s.free[n][j] + 2].rows < size)
  }

  lemma SearchIsLowest(s: Shape, index: int, size: nat, sp: int)
    requires Indexed(s) && size >= MIN_ROWS && SearchState(s, index, size, sp) && sp != NULL
    ensures LowestFit(s, size, sp + 2)
  {
    var k :| 0 <= k < |s.free[index]| && FirstFit(s, index, k, size) && s.free[index][k] == sp;
    forall n, j | 0 <= n < |s.free| && 0 <= j < |s.free[n]| && (n < index || (n == index && j < k))
      ensures s.free[n][j] + 2 in s.blk && s.blk[s.free[n][j] + 2].rows < size
    {
      assert FreeEntry(s, n, j);
      if n < MainClass(size) {
        MainClassMonotone(size, s.blk[s.free[n][j] + 2].rows);
      } else if n < index {
        assert NoFitIn(s, n, size);
      }
    }
    assert FitAt(s, size, sp + 2, index, k);
  }

  /** The lists after a free block of `rows` rows at `b` went to a client that needs `size`. */
  ghost predicate Given(free: seq<seq<int>>, free': seq<seq<int>>, rows: int, size: int, b: int) {
    if rows - size < MIN_ROWS then free' == ExceptAll(free, {b - 2})
    else Fronted(ExceptAll(free, {b - 2}), free', rows - size, b + size - 2)
  }

  /** The page that was joined with the last block has taken its entry off the lists. */
  lemma JoinedLists(t: Shape, blk: Blocks, page: int, r: int, free': seq<seq<int>>)
    requires Indexed(t) && page !in t.blk && page in blk && NextEntry(blk, page) == {}
    requires free' == ExceptAll(t.free, NextEntry(blk, page) + (if r == page then {} else {r - 2}))
    ensures free' == ExceptAll(t.free, {r - 2})
  {
    if r == page {
      UnlistedExcept(t, page);
      ExceptAllNone(t.free, {});
      assert NextEntry(blk, page) + {} == {};
    } else {
      assert NextEntry(blk, page) + {r - 2} == {r - 2};
    }
  }

  /** No free block follows a free one, so only the rest of the block itself is listed. */
  lemma AllocatedIsGiven(blk: Blocks, free: seq<seq<int>>, free': seq<seq<int>>, b: int, size: int)
    requires Coalesced(blk, {}) && b in blk && blk[b].state.Free?
    requires RestListed(blk, ExceptAll(free, {b - 2}), free', b, size)
    ensures Given(free, free', blk[b].rows, size, b)
  {
    hide Fronted;
    assert Settled(blk, b);
    assert NextEntry(blk, b) == {};
    ExceptAllTwice(free, {b - 2}, {});
    assert {b - 2} + {} == {b - 2};
  }

  /** The used block `bp` became free, took in its free neighbours as block `r`, and is in front of its list. */
  ghost predicate FreedInto(t: Shape, t': Shape, bp: int, r: int) {
    && bp in t.blk && r in t'.blk && t'.blk[r].state.Free?
    && var blk := WithState(t.blk, bp, Free);
    bp in blk && MergedFrom(blk, t'.blk, bp, r)
    && Fronted(ExceptAll(t.free, NextEntry(t.blk, bp) + (if r == bp then {} else {r - 2})),
               t'.free, t'.blk[r].rows, r - 2)
  }

  ghost predicate Freed(t: Shape, t': Shape, bp: int) {
    exists r :: FreedInto(t, t', bp, r)
  }

  lemma FreesInto(t: Shape, u: Shape, t': Shape, bp: int, r: int)
    requires bp in t.blk && t.blk[bp].rows > 0 && bp in WithState(t.blk, bp, Free)
    requires MergedFrom(WithState(t.blk, bp, Free), u.blk, bp, r) && r in u.blk && u.blk[r].state.Free?
    requires u.free == ExceptAll(t.free, NextEntry(WithState(t.blk, bp, Free), bp) + (if r == bp then {} else {r - 2}))
    requires t'.blk == u.blk && Fronted(u.free, t'.free, u.blk[r].rows, r - 2)
    ensures Freed(t, t', bp)
  {
    hide Fronted, MergedFrom, ExceptAll;
    assert NextEntry(WithState(t.blk, bp, Free), bp) == NextEntry(t.blk, bp);
    assert FreedInto(t, t', bp, r);
  }

  /** A quick list holds a block for the request. */
  ghost predicate QuickServes(t: Shape, size: nat) {
    0 <= QuickClass(size) < |t.quick| && t.quick[QuickClass(size)] != []
  }

  /** The rows of the block a request is served from, after the heap grew to `end'`. */
  function ServedRows(t: Shape, end: int, last: int, b: int, end': int): int {
    if end' == end then (if b in t.blk then t.blk[b].rows else 0) else Tail(t.blk, last) + (end' - end)
  }

  /** The client gets the request's rows, or the whole block if the rest were a splinter; the rest is listed. */
  ghost predicate Served(t: Shape, end: int, last: int, size: nat, b: int, t': Shape, end': int) {
    var rows := ServedRows(t, end, last, b, end');
    b in t'.blk && t'.blk[b].rows == GrantedRows(rows, size) && Given(t.free, t'.free, rows, size, b)
  }

  lemma GivenAlike(a: seq<seq<int>>, b: seq<seq<int>>, free': seq<seq<int>>, rows: int, size: int, x: int)
    requires ExceptAll(a, {x - 2}) == ExceptAll(b, {x - 2}) && Given(a, free', rows, size, x)
    ensures Given(b, free', rows, size, x)
  {
  }

  /** What the search found is the lowest fit of the heap as it was, or the block at the end of the grown heap. */
  lemma FoundIsPlaced(t: Shape, end: int, last: int, t': Shape, end': int, last': int, size: nat, index: int, sp: int)
    requires Indexed(t) && Indexed(t') && size >= MIN_ROWS && SearchState(t', index, size, sp) && sp != NULL
    requires 0 <= index < LISTS
    requires if end' == end then t' == t
             else GrownFrom(t, t', last', size) && last' == Grown(t.blk, last, end)
                  && Tail(t'.blk, last') == Tail(t.blk, last) + (end' - end)
    ensures sp + 2 in t'.blk && t'.blk[sp + 2].rows == ServedRows(t, end, last, sp + 2, end')
    ensures if end' == end then LowestFit(t, size, sp + 2) else sp + 2 == Grown(t.blk, last, end)
    ensures ExceptAll(t'.free, {sp}) == ExceptAll(t.free, {sp})
  {
    if end' == end {
      SearchIsLowest(t, index, size, sp);
    } else {
      GrownIsFound(t, t', last', size, index, sp);
    }
  }

  /** Where a request for `size` rows is served: the front of its quick list, the lowest fit, or the grown end. */
  ghost predicate Placed(t: Shape, end: int, last: int, size: nat, b: int, end': int) {
    var q := QuickClass(size);
    if end == START then b == FIRST
    else if 0 <= q < |t.quick| && t.quick[q] != [] then b == t.quick[q][0] + 2 && end' == end
    else if end' == end then LowestFit(t, size, b)
    else b == Grown(t.blk, last, end)
  }

  lemma TailTooSmall(blk: Blocks, last: int, size: int)
    requires NoFit(blk, size) && size > 0
    ensures Tail(blk, last) < size
  {
  }

  /** The rest of a split block starts behind the client's part and has taken in a free block behind it. */
  lemma CarvedRest(blk: Blocks, end: int, b: int, k: nat, blk': Blocks, r: int)
    requires Layout(blk, end) && b in blk && MIN_ROWS <= k <= blk[b].rows - MIN_ROWS && k % 2 == 0
    requires b + k in Carve(blk, b, k) && Carve(blk, b, k)[b + k].prv
    requires MergedFrom(Carve(blk, b, k), blk', b + k, r)
    ensures r == b + k && r in blk' && blk'[r].rows == RestRows(blk, b, k)
    ensures NextEntry(Carve(blk, b, k), b + k) == NextEntry(blk, b)
  {
    NoneInside(blk, end, b, b + k);
    NextExists(blk, end, b);
  }

  /** `first` of a quick list that holds `L`. */
  function First(L: seq<int>): int {
    if |L| > 0 then L[0] else NULL
  }

  // ----- starting up, and quick lists -----

  function FirstShape(): Shape {
    var none: seq<seq<int>> := [[], [], [], [], [], [], [], [], [], []];
    Shape(map[FIRST := Block(PAGE - 2, Free, true)], none, none, {FIRST})
  }

  lemma FirstPage(mem: Memory, mem': Memory)
    requires START + PAGE <= |mem|
    requires forall j | 0 <= j < LISTS :: mem[Head(j) + 2] == Head(j) && mem[Head(j) + 3] == Head(j)
    requires var word := Pack(PAGE - 2, false, true); mem' == mem[FIRST - 1 := word][START + PAGE - 2 := word]
    ensures Core(mem', START + PAGE, FirstShape())
    ensures Coalesced(FirstShape().blk, {}) && EndsHeap(FirstShape().blk, START + PAGE, FIRST)
  {
    var s := FirstShape();
    assert Tagged(mem', s.blk, FIRST);
    forall i {:trigger Ring(mem', Head(i), s.free[i])} | 0 <= i < LISTS ensures Ring(mem', Head(i), s.free[i]) {
      assert s.free[i] == [];
      assert Joined(mem', Head(i), [], 0);
    }
    forall i {:trigger Chain(mem', s.quick[i])} | 0 <= i < LISTS ensures Chain(mem', s.quick[i]) {
      assert s.quick[i] == [];
    }
    assert InHeap(s.blk, START + PAGE, FIRST) && Even(s.blk, FIRST) && PrvRight(s.blk, FIRST);
    FirstIndexed(s);
  }

  lemma FirstIndexed(s: Shape)
    requires s == FirstShape()
    ensures Indexed(s)
  {
    forall i {:trigger WellSized(s, i)} | 0 <= i < LISTS ensures WellSized(s, i) {
      assert s.free[i] == [] && s.quick[i] == [];
    }
    assert forall i | 0 <= i < LISTS :: s.free[i] == [] && s.quick[i] == [];
  }

  /** Blocks of one quick class all have the same size. */
  lemma QuickSizes(rows: nat, size: nat)
    requires QuickClass(rows) == QuickClass(size) != -1
    ensures rows == size
  {
  }

  lemma PopClients(mem: Memory, end: int, s: Shape, i: int)
    requires Core(mem, end, s) && 0 <= i < LISTS && |s.quick[i]| > 0 && s.quick[i][0] + 2 in s.blk
    ensures SameClients(mem, s.blk, mem, PopShape(s, i).blk, s.quick[i][0] + 2)
  {
    var b := s.quick[i][0] + 2;
    RestateClients(mem, mem, end, s.blk, b, Used);
  }

  lemma PoppedReady(s: Shape, end: int, i: int, last: int)
    requires Layout(s.blk, end) && 0 <= i < |s.quick| && |s.quick[i]| > 0 && s.quick[i][0] + 2 in s.blk
    requires s.loose == {} && Coalesced(s.blk, {}) && EndsHeap(s.blk, end, last)
    ensures var t := PopShape(s, i); Coalesced(t.blk, {}) && EndsHeap(t.blk, end, last) && t.loose == {}
  {
    TakenCoalesced(s.blk, end, s.quick[i][0] + 2, Used, {});
  }

  // ----- searching -----

  /** No free block has `size` rows. */
  ghost predicate NoFit(blk: Blocks, size: int) {
    forall b {:trigger blk[b]} | b in blk && blk[b].state.Free? :: blk[b].rows < size
  }

  /** No block of free list `i` has `size` rows. */
  ghost predicate NoFitIn(s: Shape, i: int, size: int) {
    0 <= i < |s.free| && forall j | 0 <= j < |s.free[i]| :: FreeEntry(s, i, j) && s.blk[s.free[i][j] + 2].rows < size
  }

  /** The lists from the request's class up to `index` have been searched in vain. */
  ghost predicate SearchedBelow(s: Shape, index: int, size: int)
    requires size >= 0
  {
    forall i {:trigger NoFitIn(s, i, size)} | MainClass(size) <= i < index :: NoFitIn(s, i, size)
  }

  /** The lists below `index` have been searched in vain; `sp` is what the search of list `index` found. */
  ghost predicate SearchState(s: Shape, index: int, size: int, sp: int)
    requires size >= 0
  {
    && SearchedBelow(s, index, size)
    && (if sp == NULL then NoFitIn(s, index, size)
        else 0 <= index < |s.free|
             && exists k | 0 <= k < |s.free[index]| :: FirstFit(s, index, k, size) && s.free[index][k] == sp)
  }

  /** A block is never in a lower class than a smaller block. */
  lemma MainClassMonotone(a: nat, b: nat)
    requires MIN_ROWS <= a
    ensures a <= b ==> MainClass(a) <= MainClass(b)
  {
  }

  lemma SearchedOn(s: Shape, index: int, size: int)
    requires size >= 0 && SearchState(s, index, size, NULL)
    ensures SearchedBelow(s, index + 1, size)
  {
    hide NoFitIn;
  }

  /** The search of the classes from the request's own upward misses no free block. */
  lemma SearchFailed(s: Shape, size: int)
    requires Indexed(s) && s.loose == {} && size >= MIN_ROWS
    requires SearchedBelow(s, LISTS, size)
    ensures NoFit(s.blk, size)
  {
    forall b {:trigger s.blk[b]} | b in s.blk && s.blk[b].state.Free? ensures s.blk[b].rows < size {
      assert Listed(s, b) && OnItsList(s, b);
      var i := MainClass(s.blk[b].rows);
      if MainClass(size) <= i {
        assert NoFitIn(s, i, size);
      } else {
        MainClassMonotone(size, s.blk[b].rows);
      }
    }
  }

  lemma LooseCoalesced(blk: Blocks, loose: set<int>)
    requires Coalesced(blk, {})
    ensures Coalesced(blk, loose)
  {
    forall d {:trigger Settled(blk, d)} | d in blk && d !in loose && Next(blk, d) !in loose ensures Settled(blk, d) {
    }
  }

  lemma NullIsNoBlock(blk: Blocks, end: int)
    requires Tiled(blk, end)
    ensures !IsUsed(blk, 0)
  {
    assert 0 in blk ==> InHeap(blk, end, 0);
  }

  lemma SameClientsRefl(m: Memory, blk: Blocks)
    ensures SameClients(m, blk, m, blk, 0)
  {
  }

  /** A step that spares every client, before a step that may touch the client at `x`. */
  lemma SameClientsTwice(m0: Memory, b0: Blocks, m1: Memory, b1: Blocks, m2: Memory,
          b2: Blocks, x: int)
    requires SameClients(m0, b0, m1, b1, 0) && SameClients(m1, b1, m2, b2, x)
    requires !IsUsed(b0, 0) && !IsUsed(b1, 0)
    ensures SameClients(m0, b0, m2, b2, x) && (IsUsed(b0, x) <==> IsUsed(b1, x))
  {
    forall d {:trigger SameClient(m0, b0, m2, b2, d)} | d != x ensures SameClient(m0, b0, m2, b2, d) {
      assert SameClient(m0, b0, m1, b1, d) && SameClient(m1, b1, m2, b2, d);
    }
    assert SameClient(m0, b0, m1, b1, x);
  }

  /** The first block of a quick list fits every request of its class. */
  lemma QuickHeadFits(s: Shape, i: int, size: nat)
    requires Indexed(s) && 0 <= i < LISTS && QuickClass(size) == i
    ensures |s.quick[i]| > 0 ==> QuickEntry(s, i, 0) && s.blk[s.quick[i][0] + 2].rows == size
  {
    if |s.quick[i]| > 0 {
      assert QuickEntry(s, i, 0);
      QuickSizes(s.blk[s.quick[i][0] + 2].rows, size);
    }
  }

  // ----- freeing -----

  lemma LastAfterRestate(blk: Blocks, end: int, b: int, st: State, last: int)
    requires Layout(blk, end) && b in blk && EndsHeap(blk, end, last)
    ensures EndsHeap(WithState(blk, b, st), end, last)
  {
  }

  lemma LastAfterMerge(blk: Blocks, blk': Blocks, end: int, b: int, r: int, last: int, last': int)
    requires Layout(blk, end) && b in blk && MergedFrom(blk, blk', b, r) && r in blk' && EndsHeap(blk, end, last)
    requires last' == if blk' != blk && Next(blk', r) == end then r else last
    ensures EndsHeap(blk', end, last')
  {
    NextExists(blk, end, b);
    NextInjective(blk, end, b, last);
    if Next(blk, b) in blk {
      NextInjective(blk, end, Next(blk, b), last);
      NextExists(blk, end, Next(blk, b));
    }
    if r in blk { NextExists(blk, end, r); }
  }

  /** The first node of a quick list is not NULL. */
  lemma ChainHead(mem: Memory, end: int, s: Shape, i: int)
    requires Core(mem, end, s) && 0 <= i < LISTS
    ensures |s.quick[i]| > 0 <==> First(s.quick[i]) != NULL
  {
    if |s.quick[i]| > 0 {
      assert QuickEntry(s, i, 0);
      assert InHeap(s.blk, end, s.quick[i][0] + 2);
    }
  }

  /** Marking a used block as used once more changes nothing. */
  lemma RestateSame(s: Shape, end: int, b: int)
    requires Layout(s.blk, end) && IsUsed(s.blk, b)
    requires forall x {:trigger x in s.loose} | x in s.loose :: x in s.blk && s.blk[x].state.Free?
    ensures RestateShape(s, b, Used) == s
  {
    assert PrvRight(s.blk, b);
    assert WithState(s.blk, b, Used) == s.blk;
    assert s.loose - {b} == s.loose;
  }

  /** The client that owns `b` writes into its payload. */
  lemma RestatePayload(mem: Memory, mem': Memory, end: int, s: Shape, b: int)
    requires Core(mem, end, s) && IsUsed(s.blk, b) && OnlyWithin(mem, mem', b, Next(s.blk, b) - 2)
    ensures Core(mem', end, s) && SameClients(mem, s.blk, mem', s.blk, b)
  {
    RestateSame(s, end, b);
    assert WithState(s.blk, b, Used) == s.blk == RestateShape(s, b, Used).blk;
    assert Tagged(mem, s.blk, b) && InHeap(s.blk, end, b);
    var n := Next(s.blk, b);
    if n in s.blk {
      assert Tagged(mem, s.blk, n);
      AwayKept(mem, mem', end, s.blk, b, n);
      TagKept(mem, mem', s.blk, s.blk, n);
    }
    RestateStep(mem, mem', end, s, b, Used);
    RestateClients(mem, mem', end, s.blk, b, Used);
  }

  lemma PushedReady(s: Shape, end: int, b: int, last: int)
    requires Layout(s.blk, end) && b in s.blk && 0 <= QuickClass(s.blk[b].rows) < |s.quick|
    requires s.loose == {} && Coalesced(s.blk, {}) && EndsHeap(s.blk, end, last)
    ensures var t := PushShape(s, b); Coalesced(t.blk, {}) && EndsHeap(t.blk, end, last) && t.loose == {}
  {
    TakenCoalesced(s.blk, end, b, Quick, {});
  }

  lemma PushClients(mem: Memory, end: int, s: Shape, b: int)
    requires Core(mem, end, s) && b in s.blk && 0 <= QuickClass(s.blk[b].rows) < |s.quick|
    ensures SameClients(mem, s.blk, mem, PushShape(s, b).blk, b)
  {
    RestateClients(mem, mem, end, s.blk, b, Quick);
  }

  lemma PayloadRows(mem: Memory, end: int, s: Shape, b: int)
    requires Core(mem, end, s) && b in s.blk
    ensures 1 <= b && Next(s.blk, b) <= |mem| && s.blk[b].rows >= MIN_ROWS
  {
    assert InHeap(s.blk, end, b);
  }

  lemma FreedClients(m1: Memory, b1: Blocks, m2: Memory, m3: Memory, b3: Blocks, pp: int, lp: int)
    requires SameClients(m1, b1, m2, b1, lp) && SameClients(m2, b1, m3, b3, pp) && lp != pp
    ensures SameClient(m2, b1, m3, b3, lp)
    ensures forall d {:trigger SameClient(m1, b1, m3, b3, d)} | d != pp && d != lp :: SameClient(m1, b1, m3, b3, d)
  {
    assert SameClient(m2, b1, m3, b3, lp);
    forall d {:trigger SameClient(m1, b1, m3, b3, d)} | d != pp && d != lp ensures SameClient(m1, b1, m3, b3, d) {
      assert SameClient(m1, b1, m2, b1, d) && SameClient(m2, b1, m3, b3, d);
    }
  }

  lemma MovedClients(m0: Memory, b0: Blocks, m1: Memory, b1: Blocks, m3: Memory, b3: Blocks,
          pp: int, lp: int)
    requires SameClients(m0, b0, m1, b1, lp)
    requires forall d {:trigger SameClient(m1, b1, m3, b3, d)} | d != pp && d != lp :: SameClient(m1, b1, m3, b3, d)
    ensures forall d {:trigger SameClient(m0, b0, m3, b3, d)} | d != pp && d != lp :: SameClient(m0, b0, m3, b3, d)
  {
    forall d {:trigger SameClient(m0, b0, m3, b3, d)} | d != pp && d != lp ensures SameClient(m0, b0, m3, b3, d) {
      assert SameClient(m0, b0, m1, b1, d) && SameClient(m1, b1, m3, b3, d);
    }
  }

  /** Row `k` from `dst` on equals what was row `k` from `src` on. */
  ghost predicate RowCopied(mem: Memory, src: int, mem': Memory, dst: int, k: int) {
    0 <= src + k < |mem| && 0 <= dst + k < |mem'| && mem'[dst + k] == mem[src + k]
  }

  /** `n` rows from `src` on are found again from `dst` on. */
  ghost predicate Copied(mem: Memory, src: int, mem': Memory, dst: int, n: int) {
    forall k {:trigger RowCopied(mem, src, mem', dst, k)} | 0 <= k < n :: RowCopied(mem, src, mem', dst, k)
  }

  lemma CopiedThenKept(m1: Memory, src: int, m2: Memory, dst: int, n: int, m3: Memory,
          end: int, blk: Blocks)
    requires Copied(m1, src, m2, dst, n) && dst in blk && n <= blk[dst].rows - 1 && KeptPayload(m2, m3, blk, dst)
    ensures Copied(m1, src, m3, dst, n)
  {
    forall k {:trigger RowCopied(m1, src, m3, dst, k)} | 0 <= k < n ensures RowCopied(m1, src, m3, dst, k) {
      assert RowCopied(m1, src, m2, dst, k);
    }
  }

  lemma KeptThenCopied(m0: Memory, m1: Memory, src: int, m2: Memory, dst: int, n: int, blk: Blocks)
    requires src in blk && n <= blk[src].rows - 1 && KeptPayload(m0, m1, blk, src) && Copied(m1, src, m2, dst, n)
    ensures Copied(m0, src, m2, dst, n)
  {
    forall k {:trigger RowCopied(m0, src, m2, dst, k)} | 0 <= k < n ensures RowCopied(m0, src, m2, dst, k) {
      assert RowCopied(m1, src, m2, dst, k);
    }
  }
}
