/** What the allocator does to the order of its free lists: entries leave where they are, and enter in front. */
module HeapLists {
  import opened HeapGeometry
  import opened HeapInvariant
  import opened HeapSteps

  function Except(L: seq<int>, gone: set<int>): seq<int>
    decreases |L|
  {
    if L == [] then []
    else if L[0] in gone then Except(L[1..], gone)
    else [L[0]] + Except(L[1..], gone)
  }

  /** All lists without the entries `gone`, the others in their order. */
  function ExceptAll(free: seq<seq<int>>, gone: set<int>): (r: seq<seq<int>>)
    ensures |r| == |free|
  {
    seq(|free|, i requires 0 <= i < |free| => Except(free[i], gone))
  }

  /** Entry `sp` is put in front of the list for blocks of `rows` rows. */
  ghost predicate Fronted(free: seq<seq<int>>, free': seq<seq<int>>, rows: nat, sp: int) {
    var c := MainClass(rows);
    0 <= c < |free| && free' == free[c := [sp] + free[c]]
  }

  lemma {:induction false} ExceptNone(L: seq<int>, gone: set<int>)
    requires forall j | 0 <= j < |L| :: L[j] !in gone
    ensures Except(L, gone) == L
    decreases |L|
  {
    if L != [] {
      ExceptNone(L[1..], gone);
      assert L == [L[0]] + L[1..];
    }
  }

  lemma {:induction false} ExceptOne(L: seq<int>, k: int)
    requires NoDup(L) && 0 <= k < |L|
    ensures Except(L, {L[k]}) == L[..k] + L[k + 1..]
    decreases k
  {
    if k == 0 {
      ExceptNone(L[1..], {L[0]});
    } else {
      assert L[1..][k - 1] == L[k] && L[0] != L[k];
      ExceptOne(L[1..], k - 1);
      assert L[1..][..k - 1] == L[1..k] && L[1..][k..] == L[k + 1..];
      assert L[..k] == [L[0]] + L[1..k];
    }
  }

  lemma {:induction false} ExceptTwice(L: seq<int>, a: set<int>, b: set<int>)
    ensures Except(Except(L, a), b) == Except(L, a + b)
    decreases |L|
  {
    if L != [] {
      ExceptTwice(L[1..], a, b);
      var rest := Except(L[1..], a);
      assert ([L[0]] + rest)[1..] == rest;
    }
  }

  lemma ExceptAllTwice(free: seq<seq<int>>, a: set<int>, b: set<int>)
    ensures ExceptAll(ExceptAll(free, a), b) == ExceptAll(free, a + b)
  {
    forall i | 0 <= i < |free|
      ensures Except(Except(free[i], a), b) == Except(free[i], a + b)
    {
      ExceptTwice(free[i], a, b);
    }
  }

  lemma ExceptAllNone(free: seq<seq<int>>, gone: set<int>)
    requires forall i, j | 0 <= i < |free| && 0 <= j < |free[i]| :: free[i][j] !in gone
    ensures ExceptAll(free, gone) == free
  {
    forall i | 0 <= i < |free|
      ensures Except(free[i], gone) == free[i]
    {
      ExceptNone(free[i], gone);
    }
  }

  /** What has just been put in front leaves no trace when it is taken out again. */
  lemma ExceptFronted(free: seq<seq<int>>, free': seq<seq<int>>, rows: nat, sp: int)
    requires Fronted(free, free', rows, sp)
    ensures ExceptAll(free', {sp}) == ExceptAll(free, {sp})
  {
    var c := MainClass(rows);
    assert ([sp] + free[c])[1..] == free[c];
    assert Except([sp] + free[c], {sp}) == Except(free[c], {sp});
    assert forall i | 0 <= i < |free| :: Except(free'[i], {sp}) == Except(free[i], {sp});
  }

  /** Taking an entry off its list takes it off all lists. */
  lemma UnlinkExcept(s: Shape, i: int, k: int)
    requires Indexed(s) && 0 <= i < LISTS && 0 <= k < |s.free[i]|
    ensures UnlinkShape(s, i, k).free == ExceptAll(s.free, {s.free[i][k]})
  {
    var sp := s.free[i][k];
    assert WellSized(s, i) && FreeEntry(s, i, k);
    ExceptOne(s.free[i], k);
    forall n | 0 <= n < LISTS && n != i
      ensures Except(s.free[n], {sp}) == s.free[n]
    {
      forall j | 0 <= j < |s.free[n]|
        ensures s.free[n][j] != sp
      {
        assert FreeEntry(s, n, j);
      }
      ExceptNone(s.free[n], {sp});
    }
  }

  /** A block that is on no free list leaves none. */
  lemma UnlistedExcept(s: Shape, b: int)
    requires Indexed(s) && (b in s.blk && s.blk[b].state.Free? ==> b in s.loose)
    ensures ExceptAll(s.free, {b - 2}) == s.free
  {
    forall i, j | 0 <= i < |s.free| && 0 <= j < |s.free[i]|
      ensures s.free[i][j] !in {b - 2}
    {
      assert FreeEntry(s, i, j);
    }
    ExceptAllNone(s.free, {b - 2});
  }

  lemma LinkFronted(s: Shape, b: int)
    requires b in s.blk && 0 <= MainClass(s.blk[b].rows) < |s.free|
    ensures Fronted(s.free, LinkShape(s, b).free, s.blk[b].rows, b - 2)
  {
  }

  // ----- what coalescing and allocating take from and give to the lists -----

  /** The entry of the block after `b`, if that is free. */
  function NextEntry(blk: Blocks, b: int): set<int>
    requires b in blk
  {
    var n := Next(blk, b);
    if n in blk && blk[n].state.Free? then {n - 2} else {}
  }

  /** The rows behind the first `size` of block `b`, with those of a free block after it. */
  function RestRows(blk: Blocks, b: int, size: int): int
    requires b in blk
  {
    var n := Next(blk, b);
    blk[b].rows - size + (if n in blk && blk[n].state.Free? then blk[n].rows else 0)
  }

  /** The lists after `size` rows of block `b` went to a client: a rest that is no splinter enters in front. */
  ghost predicate RestListed(blk: Blocks, free: seq<seq<int>>, free': seq<seq<int>>, b: int, size: int)
    requires b in blk
  {
    if blk[b].rows - size < MIN_ROWS then free' == free
    else RestRows(blk, b, size) >= 0
         && Fronted(ExceptAll(free, NextEntry(blk, b)), free', RestRows(blk, b, size), b + size - 2)
  }
}
