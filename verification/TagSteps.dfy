/** Steps that rewrite headers and footers: merging, splitting, changing a block's state, growing. */
module TagSteps {
  import opened HeapGeometry
  import opened LinkRings
  import opened HeapInvariant

  /** Rows `lo .. hi` may change, all other rows stay. */
  ghost predicate OnlyWithin(mem: Memory, mem': Memory, lo: int, hi: int) {
    |mem'| == |mem| && forall r | 0 <= r < |mem| && !(lo <= r <= hi) :: mem'[r] == mem[r]
  }

  lemma KeptMeansLinksKept(mem: Memory, mem': Memory, end: int, blk: Blocks, d: int)
    requires d in blk && InHeap(blk, end, d) && KeptBlock(mem, mem', blk, d)
    ensures KeptLinks(mem, mem', d)
  {
  }

  lemma AwayKept(mem: Memory, mem': Memory, end: int, blk: Blocks, b: int, d: int)
    requires Tiled(blk, end) && b in blk && d in blk && d != b && OnlyWithin(mem, mem', b - 1, Next(blk, b) - 2)
    ensures KeptBlock(mem, mem', blk, d)
  {
    RowsApart(blk, end, d, b);
  }

  function MergeShape(s: Shape, b: int, c: int): Shape
    requires b in s.blk && c in s.blk
  {
    s.(blk := Absorb(s.blk, b, c), loose := s.loose - {c})
  }

  /** Two unlisted neighbours become one block, whose header and footer carry the total size. */
  lemma MergeStep(mem: Memory, mem': Memory, end: int, s: Shape, b: int, c: int)
    requires Core(mem, end, s) && b in s.loose && c in s.loose && b in s.blk && c in s.blk && Next(s.blk, b) == c
    requires OnlyWithin(mem, mem', b - 1, Next(s.blk, c) - 2)
    requires Tagged(mem', Absorb(s.blk, b, c), b)
    ensures Core(mem', end, MergeShape(s, b, c))
  {
    var s' := MergeShape(s, b, c);
    var blk' := s'.blk;
    AbsorbLayout(s.blk, end, b, c);
    assert InHeap(s.blk, end, b) && InHeap(s.blk, end, c);
    forall d {:trigger KeptBlock(mem, mem', s.blk, d)} | d in s.blk && d != b && d != c
      ensures KeptBlock(mem, mem', s.blk, d)
    {
      RowsApart(s.blk, end, d, b);
      RowsApart(s.blk, end, d, c);
    }
    forall d {:trigger Tagged(mem', blk', d)} | d in blk' ensures Tagged(mem', blk', d) {
      if d != b {
        assert Tagged(mem, s.blk, d);
        TagKept(mem, mem', s.blk, blk', d);
      }
    }
    forall d {:trigger KeptLinks(mem, mem', d)} | Listed(s, d) ensures KeptLinks(mem, mem', d) {
      assert InHeap(s.blk, end, d);
      KeptMeansLinksKept(mem, mem', end, s.blk, d);
    }
    assert forall d {:trigger SameListed(s, s', d)} :: SameListed(s, s', d);
    CoreFrame(mem, mem', end, end, s, s');
  }

  /** What a change of state of `b` leaves alone: every block but `b`, and but the prev-alloc bit of the
      next block (kept in its header, and in its footer if it is free). */
  ghost predicate OnlyBlockAndNextTag(mem: Memory, mem': Memory, blk: Blocks, b: int)
    requires b in blk
  {
    var n := Next(blk, b);
    && |mem'| == |mem|
    && forall r | 0 <= r < |mem| && !(b - 1 <= r <= n - 2) && (n in blk ==> r != n - 1)
                  && (n in blk && blk[n].state.Free? ==> r != Next(blk, n) - 2) :: mem'[r] == mem[r]
  }

  lemma UntouchedKept(mem: Memory, mem': Memory, end: int, blk: Blocks, b: int, d: int)
    requires Tiled(blk, end) && b in blk && d in blk && d != b && d != Next(blk, b)
    requires OnlyBlockAndNextTag(mem, mem', blk, b)
    ensures KeptBlock(mem, mem', blk, d)
  {
    RowsApart(blk, end, d, b);
    assert InHeap(blk, end, b) && InHeap(blk, end, d);
    if Next(blk, b) in blk {
      assert InHeap(blk, end, Next(blk, b));
      RowsApart(blk, end, d, Next(blk, b));
    }
  }

  lemma UntouchedLinksKept(mem: Memory, mem': Memory, end: int, blk: Blocks, b: int, d: int)
    requires Tiled(blk, end) && b in blk && d in blk && d != b
    requires OnlyBlockAndNextTag(mem, mem', blk, b)
    ensures KeptLinks(mem, mem', d)
  {
    assert InHeap(blk, end, d);
    if d == Next(blk, b) {
      assert InHeap(blk, end, b);
    } else {
      UntouchedKept(mem, mem', end, blk, b, d);
      KeptMeansLinksKept(mem, mem', end, blk, d);
    }
  }

  lemma HeadsUntouched(mem: Memory, mem': Memory, end: int, blk: Blocks, b: int)
    requires Tiled(blk, end) && b in blk && OnlyBlockAndNextTag(mem, mem', blk, b)
    ensures KeptHeads(mem, mem')
  {
    assert InHeap(blk, end, b);
    if Next(blk, b) in blk { assert InHeap(blk, end, Next(blk, b)); }
  }

  function RestateShape(s: Shape, b: int, st: State): Shape
    requires b in s.blk
  {
    s.(blk := WithState(s.blk, b, st), loose := if st.Free? then s.loose + {b} else s.loose - {b})
  }

  /** An unlisted block becomes free or used, and the next block's prev-alloc bit follows. */
  lemma RestateStep(mem: Memory, mem': Memory, end: int, s: Shape, b: int, st: State)
    requires Core(mem, end, s) && b in s.blk && !Listed(s, b) && !st.Quick?
    requires OnlyBlockAndNextTag(mem, mem', s.blk, b)
    requires Tagged(mem', WithState(s.blk, b, st), b)
    requires Next(s.blk, b) in s.blk ==> Tagged(mem', WithState(s.blk, b, st), Next(s.blk, b))
    ensures Core(mem', end, RestateShape(s, b, st))
  {
    var s' := RestateShape(s, b, st);
    var blk' := s'.blk;
    WithStateLayout(s.blk, end, b, st);
    assert InHeap(s.blk, end, b);
    forall d {:trigger Tagged(mem', blk', d)} | d in blk' ensures Tagged(mem', blk', d) {
      if d != b && d != Next(s.blk, b) {
        assert Tagged(mem, s.blk, d);
        UntouchedKept(mem, mem', end, s.blk, b, d);
        TagKept(mem, mem', s.blk, blk', d);
      }
    }
    forall d {:trigger KeptLinks(mem, mem', d)} | Listed(s, d) ensures KeptLinks(mem, mem', d) {
      UntouchedLinksKept(mem, mem', end, s.blk, b, d);
    }
    HeadsUntouched(mem, mem', end, s.blk, b);
    assert forall d {:trigger SameListed(s, s', d)} :: SameListed(s, s', d);
    CoreFrame(mem, mem', end, end, s, s');
  }

  function CarveShape(s: Shape, b: int, k: nat): Shape
    requires b in s.blk && k <= s.blk[b].rows
  {
    s.(blk := Carve(s.blk, b, k), loose := s.loose - {b} + {b + k})
  }

  /** An unlisted block keeps `k` rows for its client; the rest is a new free block, not yet listed. */
  lemma CarveStep(mem: Memory, mem': Memory, end: int, s: Shape, b: int, k: nat)
    requires Core(mem, end, s) && b in s.blk && !Listed(s, b)
    requires k % 2 == 0 && MIN_ROWS <= k <= s.blk[b].rows - MIN_ROWS
    requires OnlyBlockAndNextTag(mem, mem', s.blk, b)
    requires var blk' := Carve(s.blk, b, k);
             Tagged(mem', blk', b) && Tagged(mem', blk', b + k)
             && (Next(s.blk, b) in s.blk ==> Tagged(mem', blk', Next(s.blk, b)))
    ensures b + k !in s.blk && Core(mem', end, CarveShape(s, b, k))
  {
    var s' := CarveShape(s, b, k);
    var blk' := s'.blk;
    CarveLayout(s.blk, end, b, k);
    assert InHeap(s.blk, end, b);
    forall d {:trigger Tagged(mem', blk', d)} | d in blk' ensures Tagged(mem', blk', d) {
      if d != b && d != b + k && d != Next(s.blk, b) {
        assert Tagged(mem, s.blk, d);
        UntouchedKept(mem, mem', end, s.blk, b, d);
        TagKept(mem, mem', s.blk, blk', d);
      }
    }
    forall d {:trigger KeptLinks(mem, mem', d)} | Listed(s, d) ensures KeptLinks(mem, mem', d) {
      UntouchedLinksKept(mem, mem', end, s.blk, b, d);
    }
    HeadsUntouched(mem, mem', end, s.blk, b);
    assert forall d {:trigger SameListed(s, s', d)} :: SameListed(s, s', d);
    CoreFrame(mem, mem', end, end, s, s');
  }

  function GrowShape(s: Shape, end: int, prv: bool): Shape {
    s.(blk := s.blk[end := Block(PAGE, Free, prv)], loose := s.loose + {end})
  }

  /** A page is added behind the last block and becomes one free block, not yet listed. */
  lemma GrowStep(mem: Memory, mem': Memory, end: int, s: Shape, last: int)
    requires Core(mem, end, s) && end % 2 == 0 && last in s.blk && Next(s.blk, last) == end
    requires end + PAGE <= |mem| && OnlyWithin(mem, mem', end - 1, end + PAGE - 2)
    requires var page := Block(PAGE, Free, !s.blk[last].state.Free?);
             mem'[end - 1] == Header(page) && mem'[end + PAGE - 2] == Header(page)
    ensures end !in s.blk && Core(mem', end + PAGE, GrowShape(s, end, !s.blk[last].state.Free?))
  {
    var page := Block(PAGE, Free, !s.blk[last].state.Free?);
    var s' := GrowShape(s, end, page.prv);
    GrowLayout(s.blk, end, last, page);
    forall d {:trigger KeptBlock(mem, mem', s.blk, d)} | d in s.blk ensures KeptBlock(mem, mem', s.blk, d) {
      assert InHeap(s.blk, end, d);
    }
    forall d {:trigger Tagged(mem', s'.blk, d)} | d in s'.blk ensures Tagged(mem', s'.blk, d) {
      if d != end {
        assert Tagged(mem, s.blk, d);
        TagKept(mem, mem', s.blk, s'.blk, d);
      }
    }
    forall d {:trigger KeptLinks(mem, mem', d)} | Listed(s, d) ensures KeptLinks(mem, mem', d) {
      assert InHeap(s.blk, end, d);
      KeptMeansLinksKept(mem, mem', end, s.blk, d);
    }
    assert forall d {:trigger SameListed(s, s', d)} :: SameListed(s, s', d);
    CoreFrame(mem, mem', end, end + PAGE, s, s');
  }

  // ----- quick lists -----

  function PopShape(s: Shape, i: int): Shape
    requires 0 <= i < |s.quick| && |s.quick[i]| > 0 && s.quick[i][0] + 2 in s.blk
  {
    s.(blk := WithState(s.blk, s.quick[i][0] + 2, Used), quick := s.quick[i := s.quick[i][1..]])
  }

  /** The first block leaves quick list `i`; memory does not change. */
  lemma PopStep(mem: Memory, end: int, s: Shape, i: int)
    requires Core(mem, end, s) && 0 <= i < LISTS && |s.quick[i]| > 0
    ensures s.quick[i][0] + 2 in s.blk && Core(mem, end, PopShape(s, i))
  {
    assert QuickEntry(s, i, 0) && WellSized(s, i);
    var b := s.quick[i][0] + 2;
    var s' := PopShape(s, i);
    WithStateLayout(s.blk, end, b, Used);
    assert PrvRight(s.blk, b) && InHeap(s.blk, end, b);
    forall d {:trigger Tagged(mem, s'.blk, d)} | d in s'.blk ensures Tagged(mem, s'.blk, d) {
      assert Tagged(mem, s.blk, d);
    }
    PopIndex(s, i, end);
    forall n {:trigger Chain(mem, s'.quick[n])} | 0 <= n < LISTS ensures Chain(mem, s'.quick[n]) {
      assert Chain(mem, s.quick[n]);
      forall j {:trigger Chained(mem, s'.quick[n], j)} | 0 <= j < |s'.quick[n]| ensures Chained(mem, s'.quick[n], j) {
        assert Chained(mem, s.quick[n], if n == i then j + 1 else j);
      }
    }
  }

  lemma PopIndex(s: Shape, i: int, end: int)
    requires Layout(s.blk, end) && Indexed(s) && 0 <= i < LISTS && |s.quick[i]| > 0
    requires QuickEntry(s, i, 0)
    ensures Indexed(PopShape(s, i))
  {
    var b := s.quick[i][0] + 2;
    var s' := PopShape(s, i);
    assert InHeap(s.blk, end, b) && WellSized(s, i);
    forall n {:trigger WellSized(s', n)} | 0 <= n < LISTS ensures WellSized(s', n) {
      assert WellSized(s, n);
    }
    forall n, j {:trigger FreeEntry(s', n, j)} | 0 <= n < LISTS && 0 <= j < |s'.free[n]| ensures FreeEntry(s', n, j) {
      assert FreeEntry(s, n, j);
    }
    forall n, j {:trigger QuickEntry(s', n, j)} | 0 <= n < LISTS && 0 <= j < |s'.quick[n]|
      ensures QuickEntry(s', n, j)
    {
      assert QuickEntry(s, n, if n == i then j + 1 else j);
    }
    forall d {:trigger OnItsList(s', d)} | Listed(s', d) ensures OnItsList(s', d) {
      assert OnItsList(s, d);
    }
  }

  function PushShape(s: Shape, b: int): Shape
    requires b in s.blk && 0 <= QuickClass(s.blk[b].rows) < |s.quick|
  {
    var i := QuickClass(s.blk[b].rows);
    s.(blk := WithState(s.blk, b, Quick), quick := s.quick[i := [b - 2] + s.quick[i]])
  }

  /** A used block of quick size goes to the front of its quick list. */
  lemma PushStep(mem: Memory, mem': Memory, end: int, s: Shape, b: int)
    requires Core(mem, end, s) && b in s.blk && s.blk[b].state.Used?
    requires var i := QuickClass(s.blk[b].rows);
             0 <= i < LISTS && |s.quick[i]| < QUICK_MAX
             && |mem'| == |mem| && Fits(mem, b - 2)
             && mem'[b] == (if s.quick[i] == [] then NULL else s.quick[i][0])
    requires OnlyWithin(mem, mem', b, Next(s.blk, b) - 2)
    ensures Core(mem', end, PushShape(s, b))
  {
    var i, s' := QuickClass(s.blk[b].rows), PushShape(s, b);
    WithStateLayout(s.blk, end, b, Quick);
    assert PrvRight(s.blk, b) && InHeap(s.blk, end, b);
    forall d {:trigger Tagged(mem', s'.blk, d)} | d in s'.blk ensures Tagged(mem', s'.blk, d) {
      assert Tagged(mem, s.blk, d) && InHeap(s.blk, end, d);
      if d != b { RowsApart(s.blk, end, d, b); }
    }
    PushIndex(s, b, end);
    forall d {:trigger KeptLinks(mem, mem', d)} | Listed(s, d) ensures KeptLinks(mem, mem', d) {
      assert InHeap(s.blk, end, d);
      AwayKept(mem, mem', end, s.blk, b, d);
      KeptMeansLinksKept(mem, mem', end, s.blk, d);
    }
    LinksFrame(mem, mem', s);
    forall n {:trigger Chain(mem', s'.quick[n])} | 0 <= n < LISTS ensures Chain(mem', s'.quick[n]) {
      assert Chain(mem', s.quick[n]);
      forall j {:trigger Chained(mem', s'.quick[n], j)} | 0 <= j < |s'.quick[n]| ensures Chained(mem', s'.quick[n], j) {
        if n != i { assert Chained(mem', s.quick[n], j); }
        if n == i && j > 0 { assert Chained(mem', s.quick[n], j - 1); }
      }
    }
  }

  lemma PushIndex(s: Shape, b: int, end: int)
    requires Layout(s.blk, end) && Indexed(s) && b in s.blk && s.blk[b].state.Used?
    requires var i := QuickClass(s.blk[b].rows); 0 <= i < LISTS && |s.quick[i]| < QUICK_MAX
    ensures Indexed(PushShape(s, b))
  {
    var i, s' := QuickClass(s.blk[b].rows), PushShape(s, b);
    assert InHeap(s.blk, end, b);
    forall n {:trigger WellSized(s', n)} | 0 <= n < LISTS ensures WellSized(s', n) {
      assert WellSized(s, n);
      forall j, k | 0 <= j < k < |s'.quick[n]| ensures s'.quick[n][j] != s'.quick[n][k] {
        if n == i { assert QuickEntry(s, i, k - 1); }
      }
    }
    forall n, j {:trigger FreeEntry(s', n, j)} | 0 <= n < LISTS && 0 <= j < |s'.free[n]| ensures FreeEntry(s', n, j) {
      assert FreeEntry(s, n, j);
    }
    forall n, j {:trigger QuickEntry(s', n, j)} | 0 <= n < LISTS && 0 <= j < |s'.quick[n]|
      ensures QuickEntry(s', n, j)
    {
      if n != i { assert QuickEntry(s, n, j); }
      if n == i && j > 0 { assert QuickEntry(s, i, j - 1); }
    }
    forall d {:trigger OnItsList(s', d)} | Listed(s', d) ensures OnItsList(s', d) {
      if d != b { assert OnItsList(s, d); }
    }
  }
}
