/** Every run of the allocator keeps its promise to the clients. */
module HeapRuns {
  import opened HeapGeometry
  import opened LinkRings
  import opened HeapInvariant
  import opened HeapClients
  import opened HeapMoves
  import opened RequestSize
  import opened HeapTheorems
  import opened Allocator

  /** The outstanding payloads with their contents. */
  ghost function View(h: Heap): map<int, seq<int>>
    reads h, h.mem
  {
    Payloads(h.mem[..], h.s.blk)
  }

  lemma ValidInMemory(h: Heap)
    requires h.Valid()
    ensures InMemory(h.mem[..], h.s.blk)
    ensures forall p {:trigger p in View(h)} :: p in View(h) ==> h.end > START
  {
    if h.end != START { CoreInMemory(h.mem[..], h.end, h.s); }
  }

  lemma NullUnused(t: Shape, start: int)
    requires t.blk == map[] || Tiled(t.blk, start)
    ensures !IsUsed(t.blk, NULL)
  {
    if t.blk != map[] { NullIsNoBlock(t.blk, start); }
  }

  lemma KeysAfter(m: Memory, b: Blocks, m': Memory, b': Blocks, x: int, y: int)
    requires InMemory(m, b) && InMemory(m', b')
    requires forall d {:trigger SameClient(m, b, m', b', d)} | d != x && d != y :: SameClient(m, b, m', b', d)
    ensures Payloads(m', b').Keys - {x, y} == Payloads(m, b).Keys - {x, y}
  {
    forall d | d != x && d != y ensures d in Payloads(m, b) <==> d in Payloads(m', b') {
      assert SameClient(m, b, m', b', d);
      SparedPayload(m, b, m', b', d);
    }
  }

  method DoMalloc(h: Heap, n: int) returns (bp: int)
    requires h.Valid() && 0 <= n < SIZE_T
    modifies h, h.mem, h.quickLists
    ensures h.Valid() && Effect(Op.Malloc(n), old(View(h)), View(h), Full(h.s.blk, h.end, h.limit, n))
    ensures View(h).Keys == old(View(h)).Keys + (if bp == NULL then {} else {bp})
  {
    ghost var m, t := h.mem[..], h.s;
    ValidInMemory(h);
    NullUnused(t, h.end);
    bp := h.SfMalloc(n);
    ValidInMemory(h);
    if h.end == START {
      assert h.s.blk == t.blk == map[];
    } else {
      MallocEffect(m, t.blk, h.mem[..], h.end, h.s, bp, n, h.limit);
      NullUnused(h.s, h.end);
      MallocKeys(m, t.blk, h.mem[..], h.s.blk, bp);
    }
  }

  method DoFree(h: Heap, p: int)
    requires h.Valid() && p in View(h)
    modifies h, h.mem, h.quickLists
    ensures h.Valid() && View(h) == old(View(h)) - {p}
  {
    ghost var m, t := h.mem[..], h.s;
    ValidInMemory(h);
    h.SfFree(p);
    ReleaseEffect(m, h.end, t, h.mem[..], h.end, h.s, p);
  }

  method DoRealloc(h: Heap, p: int, n: int) returns (r: int)
    requires h.Valid() && p in View(h) && 0 <= n < SIZE_T
    modifies h, h.mem, h.quickLists
    ensures h.Valid() && Effect(Op.Realloc(p, n), old(View(h)), View(h), Full(h.s.blk, h.end, h.limit, n))
    ensures View(h).Keys == if n == 0 then old(View(h)).Keys - {p}
                            else if r == NULL then old(View(h)).Keys else old(View(h)).Keys - {p} + {r}
  {
    ghost var m, t, end0 := h.mem[..], h.s, h.end;
    ValidInMemory(h);
    PayloadOf(m, t.blk, p);
    NullUnused(t, end0);
    r := h.SfRealloc(p, n);
    ValidInMemory(h);
    NullUnused(h.s, h.end);
    ReallocKeys(m, t.blk, h.mem[..], h.s.blk, p, r, n);
    if n == 0 {
      SpareNull(m, t.blk, h.mem[..], h.s.blk, p);
      ReleaseEffect(m, end0, t, h.mem[..], h.end, h.s, p);
    } else {
      ReallocEffect(m, end0, t, h.mem[..], h.end, h.s, p, r, n, h.limit);
    }
  }

  method DoWrite(h: Heap, p: int, k: int, v: int)
    requires h.Valid() && p in View(h) && 0 <= k < |View(h)[p]|
    modifies h, h.mem, h.quickLists
    ensures h.Valid() && View(h) == old(View(h))[p := old(View(h))[p][k := v]]
  {
    ghost var m := h.mem[..];
    ValidInMemory(h);
    PayloadOf(m, h.s.blk, p);
    assert p + k < |m|;
    h.mem[p + k] := v;
    assert h.mem[..] == m[p + k := v];
    WriteEffect(m, h.mem[..], h.end, h.s, p, k, v);
  }

  lemma SpareNull(m: Memory, b: Blocks, m': Memory, b': Blocks, p: int)
    requires !IsUsed(b, NULL) && !IsUsed(b', NULL)
    requires forall d {:trigger SameClient(m, b, m', b', d)} | d != p && d != NULL :: SameClient(m, b, m', b', d)
    ensures SameClients(m, b, m', b', p)
  {
    forall d {:trigger SameClient(m, b, m', b', d)} | d != p ensures SameClient(m, b, m', b', d) {
      assert d != NULL ==> SameClient(m, b, m', b', d);
    }
  }

  lemma MallocKeys(m: Memory, b: Blocks, m': Memory, b': Blocks, bp: int)
    requires InMemory(m, b) && InMemory(m', b') && SameClients(m, b, m', b', bp)
    requires if bp == NULL then !IsUsed(b, NULL) && !IsUsed(b', NULL) else IsUsed(b', bp)
    ensures Payloads(m', b').Keys == Payloads(m, b).Keys + (if bp == NULL then {} else {bp})
  {
    var K, K' := Payloads(m, b).Keys, Payloads(m', b').Keys;
    KeysAfter(m, b, m', b', bp, bp);
    PayloadOf(m, b, bp);
    PayloadOf(m', b', bp);
    forall d ensures d in K' <==> d in K + (if bp == NULL then {} else {bp}) {
      if d != bp { assert d in K' <==> d in K' - {bp, bp}; }
    }
  }

  lemma ReallocKeys(m: Memory, b: Blocks, m': Memory, b': Blocks, p: int, r: int, n: int)
    requires InMemory(m, b) && InMemory(m', b') && IsUsed(b, p) && !IsUsed(b, NULL)
    requires n == 0 ==> r == NULL && !IsUsed(b', p)
    requires n != 0 && r == NULL ==> IsUsed(b', p)
    requires r != NULL ==> IsUsed(b', r) && (r != p ==> !IsUsed(b', p))
    requires r == NULL ==> !IsUsed(b', NULL)
    requires forall d {:trigger SameClient(m, b, m', b', d)} | d != p && d != r :: SameClient(m, b, m', b', d)
    ensures Payloads(m', b').Keys == if n == 0 then Payloads(m, b).Keys - {p}
                                     else if r == NULL then Payloads(m, b).Keys else Payloads(m, b).Keys - {p} + {r}
  {
    var K, K' := Payloads(m, b).Keys, Payloads(m', b').Keys;
    KeysAfter(m, b, m', b', p, r);
    PayloadOf(m, b, p);
    PayloadOf(m', b', p);
    PayloadOf(m, b, r);
    PayloadOf(m', b', r);
    forall d ensures d in K' <==> d in (if n == 0 then K - {p} else if r == NULL then K else K - {p} + {r}) {
      if d != p && d != r { assert d in K' <==> d in K' - {p, r}; }
    }
  }

  // ----- runs -----

  /** The outstanding payloads, the blocks, and how far the heap reaches. */
  datatype Snapshot = Snapshot(payloads: map<int, seq<int>>, blk: Blocks, end: int)

  ghost function Snap(h: Heap): Snapshot
    reads h, h.mem
  {
    Snapshot(View(h), h.s.blk, h.end)
  }

  function Asked(op: Op): int {
    match op
    case Malloc(n) => n
    case Realloc(p, n) => n
    case _ => 0
  }

  /** A call with a pointer the client does not own, or outside the payload it owns, is not made. */
  ghost predicate Transition(op: Op, a: Snapshot, b: Snapshot, limit: int) {
    if Allowed(a.payloads, op) then Effect(op, a.payloads, b.payloads, Full(b.blk, b.end, limit, Asked(op))) else b == a
  }

  /** The snapshots after the first `n` calls, from the empty heap on. */
  ghost predicate Follows(ops: seq<Op>, shots: seq<Snapshot>, limit: int, n: int) {
    && 0 <= n <= |ops| && |shots| == n + 1 && shots[0].payloads == map[]
    && forall i {:trigger ops[i]} | 0 <= i < n :: Transition(ops[i], shots[i], shots[i + 1], limit)
  }

  lemma FollowsOn(ops: seq<Op>, shots: seq<Snapshot>, limit: int, n: int, c: Snapshot)
    requires Follows(ops, shots, limit, n) && n < |ops| && Transition(ops[n], shots[n], c, limit)
    ensures Follows(ops, shots + [c], limit, n + 1)
  {
    hide Transition;
  }

  /** Any sequence of calls on a fresh heap: the heap stays valid, and from call to call the outstanding
      payloads change only as `Effect` promises. */
  method Run(h: Heap, ops: seq<Op>) returns (ghost shots: seq<Snapshot>)
    requires h.Valid() && h.end == START
    modifies h, h.mem, h.quickLists
    ensures h.Valid()
    ensures Follows(ops, shots, h.limit, |ops|) && shots[|ops|] == Snap(h)
  {
    var owned: set<int> := {};
    shots := [Snap(h)];
    for i := 0 to |ops|
      invariant h.Valid() && Follows(ops, shots, h.limit, i) && shots[i] == Snap(h) && owned == View(h).Keys
    {
      owned := Perform(h, ops[i], owned);
      FollowsOn(ops, shots, h.limit, i, Snap(h));
      shots := shots + [Snap(h)];
    }
  }

  /** One call, if the client may make it. */
  method Perform(h: Heap, op: Op, owned: set<int>) returns (owned': set<int>)
    requires h.Valid() && owned == View(h).Keys
    modifies h, h.mem, h.quickLists
    ensures h.Valid() && owned' == View(h).Keys && Transition(op, old(Snap(h)), Snap(h), h.limit)
  {
    hide Payloads, Full;
    owned' := owned;
    match op {
      case Malloc(n) =>
        if 0 <= n < SIZE_T {
          var bp := DoMalloc(h, n);
          if bp != NULL { owned' := owned + {bp}; }
        }
      case Release(p) =>
        if p in owned {
          DoFree(h, p);
          owned' := owned - {p};
        }
      case Realloc(p, n) =>
        if p in owned && 0 <= n < SIZE_T {
          var r := DoRealloc(h, p, n);
          if n == 0 {
            owned' := owned - {p};
          } else if r != NULL {
            owned' := owned - {p} + {r};
          }
        }
      case Write(p, k, v) =>
        if p in owned {
          ReadSize(h, p);
          if 0 <= k < h.Rows(p) - 1 {
            DoWrite(h, p, k, v);
          }
        }
    }
  }

  lemma ReadSize(h: Heap, p: int)
    requires h.Valid() && p in View(h)
    ensures h.Row(p - 1) && h.Rows(p) - 1 == |View(h)[p]|
  {
    ValidInMemory(h);
    PayloadOf(h.mem[..], h.s.blk, p);
    h.ReadTag(p);
  }
}
