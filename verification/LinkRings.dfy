/** Circular doubly linked lists and LIFO chains threaded through heap memory.

    A node is the address `u` of an `sf_block` structure; its `next` link is row `u + 2` and its
    `prev` link is row `u + 3`.  Memory is a sequence of 8-byte rows.
 */
module LinkRings {

  type Memory = seq<int>

  const NULL := 0

  /** Node `j` of the cycle that starts at the dummy head `h` and runs through `L`. */
  function Node(h: int, L: seq<int>, j: int): int {
    if 1 <= j <= |L| then L[j - 1] else h
  }

  /** The link rows of `u` lie in memory. */
  predicate Fits(mem: Memory, u: int) {
    0 <= u && u + 3 < |mem|
  }

  /** The link rows of `u` and `v` do not overlap. */
  predicate Far(u: int, v: int) {
    u + 2 <= v || v + 2 <= u
  }

  /** Nodes `j` and `j + 1` of the cycle point at each other. */
  ghost predicate Joined(mem: Memory, h: int, L: seq<int>, j: int) {
    var u, v := Node(h, L, j), Node(h, L, j + 1);
    Fits(mem, u) && Fits(mem, v) && mem[u + 2] == v && mem[v + 3] == u
  }

  ghost predicate Ring(mem: Memory, h: int, L: seq<int>) {
    forall j {:trigger Joined(mem, h, L, j)} | 0 <= j <= |L| :: Joined(mem, h, L, j)
  }

  ghost predicate FarNodes(h: int, L: seq<int>, i: int, j: int) {
    Far(Node(h, L, i), Node(h, L, j))
  }

  /** The nodes of the cycle are distinct and their link rows do not overlap. */
  ghost predicate Spread(h: int, L: seq<int>) {
    forall i, j {:trigger FarNodes(h, L, i, j)} | 0 <= i < j <= |L| :: FarNodes(h, L, i, j)
  }

  /** Memory after linking `sp` in behind the head `h`. */
  function Pushed(mem: Memory, h: int, sp: int): Memory
    requires Fits(mem, h) && Fits(mem, sp) && Fits(mem, mem[h + 2]) && Far(h, sp)
  {
    mem[sp + 2 := mem[h + 2]][h + 2 := sp][sp + 3 := h][mem[h + 2] + 3 := sp]
  }

  /** Memory after unlinking `sp` from its neighbours. */
  function Unlinked(mem: Memory, sp: int): Memory
    requires Fits(mem, sp) && Fits(mem, mem[sp + 2]) && Fits(mem, mem[sp + 3])
  {
    mem[mem[sp + 3] + 2 := mem[sp + 2]][mem[sp + 2] + 3 := mem[sp + 3]]
  }

  /** How `Pushed` changes the links of a node: only `h`, `sp` and the old first node change. */
  ghost predicate PushedAt(mem: Memory, mem': Memory, h: int, sp: int, first: int, u: int) {
    Fits(mem, u) ==>
      && Fits(mem', u)
      && mem'[u + 2] == (if u == h then sp else if u == sp then first else mem[u + 2])
      && mem'[u + 3] == (if u == first then sp else if u == sp then h else mem[u + 3])
  }

  lemma PushChangesLinks(mem: Memory, h: int, sp: int, u: int)
    requires Fits(mem, h) && Fits(mem, sp) && Fits(mem, mem[h + 2]) && Far(h, sp) && Far(mem[h + 2], sp)
    requires u == h || Far(u, h)
    requires u == sp || Far(u, sp)
    requires u == mem[h + 2] || Far(u, mem[h + 2])
    ensures PushedAt(mem, Pushed(mem, h, sp), h, sp, mem[h + 2], u)
  {
  }

  lemma PushKeepsRing(mem: Memory, h: int, L: seq<int>, sp: int)
    requires Ring(mem, h, L) && Spread(h, L) && Spread(h, [sp] + L) && Fits(mem, sp)
    ensures Far(h, sp) && Fits(mem, h) && Fits(mem, mem[h + 2])
    ensures Ring(Pushed(mem, h, sp), h, [sp] + L)
  {
    var L' := [sp] + L;
    assert Joined(mem, h, L, 0) && FarNodes(h, L', 0, 1);
    var first := mem[h + 2];
    FarOrSame(h, L', 1, 2);
    var mem' := Pushed(mem, h, sp);
    forall j {:trigger Node(h, L', j)} | 0 <= j <= |L'| ensures PushedAt(mem, mem', h, sp, first, Node(h, L', j)) {
      FarOrSame(h, L', 0, j);
      FarOrSame(h, L', 1, j);
      FarOrSame(h, L', 2, j);
      PushChangesLinks(mem, h, sp, Node(h, L', j));
    }
    PushJoins(mem, mem', h, L, sp);
  }

  lemma PushJoins(mem: Memory, mem': Memory, h: int, L: seq<int>, sp: int)
    requires Ring(mem, h, L) && Spread(h, [sp] + L) && Fits(mem, sp)
    requires forall j {:trigger Node(h, [sp] + L, j)} | 0 <= j <= |L| + 1 ::
               PushedAt(mem, mem', h, sp, Node(h, L, 1), Node(h, [sp] + L, j))
    ensures Ring(mem', h, [sp] + L)
  {
    var L' := [sp] + L;
    forall j {:trigger Joined(mem', h, L', j)} | 0 <= j <= |L'| ensures Joined(mem', h, L', j) {
      assert Joined(mem, h, L, if j == 0 then 0 else j - 1);
      assert Node(h, L', |L'| + 1) == Node(h, L', 0);
      assert PushedAt(mem, mem', h, sp, Node(h, L, 1), Node(h, L', j));
      assert PushedAt(mem, mem', h, sp, Node(h, L, 1), Node(h, L', j + 1));
      assert j >= 1 ==>
          Node(h, L', j) == (if j == 1 then sp else Node(h, L, j - 1)) && Node(h, L', j + 1) == Node(h, L, j);
      FarOrSame(h, L', 1, 0);
      FarOrSame(h, L', 0, j);
      FarOrSame(h, L', 1, j);
      FarOrSame(h, L', 1, j + 1);
      FarOrSame(h, L', 2, j + 1);
    }
  }

  /** How `Unlinked` changes the links of a node: only the two neighbours change. */
  ghost predicate UnlinkedAt(mem: Memory, mem': Memory, prev: int, next: int, u: int) {
    Fits(mem, u) ==>
      && Fits(mem', u)
      && mem'[u + 2] == (if u == prev then next else mem[u + 2])
      && mem'[u + 3] == (if u == next then prev else mem[u + 3])
  }

  lemma UnlinkChangesLinks(mem: Memory, sp: int, u: int)
    requires Fits(mem, sp) && Fits(mem, mem[sp + 2]) && Fits(mem, mem[sp + 3])
    requires u == mem[sp + 2] || Far(u, mem[sp + 2])
    requires u == mem[sp + 3] || Far(u, mem[sp + 3])
    ensures UnlinkedAt(mem, Unlinked(mem, sp), mem[sp + 3], mem[sp + 2], u)
  {
  }

  lemma UnlinkKeepsRing(mem: Memory, h: int, L: seq<int>, k: int)
    requires Ring(mem, h, L) && Spread(h, L) && 1 <= k <= |L|
    ensures var sp := L[k - 1]; Fits(mem, sp) && Fits(mem, mem[sp + 2]) && Fits(mem, mem[sp + 3])
    ensures Ring(Unlinked(mem, L[k - 1]), h, L[..k - 1] + L[k..])
  {
    assert Joined(mem, h, L, k - 1) && Joined(mem, h, L, k);
    var mem' := Unlinked(mem, L[k - 1]);
    forall j {:trigger Node(h, L, j)} | 0 <= j <= |L| + 1
      ensures UnlinkedAt(mem, mem', Node(h, L, k - 1), Node(h, L, k + 1), Node(h, L, j))
    {
      FarOrSame(h, L, k - 1, j);
      FarOrSame(h, L, k + 1, j);
      UnlinkChangesLinks(mem, L[k - 1], Node(h, L, j));
    }
    UnlinkJoins(mem, mem', h, L, k);
  }

  lemma UnlinkJoins(mem: Memory, mem': Memory, h: int, L: seq<int>, k: int)
    requires Ring(mem, h, L) && Spread(h, L) && 1 <= k <= |L|
    requires forall j {:trigger Node(h, L, j)} | 0 <= j <= |L| + 1 ::
               UnlinkedAt(mem, mem', Node(h, L, k - 1), Node(h, L, k + 1), Node(h, L, j))
    ensures Ring(mem', h, L[..k - 1] + L[k..])
  {
    var L' := L[..k - 1] + L[k..];
    forall j {:trigger Joined(mem', h, L', j)} | 0 <= j <= |L'| ensures Joined(mem', h, L', j) {
      NodesWithout(h, L, k, j);
      NodesWithout(h, L, k, j + 1);
      var i := if j < k then j else j + 1;
      assert Joined(mem, h, L, i) && Joined(mem, h, L, k);
      FarOrSame(h, L, k - 1, i);
      FarOrSame(h, L, k + 1, i + 1);
    }
  }

  lemma NodesWithout(h: int, L: seq<int>, k: int, j: int)
    requires 1 <= k <= |L| && 0 <= j <= |L|
    ensures Node(h, L[..k - 1] + L[k..], j) == Node(h, L, if j < k then j else j + 1)
  {
  }

  /** Two positions of the cycle hold nodes with disjoint link rows, or the same node. */
  lemma FarOrSame(h: int, L: seq<int>, i: int, j: int)
    requires Spread(h, L) && 0 <= i <= |L| + 1 && 0 <= j <= |L| + 1
    ensures Far(Node(h, L, i), Node(h, L, j))
            || (Node(h, L, i) == Node(h, L, j) && (i == j || (i + j == |L| + 1 && (i == 0 || j == 0))))
  {
    var i', j' := if i == |L| + 1 then 0 else i, if j == |L| + 1 then 0 else j;
    assert i' < j' ==> FarNodes(h, L, i', j');
    assert j' < i' ==> FarNodes(h, L, j', i');
  }

  /** A ring depends on the link rows of its nodes only. */
  lemma RingFrame(mem: Memory, mem': Memory, h: int, L: seq<int>)
    requires Ring(mem, h, L) && |mem'| == |mem|
    requires forall j {:trigger Node(h, L, j)} | 0 <= j <= |L| :: SameLinks(mem, mem', Node(h, L, j))
    ensures Ring(mem', h, L)
  {
    forall j {:trigger Joined(mem', h, L, j)} | 0 <= j <= |L| ensures Joined(mem', h, L, j) {
      assert Joined(mem, h, L, j);
      assert Node(h, L, |L| + 1) == Node(h, L, 0);
      assert SameLinks(mem, mem', Node(h, L, j)) && SameLinks(mem, mem', Node(h, L, j + 1));
    }
  }

  ghost predicate SameLinks(mem: Memory, mem': Memory, u: int) {
    Fits(mem, u) && |mem'| == |mem| ==> mem'[u + 2] == mem[u + 2] && mem'[u + 3] == mem[u + 3]
  }
}
