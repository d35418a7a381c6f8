/** One client's table of invitations (hw5/src/client.c): slots, byte-sized ids, and searching both ways. */
module InvitationTable {

  const SLOTS: nat := 1000
  const IDS: nat := 256

  /** An unused slot, or the client's id for an invitation. */
  datatype Slot = Empty | Filled(id: nat, inv: nat)

  type Table = seq<Slot>

  /** The id is stored in a byte. */
  ghost predicate SlotOk(t: Table, i: int) {
    0 <= i < |t| && (t[i].Filled? ==> t[i].id == i % IDS)
  }

  /** No invitation has two slots. */
  ghost predicate SlotsApart(t: Table, i: int, j: int) {
    0 <= i < |t| && 0 <= j < |t| && (t[i].Filled? && t[j].Filled? && t[i].inv == t[j].inv ==> i == j)
  }

  ghost predicate Ok(t: Table) {
    && |t| == SLOTS
    && (forall i {:trigger SlotOk(t, i)} :: 0 <= i < |t| ==> SlotOk(t, i))
    && (forall i, j {:trigger SlotsApart(t, i, j)} :: 0 <= i < |t| && 0 <= j < |t| ==> SlotsApart(t, i, j))
  }

  predicate Holds(t: Table, i: int, v: nat) {
    0 <= i < |t| && t[i].Filled? && t[i].inv == v
  }

  /** The invitations of the table. */
  ghost function Names(t: Table): set<nat> {
    set i | 0 <= i < |t| && t[i].Filled? :: t[i].inv
  }

  // ----- the three searches, from slot `i` on; the length of the table when nothing is found -----

  function FirstEmpty(t: Table, i: nat): (k: nat)
    requires i <= |t|
    ensures i <= k <= |t| && (k < |t| ==> t[k].Empty?)
    decreases |t| - i
  {
    if i == |t| || t[i].Empty? then i else FirstEmpty(t, i + 1)
  }

  function FindInv(t: Table, v: nat, i: nat): (k: nat)
    requires i <= |t|
    ensures i <= k <= |t| && (k < |t| ==> Holds(t, k, v))
    decreases |t| - i
  {
    if i == |t| || Holds(t, i, v) then i else FindInv(t, v, i + 1)
  }

  function FindId(t: Table, id: int, i: nat): (k: nat)
    requires i <= |t|
    ensures i <= k <= |t| && (k < |t| ==> t[k].Filled? && t[k].id == id)
    decreases |t| - i
  {
    if i == |t| || (t[i].Filled? && t[i].id == id) then i else FindId(t, id, i + 1)
  }

  function Put(t: Table, v: nat): Table {
    var k := FirstEmpty(t, 0);
    if k < |t| then t[k := Filled(k % IDS, v)] else t
  }

  function Drop(t: Table, v: nat): Table {
    var k := FindInv(t, v, 0);
    if k < |t| then t[k := Empty] else t
  }

  predicate HasRoom(t: Table) {
    FirstEmpty(t, 0) < |t|
  }

  /** The client's id for an invitation of the table. */
  function IdOf(t: Table, v: nat): int {
    var k := FindInv(t, v, 0);
    if k < |t| then t[k].id else -1
  }

  /** The invitation a client means by an id. */
  function InvOf(t: Table, id: int): (v: int)
    ensures v >= 0 || v == -1
  {
    var k := FindId(t, id, 0);
    if k < |t| then t[k].inv else -1
  }

  // ----- finding what is there -----

  lemma {:induction false} FindsInv(t: Table, v: nat, i: nat, k: nat)
    requires i <= k < |t| && Holds(t, k, v)
    ensures FindInv(t, v, i) <= k
    decreases k - i
  {
    if i < k && !Holds(t, i, v) {
      FindsInv(t, v, i + 1, k);
    }
  }

  lemma {:induction false} FindsId(t: Table, id: int, i: nat, k: nat)
    requires i <= k < |t| && t[k].Filled? && t[k].id == id
    ensures FindId(t, id, i) <= k
    decreases k - i
  {
    if i < k && !(t[i].Filled? && t[i].id == id) {
      FindsId(t, id, i + 1, k);
    }
  }

  lemma {:induction false} FilledBefore(t: Table, i: nat, k: nat)
    requires i <= |t| && i <= k < FirstEmpty(t, i)
    ensures t[k].Filled?
    decreases k - i
  {
    if i < k {
      FilledBefore(t, i + 1, k);
    }
  }

  /** An invitation is named exactly when the search finds it. */
  lemma {:induction false} NamedIsFound(t: Table, v: nat)
    ensures v in Names(t) <==> FindInv(t, v, 0) < |t|
  {
    if v in Names(t) {
      var i :| 0 <= i < |t| && t[i].Filled? && t[i].inv == v;
      FindsInv(t, v, 0, i);
    }
    if FindInv(t, v, 0) < |t| {
      assert t[FindInv(t, v, 0)].inv in Names(t);
    }
  }

  lemma {:induction false} OneSlot(t: Table, v: nat, k: nat)
    requires Ok(t) && Holds(t, k, v)
    ensures FindInv(t, v, 0) == k && v in Names(t)
  {
    FindsInv(t, v, 0, k);
    assert SlotsApart(t, FindInv(t, v, 0), k);
    assert t[k].inv in Names(t);
  }

  // ----- adding and removing -----

  lemma PutNames(t: Table, v: nat)
    requires HasRoom(t)
    ensures Names(Put(t, v)) == Names(t) + {v}
  {
    var k := FirstEmpty(t, 0);
    var u := t[k := Filled(k % IDS, v)];
    assert u[k].inv == v;
    forall w
      ensures w in Names(u) <==> w in Names(t) + {v}
    {
      if w in Names(t) {
        var i :| 0 <= i < |t| && t[i].Filled? && t[i].inv == w;
        assert u[i] == t[i];
      }
      if w in Names(u) && w != v {
        var i :| 0 <= i < |u| && u[i].Filled? && u[i].inv == w;
        assert u[i] == t[i];
      }
    }
  }

  lemma PutKeepsOk(t: Table, v: nat)
    requires Ok(t) && HasRoom(t) && v !in Names(t)
    ensures Ok(Put(t, v))
  {
    var k := FirstEmpty(t, 0);
    var u := t[k := Filled(k % IDS, v)];
    forall i | 0 <= i < |u|
      ensures SlotOk(u, i)
    {
      assert SlotOk(t, i);
    }
    forall i, j | 0 <= i < |u| && 0 <= j < |u|
      ensures SlotsApart(u, i, j)
    {
      assert SlotsApart(t, i, j);
      assert t[i].Filled? ==> t[i].inv in Names(t);
      assert t[j].Filled? ==> t[j].inv in Names(t);
    }
  }

  lemma DropNames(t: Table, v: nat)
    requires Ok(t)
    ensures Names(Drop(t, v)) == Names(t) - {v}
  {
    NamedIsFound(t, v);
    var k, u := FindInv(t, v, 0), Drop(t, v);
    forall w
      ensures w in Names(u) <==> w in Names(t) - {v}
    {
      if w in Names(u) {
        var i :| 0 <= i < |u| && u[i].Filled? && u[i].inv == w;
        assert t[i] == u[i];
        if w == v {
          OneSlot(t, v, i);
        }
      }
      if w in Names(t) && w != v {
        var i :| 0 <= i < |t| && t[i].Filled? && t[i].inv == w;
        assert u[i] == t[i];
      }
    }
  }

  lemma DropKeepsOk(t: Table, v: nat)
    requires Ok(t)
    ensures Ok(Drop(t, v))
  {
    var u := Drop(t, v);
    forall i | 0 <= i < |u|
      ensures SlotOk(u, i)
    {
      assert SlotOk(t, i);
    }
    forall i, j | 0 <= i < |u| && 0 <= j < |u|
      ensures SlotsApart(u, i, j)
    {
      assert SlotsApart(t, i, j);
    }
  }

  // ----- byte-sized ids -----

  ghost predicate SlotLow(t: Table, i: int) {
    0 <= i < |t| && (t[i].Filled? ==> i < IDS)
  }

  /** Only slots whose number fits a byte are used. */
  ghost predicate Low(t: Table) {
    forall i {:trigger SlotLow(t, i)} :: 0 <= i < |t| ==> SlotLow(t, i)
  }

  /** The slots before the first empty one hold that many different invitations. */
  lemma {:induction false} FilledCount(t: Table, k: nat)
    requires Ok(t) && k <= FirstEmpty(t, 0)
    ensures Names(t[..k]) <= Names(t)
    ensures |Names(t[..k])| == k
    decreases k
  {
    if k == 0 {
      assert Names(t[..0]) == {};
    } else {
      FilledCount(t, k - 1);
      FilledBefore(t, 0, k - 1);
      PrefixNames(t, k);
    }
  }

  lemma NotBefore(t: Table, k: nat, w: nat)
    requires Ok(t) && 0 < k <= |t| && t[k - 1].Filled? && w in Names(t[..k - 1])
    ensures w != t[k - 1].inv
  {
    var i :| 0 <= i < k - 1 && t[..k - 1][i].Filled? && t[..k - 1][i].inv == w;
    assert SlotsApart(t, i, k - 1);
  }

  lemma PrefixNames(t: Table, k: nat)
    requires Ok(t) && 0 < k <= |t| && t[k - 1].Filled?
    ensures Names(t[..k]) == Names(t[..k - 1]) + {t[k - 1].inv}
    ensures t[k - 1].inv !in Names(t[..k - 1])
    ensures t[k - 1].inv in Names(t)
  {
    var v := t[k - 1].inv;
    if v in Names(t[..k - 1]) {
      NotBefore(t, k, v);
    }
    forall w
      ensures w in Names(t[..k]) <==> w in Names(t[..k - 1]) + {v}
    {
      if w in Names(t[..k - 1]) {
        var i :| 0 <= i < k - 1 && t[..k - 1][i].Filled? && t[..k - 1][i].inv == w;
        assert t[..k][i] == t[..k - 1][i];
      }
      if w in Names(t[..k]) && w != v {
        var i :| 0 <= i < k && t[..k][i].Filled? && t[..k][i].inv == w;
        assert t[..k - 1][i] == t[..k][i];
      }
      assert t[..k][k - 1].inv == v;
    }
  }

  lemma SubsetSize(a: set<nat>, b: set<nat>)
    requires a <= b
    ensures |a| <= |b|
    decreases b
  {
    if x :| x in a {
      SubsetSize(a - {x}, b - {x});
    }
  }

  /** With fewer than 256 invitations outstanding the first empty slot has a byte-sized number. */
  lemma {:induction false} SlotOfNext(t: Table)
    requires Ok(t)
    ensures |Names(t)| >= FirstEmpty(t, 0)
    ensures |Names(t)| < IDS ==> HasRoom(t) && FirstEmpty(t, 0) < IDS
  {
    FilledCount(t, FirstEmpty(t, 0));
    SubsetSize(Names(t[..FirstEmpty(t, 0)]), Names(t));
  }

  /** An addition keeps to byte-sized slots exactly when the first empty slot is one. */
  lemma {:induction false} PutKeepsLow(t: Table, v: nat)
    requires Ok(t) && HasRoom(t)
    ensures Low(Put(t, v)) <==> Low(t) && FirstEmpty(t, 0) < IDS
  {
    var k, u := FirstEmpty(t, 0), Put(t, v);
    if Low(t) && k < IDS {
      forall i | 0 <= i < |u|
        ensures SlotLow(u, i)
      {
        assert SlotLow(t, i);
      }
    }
    if Low(u) {
      assert SlotLow(u, k);
      forall i | 0 <= i < |t|
        ensures SlotLow(t, i)
      {
        assert SlotLow(u, i);
      }
    }
  }

  lemma DropKeepsLow(t: Table, v: nat)
    requires Low(t)
    ensures Low(Drop(t, v))
  {
    var u := Drop(t, v);
    forall i | 0 <= i < |u|
      ensures SlotLow(u, i)
    {
      assert SlotLow(t, i);
    }
  }

  /** Looking an id up finds slot `k` exactly when no earlier slot in use shares its byte. */
  lemma {:induction false} IdFindsSlot(t: Table, k: nat)
    requires Ok(t) && k < |t| && t[k].Filled?
    ensures FindId(t, k % IDS, 0) == k <==> forall j {:trigger t[j]} :: 0 <= j < k && j % IDS == k % IDS ==> t[j].Empty?
  {
    assert SlotOk(t, k);
    FindsId(t, k % IDS, 0, k);
    var f := FindId(t, k % IDS, 0);
    assert SlotOk(t, f);
    if f == k {
      forall j | 0 <= j < k && j % IDS == k % IDS
        ensures t[j].Empty?
      {
        assert SlotOk(t, j);
        if t[j].Filled? {
          FindsId(t, k % IDS, 0, j);
        }
      }
    } else {
      assert t[f].Filled?;
    }
  }

  /** Where no slot in use shares its byte with an earlier one, the two searches undo each other. */
  lemma {:induction false} SearchesInvert(t: Table, v: nat, id: nat)
    requires Ok(t) && Low(t)
    ensures InvOf(t, id) == v <==> IdOf(t, v) == id
    ensures IdOf(t, v) == id ==> FindInv(t, v, 0) == id
  {
    var k, f := FindInv(t, v, 0), FindId(t, id, 0);
    if k < |t| && t[k].id == id {
      assert SlotOk(t, k) && SlotLow(t, k);
      FindsId(t, id, 0, k);
      assert SlotOk(t, f) && SlotLow(t, f);
    }
    if f < |t| && t[f].inv == v {
      OneSlot(t, v, f);
      assert SlotOk(t, f) && SlotLow(t, f);
    }
  }

  // ----- every sequence of additions and removals -----

  datatype TableStep = Adding(v: nat) | Removing(v: nat)

  ghost predicate StepAllowed(t: Table, s: TableStep) {
    s.Adding? ==> HasRoom(t) && s.v !in Names(t)
  }

  function Stepped(t: Table, s: TableStep): Table {
    match s
    case Adding(v) => Put(t, v)
    case Removing(v) => Drop(t, v)
  }

  ghost predicate Modest(t: Table, steps: seq<TableStep>)
    decreases |steps|
  {
    |Names(t)| <= IDS &&
    (steps == [] || (StepAllowed(t, steps[0]) && Modest(Stepped(t, steps[0]), steps[1..])))
  }

  function AfterSteps(t: Table, steps: seq<TableStep>): Table
    decreases |steps|
  {
    if steps == [] then t else AfterSteps(Stepped(t, steps[0]), steps[1..])
  }

  lemma StepKeepsLow(t: Table, s: TableStep)
    requires Ok(t) && Low(t) && StepAllowed(t, s) && |Names(Stepped(t, s))| <= IDS
    ensures Ok(Stepped(t, s)) && Low(Stepped(t, s))
  {
    match s
    case Adding(v) =>
      PutNames(t, v);
      PutKeepsOk(t, v);
      SlotOfNext(t);
      assert |Names(t) + {v}| == |Names(t)| + 1;
      PutKeepsLow(t, v);
    case Removing(v) =>
      DropKeepsOk(t, v);
      DropKeepsLow(t, v);
  }

  /** While never more than 256 invitations are outstanding, ids are slot numbers and the searches undo each other. */
  lemma {:induction false} ModestRunsInvert(t: Table, steps: seq<TableStep>, v: nat, id: nat)
    requires Ok(t) && Low(t) && Modest(t, steps)
    ensures var u := AfterSteps(t, steps); Ok(u) && Low(u) && (InvOf(u, id) == v <==> IdOf(u, v) == id)
    decreases |steps|
  {
    hide Ok, Low, InvOf, IdOf, Stepped, StepAllowed, Names;
    if steps == [] {
      SearchesInvert(t, v, id);
    } else {
      assert |Names(Stepped(t, steps[0]))| <= IDS;
      StepKeepsLow(t, steps[0]);
      ModestRunsInvert(Stepped(t, steps[0]), steps[1..], v, id);
    }
  }

  /** The table `client_create` makes. */
  lemma NewTable()
    ensures var t: Table := seq(SLOTS, _ => Empty); Ok(t) && Low(t) && Names(t) == {} && HasRoom(t)
  {
    var t: Table := seq(SLOTS, _ => Empty);
    assert forall i :: 0 <= i < |t| ==> t[i] == Empty;
    assert Names(t) == {};
    assert FirstEmpty(t, 0) == 0;
  }

  // ----- adding and removing, slot by slot -----

  /** Slot `k` is the lowest unused one. */
  ghost predicate LowestUnused(t: Table, k: int) {
    0 <= k < |t| && t[k].Empty? && forall j | 0 <= j < k :: t[j].Filled?
  }

  /** An addition fills the lowest unused slot, with the slot's number, modulo 256, as the id. */
  lemma PutFillsLowest(t: Table, v: nat)
    requires HasRoom(t)
    ensures exists k :: LowestUnused(t, k) && Put(t, v) == t[k := Filled(k % 256, v)]
  {
    var k := FirstEmpty(t, 0);
    forall j | 0 <= j < k
      ensures t[j].Filled?
    {
      FilledBefore(t, 0, j);
    }
    assert LowestUnused(t, k);
  }

  /** A removal empties the one slot of the invitation. */
  lemma DropEmptiesSlot(t: Table, v: nat, k: int)
    requires Ok(t) && 0 <= k < |t| && t[k].Filled? && t[k].inv == v
    ensures Drop(t, v) == t[k := Empty]
  {
    hide Ok;
    OneSlot(t, v, k);
  }

  /** The id means the invitation of the first slot in use that has it, and none if no slot has. */
  lemma InvOfIsFirst(t: Table, id: int, k: int)
    requires 0 <= k < |t| && t[k].Filled? && t[k].id == id && forall j | 0 <= j < k :: t[j].Filled? ==> t[j].id != id
    ensures InvOf(t, id) == t[k].inv
  {
    FindsId(t, id, 0, k);
  }

  lemma InvOfIsNone(t: Table, id: int)
    requires forall j | 0 <= j < |t| :: t[j].Filled? ==> t[j].id != id
    ensures InvOf(t, id) == -1
  {
  }

  /** A client has 1000 slots, whose numbers are cut to 256 ids. */
  lemma TableSizes(t: Table, i: nat)
    requires Ok(t) && i < |t|
    ensures |t| == 1000 && (t[i].Filled? ==> t[i].id == i % 256)
  {
    assert SlotOk(t, i);
  }
}
