/**
 * The client registry of hw5/src/client_registry.c as threads taking single steps on two semaphores.
 * What lies between taking and posting the mutex is one step per statement.
 */
module RegistrySteps {

  const MAX_CLIENTS: nat := 64

  datatype Slot = Free | Held(client: nat)

  /** Where a thread stands in the registry's code. */
  datatype Pc =
    | Idle
    | RegWait(client: nat) | RegScan(client: nat) | RegTest | RegBlock | RegCount | RegPost(done: bool)
    | UnWait(client: nat) | UnScan(client: nat) | UnCount | UnTest | UnSignal | UnPost(done: bool)
    | WaitEmpty | PassEmpty
    | ReadWait | ReadPost

  /** `owner` is the thread inside the mutex, if any; the code has no such variable. */
  datatype State = State(size: int, empty: int, mutex: int, clients: seq<Slot>, pcs: seq<Pc>, owner: Owner)

  datatype Owner = Nobody | Thread(t: nat)

  /** What an idle thread may begin: register, unregister, wait for empty, or look through the registry. */
  datatype Call = Register(client: nat) | Unregister(client: nat) | WaitForEmpty | Read

  datatype Event = Begins(t: nat, call: Call) | Steps(t: nat)

  predicate Inside(pc: Pc) {
    || pc.RegScan? || pc.RegTest? || pc.RegBlock? || pc.RegCount? || pc.RegPost?
    || pc.UnScan? || pc.UnCount? || pc.UnTest? || pc.UnSignal? || pc.UnPost?
    || pc.ReadPost?
  }

  /** Whether the thread can take its next step; only the two semaphores ever block. */
  predicate Enabled(s: State, t: nat) {
    t < |s.pcs| &&
    match s.pcs[t]
    case Idle => false
    case RegWait(_) => s.mutex > 0
    case UnWait(_) => s.mutex > 0
    case ReadWait => s.mutex > 0
    case RegBlock => s.empty > 0
    case WaitEmpty => s.empty > 0
    case _ => true
  }

  function FirstFree(clients: seq<Slot>, i: nat): (k: nat)
    requires i <= |clients|
    ensures i <= k <= |clients| && (k < |clients| ==> clients[k].Free?)
    decreases |clients| - i
  {
    if i == |clients| || clients[i].Free? then i else FirstFree(clients, i + 1)
  }

  function FindClient(clients: seq<Slot>, client: nat, i: nat): (k: nat)
    requires i <= |clients|
    ensures i <= k <= |clients| && (k < |clients| ==> clients[k] == Held(client))
    decreases |clients| - i
  {
    if i == |clients| || clients[i] == Held(client) then i else FindClient(clients, client, i + 1)
  }

  function At(s: State, t: nat, pc: Pc): State
    requires t < |s.pcs|
  {
    s.(pcs := s.pcs[t := pc])
  }

  function Enters(s: State, t: nat, pc: Pc): State
    requires t < |s.pcs|
  {
    At(s, t, pc).(mutex := s.mutex - 1, owner := Thread(t))
  }

  function Leaves(s: State, t: nat): State
    requires t < |s.pcs|
  {
    At(s, t, Idle).(mutex := s.mutex + 1, owner := Nobody)
  }

  function Begun(call: Call): Pc {
    match call
    case Register(c) => RegWait(c)
    case Unregister(c) => UnWait(c)
    case WaitForEmpty => WaitEmpty
    case Read => ReadWait
  }

  /** One step of thread `t`. */
  function Stepped(s: State, t: nat): State
    requires Enabled(s, t)
  {
    match s.pcs[t]
    case RegWait(c) => Enters(s, t, RegScan(c))
    case RegScan(c) =>
      var k := FirstFree(s.clients, 0);
      if k < |s.clients| then At(s, t, RegTest).(clients := s.clients[k := Held(c)]) else At(s, t, RegPost(false))
    case RegTest => At(s, t, if s.size == 0 then RegBlock else RegCount)
    case RegBlock => At(s, t, RegCount).(empty := s.empty - 1)
    case RegCount => At(s, t, RegPost(true)).(size := s.size + 1)
    case RegPost(_) => Leaves(s, t)
    case UnWait(c) => Enters(s, t, UnScan(c))
    case UnScan(c) =>
      var k := FindClient(s.clients, c, 0);
      if k < |s.clients| then At(s, t, UnCount).(clients := s.clients[k := Free]) else At(s, t, UnPost(false))
    case UnCount => At(s, t, UnTest).(size := s.size - 1)
    case UnTest => At(s, t, if s.size == 0 then UnSignal else UnPost(true))
    case UnSignal => At(s, t, UnPost(true)).(empty := s.empty + 1)
    case UnPost(_) => Leaves(s, t)
    case WaitEmpty => At(s, t, PassEmpty).(empty := s.empty - 1)
    case PassEmpty => At(s, t, Idle).(empty := s.empty + 1)
    case ReadWait => Enters(s, t, ReadPost)
    case ReadPost => Leaves(s, t)
    case Idle => s
  }

  /** A blocked thread, or one already busy, does nothing. */
  function Happens(s: State, e: Event): State {
    match e
    case Begins(t, call) => if t < |s.pcs| && s.pcs[t] == Idle then At(s, t, Begun(call)) else s
    case Steps(t) => if Enabled(s, t) then Stepped(s, t) else s
  }

  function Initial(threads: nat): State {
    State(0, 1, 1, seq(MAX_CLIENTS, _ => Free), seq(threads, _ => Idle), Nobody)
  }

  function Run(s: State, events: seq<Event>): State
    decreases |events|
  {
    if events == [] then s else Run(Happens(s, events[0]), events[1..])
  }

  // ----- the invariant -----

  ghost function Occupied(clients: seq<Slot>): set<int> {
    set i | 0 <= i < |clients| && clients[i].Held?
  }

  /** The waiters between their wait and their post. */
  ghost function Passing(pcs: seq<Pc>): set<int> {
    set t | 0 <= t < |pcs| && pcs[t] == PassEmpty
  }

  function OwnerPc(s: State): Pc {
    if s.owner.Thread? && s.owner.t < |s.pcs| then s.pcs[s.owner.t] else Idle
  }

  /** The registry has clients, or holds the token of `empty` on the way to or from having none. */
  predicate Taken(s: State) {
    s.size > 0 || OwnerPc(s).RegCount? || OwnerPc(s).UnTest? || OwnerPc(s).UnSignal?
  }

  /** How many more slots are in use than are counted. */
  function Uncounted(pc: Pc): int {
    if pc.RegTest? || pc.RegBlock? || pc.RegCount? then 1 else if pc.UnCount? then -1 else 0
  }

  ghost predicate InsideOk(s: State, t: int) {
    0 <= t < |s.pcs| && (Inside(s.pcs[t]) <==> s.owner == Thread(t))
  }

  ghost predicate MutexOk(s: State) {
    && s.mutex == (if s.owner == Nobody then 1 else 0)
    && (s.owner.Thread? ==> s.owner.t < |s.pcs|)
    && (forall t {:trigger InsideOk(s, t)} :: 0 <= t < |s.pcs| ==> InsideOk(s, t))
  }

  /** The token of `empty` is in the semaphore, with one passing waiter, or with the registry. */
  ghost predicate TokenOk(s: State) {
    s.empty >= 0 && s.empty + |Passing(s.pcs)| + (if Taken(s) then 1 else 0) == 1
  }

  ghost predicate SizeOk(s: State) {
    && |s.clients| == MAX_CLIENTS
    && s.size >= 0
    && |Occupied(s.clients)| == s.size + Uncounted(OwnerPc(s))
    && (OwnerPc(s).RegBlock? || OwnerPc(s).UnSignal? ==> s.size == 0)
  }

  ghost predicate Inv(s: State) {
    MutexOk(s) && TokenOk(s) && SizeOk(s)
  }

  // ----- every step keeps it -----

  lemma PassingAt(pcs: seq<Pc>, t: nat, pc: Pc)
    requires t < |pcs|
    ensures Passing(pcs[t := pc]) == if pc == PassEmpty then Passing(pcs) + {t} else Passing(pcs) - {t}
    ensures t in Passing(pcs) <==> pcs[t] == PassEmpty
  {
  }

  lemma NotPassing(pcs: seq<Pc>, t: nat, pc: Pc)
    requires t < |pcs| && pcs[t] != PassEmpty && pc != PassEmpty
    ensures Passing(pcs[t := pc]) == Passing(pcs)
  {
    hide Passing;
    PassingAt(pcs, t, pc);
    assert Passing(pcs) - {t} == Passing(pcs);
  }

  lemma OccupiedAt(clients: seq<Slot>, k: nat, slot: Slot)
    requires k < |clients|
    ensures Occupied(clients[k := slot]) == if slot.Held? then Occupied(clients) + {k} else Occupied(clients) - {k}
    ensures k in Occupied(clients) <==> clients[k].Held?
  {
  }

  /** A thread outside moves on outside, or the owner moves on inside. */
  lemma MutexAt(s: State, t: nat, pc: Pc, u: State)
    requires MutexOk(s) && t < |s.pcs| && Inside(pc) == Inside(s.pcs[t])
    requires u.mutex == s.mutex && u.owner == s.owner && u.pcs == s.pcs[t := pc]
    ensures MutexOk(u)
    ensures !Inside(pc) ==> OwnerPc(u) == OwnerPc(s)
    ensures Inside(pc) ==> OwnerPc(u) == pc && OwnerPc(s) == s.pcs[t]
  {
    assert InsideOk(s, t);
    forall k | 0 <= k < |u.pcs|
      ensures InsideOk(u, k)
    {
      assert InsideOk(s, k);
    }
  }

  lemma MutexEnters(s: State, t: nat, pc: Pc)
    requires MutexOk(s) && t < |s.pcs| && s.mutex > 0 && Inside(pc)
    ensures MutexOk(Enters(s, t, pc)) && OwnerPc(Enters(s, t, pc)) == pc && OwnerPc(s) == Idle
  {
    var u := Enters(s, t, pc);
    forall k | 0 <= k < |u.pcs|
      ensures InsideOk(u, k)
    {
      assert InsideOk(s, k);
    }
  }

  lemma MutexLeaves(s: State, t: nat)
    requires MutexOk(s) && t < |s.pcs| && Inside(s.pcs[t])
    ensures MutexOk(Leaves(s, t)) && OwnerPc(Leaves(s, t)) == Idle && OwnerPc(s) == s.pcs[t]
  {
    var u := Leaves(s, t);
    assert InsideOk(s, t);
    forall k | 0 <= k < |u.pcs|
      ensures InsideOk(u, k)
    {
      assert InsideOk(s, k);
    }
  }

  lemma BeginKeepsInv(s: State, t: nat, call: Call)
    requires Inv(s) && t < |s.pcs| && s.pcs[t] == Idle
    ensures Inv(At(s, t, Begun(call)))
  {
    hide Passing, Occupied, MutexOk;
    MutexAt(s, t, Begun(call), At(s, t, Begun(call)));
    NotPassing(s.pcs, t, Begun(call));
  }

  lemma EnterKeepsInv(s: State, t: nat, pc: Pc)
    requires Inv(s) && t < |s.pcs| && s.mutex > 0 && s.pcs[t] != PassEmpty
    requires pc.RegScan? || pc.UnScan? || pc == ReadPost
    ensures Inv(Enters(s, t, pc))
  {
    hide Passing, Occupied, MutexOk;
    MutexEnters(s, t, pc);
    NotPassing(s.pcs, t, pc);
  }

  lemma LeaveKeepsInv(s: State, t: nat)
    requires Inv(s) && t < |s.pcs| && (s.pcs[t].RegPost? || s.pcs[t].UnPost? || s.pcs[t] == ReadPost)
    ensures Inv(Leaves(s, t))
  {
    hide Passing, Occupied, MutexOk;
    MutexLeaves(s, t);
    NotPassing(s.pcs, t, Idle);
  }

  lemma ScanForFreeKeepsInv(s: State, t: nat)
    requires Inv(s) && t < |s.pcs| && s.pcs[t].RegScan?
    ensures Inv(Stepped(s, t))
  {
    hide Passing, Occupied, MutexOk, Inside, FirstFree;
    var u, c, k := Stepped(s, t), s.pcs[t].client, FirstFree(s.clients, 0);
    InsideStays(s.pcs[t], u.pcs[t]);
    MutexAt(s, t, u.pcs[t], u);
    NotPassing(s.pcs, t, u.pcs[t]);
    if k < |s.clients| {
      OccupiedAt(s.clients, k, Held(c));
      assert |Occupied(s.clients) + {k}| == |Occupied(s.clients)| + 1;
    }
  }

  lemma ScanForClientKeepsInv(s: State, t: nat)
    requires Inv(s) && t < |s.pcs| && s.pcs[t].UnScan?
    ensures Inv(Stepped(s, t))
  {
    hide Passing, Occupied, MutexOk, Inside, FindClient;
    var u, c := Stepped(s, t), s.pcs[t].client;
    var k := FindClient(s.clients, c, 0);
    InsideStays(s.pcs[t], u.pcs[t]);
    MutexAt(s, t, u.pcs[t], u);
    NotPassing(s.pcs, t, u.pcs[t]);
    if k < |s.clients| {
      OccupiedAt(s.clients, k, Free);
    }
  }

  lemma InsideStays(p: Pc, q: Pc)
    requires p.RegScan? || p.RegTest? || p.RegBlock? || p.RegCount? || p.UnScan? || p.UnCount? || p.UnTest?
      || p.UnSignal?
    requires q.RegTest? || q.RegBlock? || q.RegCount? || q.RegPost? || q.UnCount? || q.UnTest? || q.UnSignal?
      || q.UnPost?
    ensures Inside(p) && Inside(q) && p != PassEmpty && q != PassEmpty
  {
  }

  lemma RegisterKeepsInv(s: State, t: nat)
    requires Inv(s) && Enabled(s, t) && (s.pcs[t].RegTest? || s.pcs[t].RegBlock? || s.pcs[t].RegCount?)
    ensures Inv(Stepped(s, t))
  {
    hide Passing, Occupied, MutexOk, Inside;
    var u := Stepped(s, t);
    InsideStays(s.pcs[t], u.pcs[t]);
    MutexAt(s, t, u.pcs[t], u);
    NotPassing(s.pcs, t, u.pcs[t]);
  }

  lemma UnregisterKeepsInv(s: State, t: nat)
    requires Inv(s) && Enabled(s, t) && (s.pcs[t].UnCount? || s.pcs[t].UnTest? || s.pcs[t].UnSignal?)
    ensures Inv(Stepped(s, t))
  {
    hide Passing, Occupied, MutexOk, Inside;
    var u := Stepped(s, t);
    InsideStays(s.pcs[t], u.pcs[t]);
    MutexAt(s, t, u.pcs[t], u);
    NotPassing(s.pcs, t, u.pcs[t]);
  }

  lemma WaiterKeepsInv(s: State, t: nat)
    requires Inv(s) && Enabled(s, t) && s.pcs[t] == WaitEmpty
    ensures Inv(Stepped(s, t))
  {
    hide Passing, Occupied, MutexOk;
    MutexAt(s, t, PassEmpty, Stepped(s, t));
    PassingAt(s.pcs, t, PassEmpty);
    assert |Passing(s.pcs) + {t}| == |Passing(s.pcs)| + 1;
  }

  lemma PasserKeepsInv(s: State, t: nat)
    requires Inv(s) && Enabled(s, t) && s.pcs[t] == PassEmpty
    ensures Inv(Stepped(s, t))
  {
    hide Passing, Occupied, MutexOk;
    MutexAt(s, t, Idle, Stepped(s, t));
    PassingAt(s.pcs, t, Idle);
    assert |Passing(s.pcs) - {t}| == |Passing(s.pcs)| - 1;
  }

  lemma StepKeepsInv(s: State, t: nat)
    requires Inv(s) && Enabled(s, t)
    ensures Inv(Stepped(s, t))
  {
    hide Inv;
    match s.pcs[t]
    case RegWait(c) => EnterKeepsInv(s, t, RegScan(c));
    case UnWait(c) => EnterKeepsInv(s, t, UnScan(c));
    case ReadWait => EnterKeepsInv(s, t, ReadPost);
    case RegPost(_) => LeaveKeepsInv(s, t);
    case UnPost(_) => LeaveKeepsInv(s, t);
    case ReadPost => LeaveKeepsInv(s, t);
    case WaitEmpty => WaiterKeepsInv(s, t);
    case PassEmpty => PasserKeepsInv(s, t);
    case RegScan(_) => ScanForFreeKeepsInv(s, t);
    case UnScan(_) => ScanForClientKeepsInv(s, t);
    case RegTest => RegisterKeepsInv(s, t);
    case RegBlock => RegisterKeepsInv(s, t);
    case RegCount => RegisterKeepsInv(s, t);
    case _ => UnregisterKeepsInv(s, t);
  }

  lemma InitialInv(threads: nat)
    ensures Inv(Initial(threads))
  {
    var s := Initial(threads);
    assert Passing(s.pcs) == {};
    assert Occupied(s.clients) == {};
    forall t | 0 <= t < |s.pcs|
      ensures InsideOk(s, t)
    {
      assert s.pcs[t] == Idle;
    }
  }

  /** Any number of threads, any interleaving. */
  lemma {:induction false} RunsKeepInv(s: State, events: seq<Event>)
    requires Inv(s)
    ensures Inv(Run(s, events))
    decreases |events|
  {
    hide Inv, Stepped, Enabled;
    if events != [] {
      match events[0] {
        case Begins(t, call) =>
          if t < |s.pcs| && s.pcs[t] == Idle {
            BeginKeepsInv(s, t, call);
          }
        case Steps(t) =>
          if Enabled(s, t) {
            StepKeepsInv(s, t);
          }
      }
      RunsKeepInv(Happens(s, events[0]), events[1..]);
    }
  }

  // ----- main results -----

  /**
   * In every state of every run: the token is in one place, the size is the number of slots in use whenever the
   * mutex is free, and at most one thread is inside.
   */
  lemma {:induction false} RegistryIsConsistent(threads: nat, events: seq<Event>)
    ensures var s := Run(Initial(threads), events);
      && s.empty + |Passing(s.pcs)| + (if Taken(s) then 1 else 0) == 1
      && (s.mutex == 1 ==> |Occupied(s.clients)| == s.size)
      && forall a, b :: 0 <= a < |s.pcs| && 0 <= b < |s.pcs| && Inside(s.pcs[a]) && Inside(s.pcs[b]) ==> a == b
  {
    hide Run, Initial, Passing, Occupied;
    InitialInv(threads);
    RunsKeepInv(Initial(threads), events);
    OneInside(Run(Initial(threads), events));
  }

  lemma OneInside(s: State)
    requires MutexOk(s)
    ensures forall a, b :: 0 <= a < |s.pcs| && 0 <= b < |s.pcs| && Inside(s.pcs[a]) && Inside(s.pcs[b]) ==> a == b
  {
    forall a, b | 0 <= a < |s.pcs| && 0 <= b < |s.pcs| && Inside(s.pcs[a]) && Inside(s.pcs[b])
      ensures a == b
    {
      assert InsideOk(s, a) && InsideOk(s, b);
    }
  }

  /** A waiter gets through only while no client is registered, and none is about to be counted. */
  lemma {:induction false} WaiterSeesEmpty(threads: nat, events: seq<Event>, t: nat)
    requires var s := Run(Initial(threads), events); Enabled(s, t) && s.pcs[t] == WaitEmpty
    ensures var s := Run(Initial(threads), events);
      && s.size == 0
      && (s.mutex == 1 ==> Occupied(s.clients) == {})
      && (Occupied(s.clients) == {} || OwnerPc(s).RegTest? || OwnerPc(s).RegBlock?)
  {
    hide Run, Initial, Passing, Occupied;
    InitialInv(threads);
    RunsKeepInv(Initial(threads), events);
  }

  /** A register that holds the mutex and is blocked on `empty` waits for a waiter whose next step is enabled. */
  lemma BlockedOnlyByWaiter(s: State, t: nat)
    requires Inv(s) && t < |s.pcs| && s.pcs[t] == RegBlock && !Enabled(s, t)
    ensures exists w :: w in Passing(s.pcs) && Enabled(s, w)
    ensures forall w: nat :: w in Passing(s.pcs) ==> Enabled(Stepped(s, w), t)
  {
    hide Occupied;
    assert InsideOk(s, t);
    assert |Passing(s.pcs)| == 1;
    var w :| w in Passing(s.pcs);
    assert Enabled(s, w);
  }

  /** When nothing can move, only threads waiting for empty are left, and clients are registered. */
  lemma NoDeadlock(s: State, t: nat)
    requires Inv(s) && t < |s.pcs| && s.pcs[t] != Idle
    requires forall k: nat {:trigger Enabled(s, k)} :: k < |s.pcs| ==> !Enabled(s, k)
    ensures s.pcs[t] == WaitEmpty && s.mutex == 1 && s.size > 0 && |Occupied(s.clients)| == s.size
  {
    hide Occupied;
    NobodyPasses(s);
    assert !Enabled(s, t);
    assert InsideOk(s, t);
    if s.owner.Thread? {
      var o := s.owner.t;
      assert InsideOk(s, o);
      assert !Enabled(s, o);
      if s.pcs[o] == RegBlock {
        BlockedOnlyByWaiter(s, o);
      }
    }
  }

  lemma NobodyPasses(s: State)
    requires forall k: nat {:trigger Enabled(s, k)} :: k < |s.pcs| ==> !Enabled(s, k)
    ensures Passing(s.pcs) == {}
  {
    forall w | w in Passing(s.pcs)
      ensures false
    {
      assert Enabled(s, w);
    }
  }
}
