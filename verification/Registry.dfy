/** The registry object of hw5/src/client_registry.c, its array, count and semaphores changed by one step at a time. */
module Registry {
  import opened RegistrySteps

  predicate Registering(pc: Pc) {
    pc.RegWait? || pc.RegScan? || pc.RegTest? || pc.RegBlock? || pc.RegCount? || pc.RegPost?
  }

  predicate Unregistering(pc: Pc) {
    pc.UnWait? || pc.UnScan? || pc.UnCount? || pc.UnTest? || pc.UnSignal? || pc.UnPost?
  }

  class ClientRegistry {
    var size: int
    var empty: int
    var mutex: int
    const clients: array<Slot>
    const pcs: array<Pc>    // where each thread stands
    ghost var owner: Owner

    ghost function Value(): (s: State)
      reads this, clients, pcs
    {
      State(size, empty, mutex, clients[..], pcs[..], owner)
    }

    /** `creg_init`, with some threads about to use the registry. */
    constructor (threads: nat)
      ensures Value() == Initial(threads) && Inv(Value()) && fresh(clients) && fresh(pcs)
    {
      size := 0;
      empty := 1;
      mutex := 1;
      clients := new Slot[MAX_CLIENTS](_ => Free);
      pcs := new Pc[threads](_ => Idle);
      owner := Nobody;
      new;
      assert clients[..] == Initial(threads).clients;
      assert pcs[..] == Initial(threads).pcs;
      InitialInv(threads);
    }

    /** The loop of `creg_register`: the client goes to the first empty spot. */
    method Place(c: nat) returns (placed: bool)
      modifies clients
      ensures var k := FirstFree(old(clients[..]), 0);
        && placed == (k < clients.Length)
        && clients[..] == if placed then old(clients[..])[k := Held(c)] else old(clients[..])
    {
      ghost var was := clients[..];
      var i := 0;
      while i < clients.Length
        invariant 0 <= i <= clients.Length && clients[..] == was
        invariant FirstFree(was, 0) == FirstFree(was, i)
      {
        assert was[i] == clients[i];
        if clients[i].Free? {
          clients[i] := Held(c);
          return true;
        }
        i := i + 1;
      }
      return false;
    }

    /** The loop of `creg_unregister`: the client's spot is emptied. */
    method Displace(c: nat) returns (found: bool)
      modifies clients
      ensures var k := FindClient(old(clients[..]), c, 0);
        && found == (k < clients.Length)
        && clients[..] == if found then old(clients[..])[k := Free] else old(clients[..])
    {
      ghost var was := clients[..];
      var i := 0;
      while i < clients.Length
        invariant 0 <= i <= clients.Length && clients[..] == was
        invariant FindClient(was, c, 0) == FindClient(was, c, i)
      {
        assert was[i] == clients[i];
        if clients[i] == Held(c) {
          clients[i] := Free;
          return true;
        }
        i := i + 1;
      }
      return false;
    }

    method TakeMutex(t: nat, pc: Pc)
      requires t < pcs.Length && mutex > 0
      modifies `mutex, `owner, pcs
      ensures Value() == Enters(old(Value()), t, pc)
    {
      mutex := mutex - 1;
      pcs[t] := pc;
      owner := Thread(t);
    }

    method PostMutex(t: nat)
      requires t < pcs.Length
      modifies `mutex, `owner, pcs
      ensures Value() == Leaves(old(Value()), t)
    {
      mutex := mutex + 1;
      pcs[t] := Idle;
      owner := Nobody;
    }

    method Begin(t: nat, call: Call)
      requires Inv(Value()) && t < pcs.Length && pcs[t] == Idle
      modifies pcs
      ensures Inv(Value()) && Value() == Happens(old(Value()), Begins(t, call))
    {
      hide Inv;
      BeginKeepsInv(Value(), t, call);
      match call
      case Register(c) => pcs[t] := RegWait(c);
      case Unregister(c) => pcs[t] := UnWait(c);
      case WaitForEmpty => pcs[t] := WaitEmpty;
      case Read => pcs[t] := ReadWait;
    }

    /** One step of a thread inside `creg_register`. */
    method RegisterStep(t: nat)
      requires Enabled(Value(), t)
      requires Registering(pcs[t])
      modifies this, clients, pcs
      ensures Value() == Stepped(old(Value()), t)
    {
      match pcs[t]
      case RegWait(c) => TakeMutex(t, RegScan(c));
      case RegScan(c) =>
        var placed := Place(c);
        pcs[t] := if placed then RegTest else RegPost(false);
      case RegTest => pcs[t] := if size == 0 then RegBlock else RegCount;
      case RegBlock =>
        empty := empty - 1;
        pcs[t] := RegCount;
      case RegCount =>
        size := size + 1;
        pcs[t] := RegPost(true);
      case RegPost(_) => PostMutex(t);
    }

    /** One step of a thread inside `creg_unregister`. */
    method UnregisterStep(t: nat)
      requires Enabled(Value(), t)
      requires Unregistering(pcs[t])
      modifies this, clients, pcs
      ensures Value() == Stepped(old(Value()), t)
    {
      match pcs[t]
      case UnWait(c) => TakeMutex(t, UnScan(c));
      case UnScan(c) =>
        var found := Displace(c);
        pcs[t] := if found then UnCount else UnPost(false);
      case UnCount =>
        size := size - 1;
        pcs[t] := UnTest;
      case UnTest => pcs[t] := if size == 0 then UnSignal else UnPost(true);
      case UnSignal =>
        empty := empty + 1;
        pcs[t] := UnPost(true);
      case UnPost(_) => PostMutex(t);
    }

    /** One step of any thread that is not blocked. */
    method Step(t: nat)
      requires Inv(Value()) && Enabled(Value(), t)
      modifies this, clients, pcs
      ensures Inv(Value()) && Value() == Happens(old(Value()), Steps(t))
    {
      hide Inv, Stepped;
      StepKeepsInv(Value(), t);
      if Registering(pcs[t]) {
        RegisterStep(t);
      } else if Unregistering(pcs[t]) {
        UnregisterStep(t);
      } else if pcs[t] == WaitEmpty || pcs[t] == PassEmpty {
        WaitStep(t);
      } else {
        ReadStep(t);
      }
    }

    /** One step of a thread inside `creg_wait_for_empty`. */
    method WaitStep(t: nat)
      requires Enabled(Value(), t) && (pcs[t] == WaitEmpty || pcs[t] == PassEmpty)
      modifies `empty, pcs
      ensures Value() == Stepped(old(Value()), t)
    {
      if pcs[t] == WaitEmpty {
        empty := empty - 1;
        pcs[t] := PassEmpty;
      } else {
        empty := empty + 1;
        pcs[t] := Idle;
      }
    }

    /** One step of a thread that only looks, as `creg_lookup` does. */
    method ReadStep(t: nat)
      requires Enabled(Value(), t) && (pcs[t] == ReadWait || pcs[t] == ReadPost)
      modifies `mutex, `owner, pcs
      ensures Value() == Stepped(old(Value()), t)
    {
      if pcs[t] == ReadWait {
        TakeMutex(t, ReadPost);
      } else {
        PostMutex(t);
      }
    }

    method CanStep(t: nat) returns (ok: bool)
      ensures ok == Enabled(Value(), t)
    {
      if t >= pcs.Length {
        return false;
      }
      match pcs[t]
      case Idle => ok := false;
      case RegWait(_) => ok := mutex > 0;
      case UnWait(_) => ok := mutex > 0;
      case ReadWait => ok := mutex > 0;
      case RegBlock => ok := empty > 0;
      case WaitEmpty => ok := empty > 0;
      case _ => ok := true;
    }

    /** Any interleaving of the threads, on the object itself: what is proved of every run holds of it. */
    method Interleave(events: seq<Event>)
      requires Inv(Value())
      modifies this, clients, pcs
      ensures Inv(Value()) && Value() == Run(old(Value()), events)
    {
      hide Inv, Happens;
      ghost var s := Value();
      var i := 0;
      while i < |events|
        invariant 0 <= i <= |events| && Inv(Value())
        invariant Run(Value(), events[i..]) == Run(s, events)
      {
        assert events[i..][0] == events[i] && events[i..][1..] == events[i + 1..];
        Happen(events[i]);
        i := i + 1;
      }
      assert events[i..] == [];
    }

    method Happen(e: Event)
      requires Inv(Value())
      modifies this, clients, pcs
      ensures Inv(Value()) && Value() == Happens(old(Value()), e)
    {
      hide Inv, Stepped, Enabled;
      match e
      case Begins(t, call) =>
        if t < pcs.Length && pcs[t] == Idle {
          Begin(t, call);
        }
      case Steps(t) =>
        var ok := CanStep(t);
        if ok {
          Step(t);
        }
    }
  }
}
