/** Who is in the client registry: over every run, what the threads have done is what the array holds. */
module RegistryHistory {
  import opened RegistrySteps

  // ----- what a thread does, told by the state before its step -----

  /** Some spot is empty. */
  ghost predicate SomeFree(clients: seq<Slot>) {
    exists k :: 0 <= k < |clients| && clients[k].Free?
  }

  ghost predicate SomeHeld(clients: seq<Slot>, c: nat) {
    exists k :: 0 <= k < |clients| && clients[k] == Held(c)
  }

  datatype Deed =
    | Enters(client: nat)              // a thread registers the client, finding an empty spot
    | Exits(client: nat)               // a thread unregisters the client, finding it
    | Succeeds(t: nat, registers: bool)   // thread `t` finds its spot or its client
    | Fails(t: nat, registers: bool)
    | Returns(t: nat, registers: bool, ok: bool)
    | Asks(t: nat, registers: bool, client: nat)    // thread `t` calls for this client
    | Scans(t: nat, registers: bool, client: nat)   // thread `t` goes through the spots for this client

  /** Thread `t` stands at `pc` and takes a step. */
  predicate StepsAt(s: State, e: Event, t: nat, pc: Pc) {
    e == Event.Steps(t) && t < |s.pcs| && s.pcs[t] == pc
  }

  /** Whether the event is such a deed. */
  ghost predicate Does(s: State, e: Event, d: Deed) {
    match d
    case Enters(c) => e.Steps? && StepsAt(s, e, e.t, RegScan(c)) && SomeFree(s.clients)
    case Exits(c) => e.Steps? && StepsAt(s, e, e.t, UnScan(c)) && SomeHeld(s.clients, c)
    case Succeeds(t, registers) =>
      && e == Event.Steps(t) && t < |s.pcs|
      && if registers then s.pcs[t].RegScan? && SomeFree(s.clients)
         else s.pcs[t].UnScan? && SomeHeld(s.clients, s.pcs[t].client)
    case Fails(t, registers) =>
      && e == Event.Steps(t) && t < |s.pcs|
      && if registers then s.pcs[t].RegScan? && !SomeFree(s.clients)
         else s.pcs[t].UnScan? && !SomeHeld(s.clients, s.pcs[t].client)
    case Asks(t, registers, c) =>
      t < |s.pcs| && s.pcs[t] == Idle && e == Begins(t, if registers then Register(c) else Unregister(c))
    case Scans(t, registers, c) => StepsAt(s, e, t, if registers then RegScan(c) else UnScan(c))
    case Returns(t, registers, ok) => StepsAt(s, e, t, if registers then RegPost(ok) else UnPost(ok))
  }

  /** How often something is done in a run. */
  ghost function Times(s: State, events: seq<Event>, d: Deed): nat
    decreases |events|
  {
    if events == [] then 0
    else (if Does(s, events[0], d) then 1 else 0) + Times(Happens(s, events[0]), events[1..], d)
  }

  /** The spots that hold client `c`. */
  ghost function Spots(clients: seq<Slot>, c: nat): set<int> {
    set k | 0 <= k < |clients| && clients[k] == Held(c)
  }

  // ----- what one step does to the array and to the thread -----

  /** The lowest empty spot. */
  ghost predicate LowestFree(clients: seq<Slot>, k: int) {
    0 <= k < |clients| && clients[k].Free? && forall j | 0 <= j < k :: !clients[j].Free?
  }

  ghost predicate LowestHeld(clients: seq<Slot>, c: nat, k: int) {
    0 <= k < |clients| && clients[k] == Held(c) && forall j | 0 <= j < k :: clients[j] != Held(c)
  }

  lemma {:induction false} FirstFreeIsLowest(clients: seq<Slot>, i: nat)
    requires i <= |clients|
    ensures forall j | i <= j < FirstFree(clients, i) :: !clients[j].Free?
    decreases |clients| - i
  {
    if i < |clients| && !clients[i].Free? {
      FirstFreeIsLowest(clients, i + 1);
    }
  }

  lemma {:induction false} FindClientIsLowest(clients: seq<Slot>, c: nat, i: nat)
    requires i <= |clients|
    ensures forall j | i <= j < FindClient(clients, c, i) :: clients[j] != Held(c)
    decreases |clients| - i
  {
    if i < |clients| && clients[i] != Held(c) {
      FindClientIsLowest(clients, c, i + 1);
    }
  }

  /** A register puts its own client into the lowest empty spot, and changes nothing if there is none. */
  lemma RegisterPlaces(s: State, t: nat, c: nat)
    requires t < |s.pcs| && s.pcs[t] == RegScan(c)
    ensures var u := Happens(s, Event.Steps(t));
      if SomeFree(s.clients) then
        u.pcs[t] == RegTest && exists k :: LowestFree(s.clients, k) && u.clients == s.clients[k := Held(c)]
      else u.pcs[t] == RegPost(false) && u.clients == s.clients
  {
    FirstFreeIsLowest(s.clients, 0);
    var k := FirstFree(s.clients, 0);
    if SomeFree(s.clients) {
      assert LowestFree(s.clients, k);
    }
  }

  /** An unregister empties the lowest spot of its own client, and changes nothing if there is none. */
  lemma UnregisterDisplaces(s: State, t: nat, c: nat)
    requires t < |s.pcs| && s.pcs[t] == UnScan(c)
    ensures var u := Happens(s, Event.Steps(t));
      if SomeHeld(s.clients, c) then
        u.pcs[t] == UnCount && exists k :: LowestHeld(s.clients, c, k) && u.clients == s.clients[k := Free]
      else u.pcs[t] == UnPost(false) && u.clients == s.clients
  {
    FindClientIsLowest(s.clients, c, 0);
    var k := FindClient(s.clients, c, 0);
    if SomeHeld(s.clients, c) {
      assert LowestHeld(s.clients, c, k);
    }
  }

  /** Nothing else touches the array. */
  lemma OthersKeepClients(s: State, e: Event)
    requires e.Steps? && e.t < |s.pcs| ==> !s.pcs[e.t].RegScan? && !s.pcs[e.t].UnScan?
    ensures Happens(s, e).clients == s.clients
  {
  }

  // ----- over every run -----

  lemma SpotsAt(clients: seq<Slot>, k: int, slot: Slot, c: nat)
    requires 0 <= k < |clients|
    ensures Spots(clients[k := slot], c) == if slot == Held(c) then Spots(clients, c) + {k} else Spots(clients, c) - {k}
    ensures k in Spots(clients, c) <==> clients[k] == Held(c)
  {
  }

  lemma EventMovesSpots(s: State, e: Event, c: nat)
    ensures |Spots(Happens(s, e).clients, c)|
         == |Spots(s.clients, c)| + (if Does(s, e, Enters(c)) then 1 else 0) - (if Does(s, e, Exits(c)) then 1 else 0)
  {
    hide Spots, Happens;
    if e.Steps? && e.t < |s.pcs| && s.pcs[e.t].RegScan? {
      RegisterPlaces(s, e.t, s.pcs[e.t].client);
      if SomeFree(s.clients) {
        var k :| LowestFree(s.clients, k) && Happens(s, e).clients == s.clients[k := Held(s.pcs[e.t].client)];
        SpotsAt(s.clients, k, Held(s.pcs[e.t].client), c);
        assert Spots(s.clients, c) - {k} == Spots(s.clients, c);
      }
    } else if e.Steps? && e.t < |s.pcs| && s.pcs[e.t].UnScan? {
      var d := s.pcs[e.t].client;
      UnregisterDisplaces(s, e.t, d);
      if SomeHeld(s.clients, d) {
        var k :| LowestHeld(s.clients, d, k) && Happens(s, e).clients == s.clients[k := Free];
        SpotsAt(s.clients, k, Free, c);
        assert c != d ==> Spots(s.clients, c) - {k} == Spots(s.clients, c);
      }
    } else {
      OthersKeepClients(s, e);
    }
  }

  lemma {:induction false} RunMovesSpots(s: State, events: seq<Event>, c: nat)
    ensures |Spots(Run(s, events).clients, c)|
         == |Spots(s.clients, c)| + Times(s, events, Enters(c)) - Times(s, events, Exits(c))
    decreases |events|
  {
    hide Spots, Happens, Does;
    if events != [] {
      EventMovesSpots(s, events[0], c);
      RunMovesSpots(Happens(s, events[0]), events[1..], c);
    }
  }

  /** Over every run the spots of a client are its registrations less its unregistrations; there are 64 spots. */
  lemma {:induction false} SpotsAreHistory(threads: nat, events: seq<Event>, c: nat)
    ensures var s := Run(Initial(threads), events);
      && |s.clients| == 64
      && |Spots(s.clients, c)|
         == Times(Initial(threads), events, Enters(c)) - Times(Initial(threads), events, Exits(c))
  {
    hide Run, Times, Initial;
    RunMovesSpots(Initial(threads), events, c);
    NoSpots(threads, c);
    InitialInv(threads);
    RunsKeepInv(Initial(threads), events);
    SpotCount(Run(Initial(threads), events));
  }

  lemma NoSpots(threads: nat, c: nat)
    ensures Spots(Initial(threads).clients, c) == {}
  {
  }

  lemma SpotCount(s: State)
    requires Inv(s)
    ensures |s.clients| == 64
  {
  }

  // ----- what a call returns -----

  /** The thread has found its spot or its client and has not returned yet. */
  predicate Underway(pc: Pc, registers: bool) {
    if registers then pc.RegTest? || pc.RegBlock? || pc.RegCount? || pc == RegPost(true)
    else pc.UnCount? || pc.UnTest? || pc.UnSignal? || pc == UnPost(true)
  }

  function PcOf(s: State, t: nat): Pc {
    if t < |s.pcs| then s.pcs[t] else Idle
  }

  lemma EventTellsSuccess(s: State, e: Event, t: nat, registers: bool)
    ensures (if Underway(PcOf(Happens(s, e), t), registers) then 1 else 0)
         == (if Underway(PcOf(s, t), registers) then 1 else 0) + (if Does(s, e, Succeeds(t, registers)) then 1 else 0)
            - (if Does(s, e, Returns(t, registers, true)) then 1 else 0)
  {
    hide FirstFree, FindClient, SomeFree, SomeHeld;
    if e == Event.Steps(t) && t < |s.pcs| && s.pcs[t].RegScan? {
      RegisterPlaces(s, t, s.pcs[t].client);
    } else if e == Event.Steps(t) && t < |s.pcs| && s.pcs[t].UnScan? {
      UnregisterDisplaces(s, t, s.pcs[t].client);
    }
  }

  lemma EventTellsFailure(s: State, e: Event, t: nat, registers: bool)
    ensures var post := if registers then RegPost(false) else UnPost(false);
      (if PcOf(Happens(s, e), t) == post then 1 else 0)
      == (if PcOf(s, t) == post then 1 else 0) + (if Does(s, e, Fails(t, registers)) then 1 else 0)
         - (if Does(s, e, Returns(t, registers, false)) then 1 else 0)
  {
    hide FirstFree, FindClient, SomeFree, SomeHeld;
    if e == Event.Steps(t) && t < |s.pcs| && s.pcs[t].RegScan? {
      RegisterPlaces(s, t, s.pcs[t].client);
    } else if e == Event.Steps(t) && t < |s.pcs| && s.pcs[t].UnScan? {
      UnregisterDisplaces(s, t, s.pcs[t].client);
    }
  }

  lemma {:induction false} RunTells(s: State, events: seq<Event>, t: nat, registers: bool)
    ensures var u := Run(s, events);
      Times(s, events, Succeeds(t, registers)) + (if Underway(PcOf(s, t), registers) then 1 else 0)
      == Times(s, events, Returns(t, registers, true)) + (if Underway(PcOf(u, t), registers) then 1 else 0)
    ensures var u, post := Run(s, events), if registers then RegPost(false) else UnPost(false);
      Times(s, events, Fails(t, registers)) + (if PcOf(s, t) == post then 1 else 0)
      == Times(s, events, Returns(t, registers, false)) + (if PcOf(u, t) == post then 1 else 0)
    decreases |events|
  {
    hide Happens, Does, Underway, PcOf;
    if events != [] {
      EventTellsSuccess(s, events[0], t, registers);
      EventTellsFailure(s, events[0], t, registers);
      RunTells(Happens(s, events[0]), events[1..], t, registers);
    }
  }

  /**
   * Over every run and for every thread, the calls that returned success, with the one underway, are those that found
   * a spot or their client; the calls that returned failure are those that did not.
   */
  lemma {:induction false} CallsReturnWhatTheyDid(threads: nat, events: seq<Event>, t: nat, registers: bool)
    ensures var s, u := Initial(threads), Run(Initial(threads), events);
      var post := if registers then RegPost(false) else UnPost(false);
      && Times(s, events, Succeeds(t, registers))
         == Times(s, events, Returns(t, registers, true)) + (if Underway(PcOf(u, t), registers) then 1 else 0)
      && Times(s, events, Fails(t, registers))
         == Times(s, events, Returns(t, registers, false)) + (if PcOf(u, t) == post then 1 else 0)
  {
    hide Run, Times, Does, Happens;
    RunTells(Initial(threads), events, t, registers);
  }

  /** The thread has been called for the client and has not gone through the spots yet. */
  predicate Called(pc: Pc, registers: bool, c: nat) {
    if registers then pc == RegWait(c) || pc == RegScan(c) else pc == UnWait(c) || pc == UnScan(c)
  }

  lemma EventTellsCall(s: State, e: Event, t: nat, registers: bool, c: nat)
    ensures (if Called(PcOf(Happens(s, e), t), registers, c) then 1 else 0)
         == (if Called(PcOf(s, t), registers, c) then 1 else 0) + (if Does(s, e, Asks(t, registers, c)) then 1 else 0)
            - (if Does(s, e, Scans(t, registers, c)) then 1 else 0)
  {
    hide FirstFree, FindClient;
  }

  lemma {:induction false} RunTellsCalls(s: State, events: seq<Event>, t: nat, registers: bool, c: nat)
    ensures Times(s, events, Asks(t, registers, c)) + (if Called(PcOf(s, t), registers, c) then 1 else 0)
         == Times(s, events, Scans(t, registers, c)) + (if Called(PcOf(Run(s, events), t), registers, c) then 1 else 0)
    decreases |events|
  {
    hide Happens, Does, Called, PcOf;
    if events != [] {
      EventTellsCall(s, events[0], t, registers, c);
      RunTellsCalls(Happens(s, events[0]), events[1..], t, registers, c);
    }
  }

  /** Over every run a thread goes through the spots for a client as often as it is called for it, one call underway. */
  lemma {:induction false} CallsScanForTheirClient(threads: nat, events: seq<Event>, t: nat, registers: bool, c: nat)
    ensures Times(Initial(threads), events, Asks(t, registers, c))
         == Times(Initial(threads), events, Scans(t, registers, c))
            + (if Called(PcOf(Run(Initial(threads), events), t), registers, c) then 1 else 0)
  {
    hide Run, Times, Does, Happens;
    RunTellsCalls(Initial(threads), events, t, registers, c);
  }
}
