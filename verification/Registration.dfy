/** Memory registration: several registrations of one address share a counted memory handle, found again
    through a map from the address to the first buffer structure registered for it. */
module Registration {
  import opened Common

  type Address = nat
  type BufferId = nat
  type HandleId = nat

  datatype Handle = Handle(addr: Address, refCount: int)

  /** The two fields of a caller's buffer structure that registration relies on. */
  datatype Buffer = Buffer(handle: HandleId, payload: Address)

  /** `live` says which structures are registered at present, and for which address; a structure that is
      not may be used again by its owner.  `made` counts the handles ever allocated. */
  datatype Registry = Registry(
    handles: map<HandleId, Handle>, freed: set<HandleId>, made: nat,
    buffers: map<BufferId, Buffer>, byAddress: map<Address, BufferId>, live: map<BufferId, Address>)

  function Init(): Registry {
    Registry(map[], {}, 0, map[], map[], map[])
  }

  // ----- operations -----

  /** The handle that a registration of `a` finds through the map. */
  function Lookup(s: Registry, a: Address): Option<HandleId> {
    if a in s.byAddress && s.byAddress[a] in s.buffers then Some(s.buffers[s.byAddress[a]].handle) else None
  }

  predicate CanRegister(s: Registry, a: Address, b: BufferId) {
    b !in s.live && (a in s.byAddress ==> Lookup(s, a).Some? && Lookup(s, a).value in s.handles)
  }

  /** Registering `a` in structure `b`: a new handle, or one more reference to the one found. */
  function Register(s: Registry, a: Address, b: BufferId): Registry
    requires CanRegister(s, a, b)
  {
    if a !in s.byAddress then
      s.(handles := s.handles[s.made := Handle(a, 1)], made := s.made + 1,
         buffers := s.buffers[b := Buffer(s.made, a)], byAddress := s.byAddress[a := b], live := s.live[b := a])
    else
      var h := Lookup(s, a).value;
      s.(handles := s.handles[h := s.handles[h].(refCount := s.handles[h].refCount + 1)],
         buffers := s.buffers[b := Buffer(h, a)], live := s.live[b := a])
  }

  predicate CanUnregister(s: Registry, b: BufferId) {
    b in s.live && b in s.buffers && s.buffers[b].handle in s.handles
  }

  /** Dropping a reference; the last one takes the address out of the map, frees the handle and clears
      the structure. */
  function Unregister(s: Registry, b: BufferId): Registry
    requires CanUnregister(s, b)
  {
    var h := s.buffers[b].handle;
    var n := s.handles[h].refCount - 1;
    if n == 0 then
      s.(handles := s.handles - {h}, freed := s.freed + {h}, buffers := s.buffers - {b},
         byAddress := s.byAddress - {s.buffers[b].payload}, live := s.live - {b})
    else
      s.(handles := s.handles[h := s.handles[h].(refCount := n)], live := s.live - {b})
  }

  // ----- the invariant -----

  function LiveAt(live: map<BufferId, Address>, a: Address): set<BufferId> {
    set b | b in live && live[b] == a
  }

  /** A registered structure refers to the handle of its address. */
  predicate Attached(s: Registry) {
    forall b | b in s.live :: b in s.buffers && s.buffers[b].payload == s.live[b] && s.live[b] in s.byAddress
      && Lookup(s, s.live[b]) == Some(s.buffers[b].handle)
  }

  /** The map leads from an address to the handle of that very address. */
  predicate Found(s: Registry) {
    forall a | a in s.byAddress ::
      Lookup(s, a).Some? && Lookup(s, a).value in s.handles && s.handles[Lookup(s, a).value].addr == a
  }

  /** Every handle is counted exactly, and is the one found for its address. */
  predicate Counted(s: Registry) {
    forall h | h in s.handles :: var x := s.handles[h];
      && x.refCount == |LiveAt(s.live, x.addr)| && x.refCount > 0
      && x.addr in s.byAddress && Lookup(s, x.addr) == Some(h)
  }

  predicate FreedOnce(s: Registry) {
    && (forall h | h in s.freed :: h < s.made && h !in s.handles)
    && (forall h | h in s.handles :: h < s.made)
    && |s.freed| + |s.handles| == s.made
  }

  predicate Inv(s: Registry) {
    Attached(s) && Found(s) && Counted(s) && FreedOnce(s)
  }

  /** Structure `b` is not the one through which another registered address is found. */
  predicate Harmless(s: Registry, a: Address, b: BufferId) {
    forall x | x in s.byAddress :: s.byAddress[x] == b ==> x == a
  }

  // ----- registering -----

  lemma LiveAdded(live: map<BufferId, Address>, b: BufferId, a: Address, x: Address)
    requires b !in live
    ensures LiveAt(live[b := a], x) == if x == a then LiveAt(live, x) + {b} else LiveAt(live, x)
    ensures b !in LiveAt(live, x)
  {
  }

  lemma LiveRemoved(live: map<BufferId, Address>, b: BufferId, x: Address)
    requires b in live
    ensures LiveAt(live - {b}, x) == LiveAt(live, x) - {b}
    ensures b in LiveAt(live, x) <==> live[b] == x
  {
  }

  /** The lookup of an address is not touched by a harmless registration. */
  lemma LookupAfterRegister(s: Registry, a: Address, b: BufferId, x: Address)
    requires CanRegister(s, a, b) && Harmless(s, a, b)
    ensures x != a && x in s.byAddress ==> Lookup(Register(s, a, b), x) == Lookup(s, x)
    ensures Lookup(Register(s, a, b), a) == Some(Register(s, a, b).buffers[b].handle)
  {
  }

  lemma RegisterKeepsAttached(s: Registry, a: Address, b: BufferId)
    requires Attached(s) && CanRegister(s, a, b) && Harmless(s, a, b)
    ensures Attached(Register(s, a, b))
  {
    var t := Register(s, a, b);
    forall c | c in t.live
      ensures c in t.buffers && t.buffers[c].payload == t.live[c] && t.live[c] in t.byAddress
        && Lookup(t, t.live[c]) == Some(t.buffers[c].handle)
    {
      LookupAfterRegister(s, a, b, t.live[c]);
    }
  }

  lemma RegisterKeepsFound(s: Registry, a: Address, b: BufferId)
    requires Found(s) && FreedOnce(s) && CanRegister(s, a, b) && Harmless(s, a, b)
    ensures Found(Register(s, a, b))
  {
    var t := Register(s, a, b);
    forall x | x in t.byAddress
      ensures Lookup(t, x).Some? && Lookup(t, x).value in t.handles && t.handles[Lookup(t, x).value].addr == x
    {
      LookupAfterRegister(s, a, b, x);
      assert x in s.byAddress ==> Lookup(s, x).value in s.handles;
    }
  }

  lemma NoneLiveElsewhere(s: Registry, a: Address)
    requires Attached(s) && a !in s.byAddress
    ensures LiveAt(s.live, a) == {}
  {
  }

  lemma CountAfterRegister(s: Registry, a: Address, b: BufferId, h: HandleId)
    requires Found(s) && Counted(s) && FreedOnce(s) && CanRegister(s, a, b) && Harmless(s, a, b)
    requires a !in s.byAddress ==> LiveAt(s.live, a) == {}
    requires h in Register(s, a, b).handles
    ensures var t := Register(s, a, b);
      var x := t.handles[h];
      && x.refCount == |LiveAt(t.live, x.addr)| && x.refCount > 0
      && x.addr in t.byAddress && Lookup(t, x.addr) == Some(h)
  {
    var x := Register(s, a, b).handles[h].addr;
    LookupAfterRegister(s, a, b, x);
    LiveAdded(s.live, b, a, x);
  }

  lemma RegisterKeepsCounted(s: Registry, a: Address, b: BufferId)
    requires Attached(s) && Found(s) && Counted(s) && FreedOnce(s) && CanRegister(s, a, b) && Harmless(s, a, b)
    ensures Counted(Register(s, a, b))
  {
    if a !in s.byAddress {
      NoneLiveElsewhere(s, a);
    }
    forall h | h in Register(s, a, b).handles
      ensures var t := Register(s, a, b);
        var x := t.handles[h];
        && x.refCount == |LiveAt(t.live, x.addr)| && x.refCount > 0
        && x.addr in t.byAddress && Lookup(t, x.addr) == Some(h)
    {
      CountAfterRegister(s, a, b, h);
    }
  }

  lemma RegisterKeepsFreed(s: Registry, a: Address, b: BufferId)
    requires FreedOnce(s) && CanRegister(s, a, b)
    ensures FreedOnce(Register(s, a, b))
  {
    var t := Register(s, a, b);
    if a !in s.byAddress {
      assert |t.handles| == |s.handles| + 1;
    } else {
      assert t.handles.Keys == s.handles.Keys;
      assert |t.handles| == |t.handles.Keys| && |s.handles| == |s.handles.Keys|;
    }
  }

  // ----- unregistering -----

  /** What the invariant says about one registered structure. */
  predicate Held(s: Registry, b: BufferId, x: Address, h: HandleId) {
    && b in s.live && s.live[b] == x && b in s.buffers && s.buffers[b] == Buffer(h, x)
    && x in s.byAddress && Lookup(s, x) == Some(h)
    && h in s.handles && s.handles[h] == Handle(x, |LiveAt(s.live, x)|)
    && b in LiveAt(s.live, x)
  }

  lemma LiveIsHeld(s: Registry, b: BufferId)
    requires Attached(s) && Found(s) && Counted(s) && b in s.live
    ensures CanUnregister(s, b) && Held(s, b, s.live[b], s.buffers[b].handle)
  {
    assert s.live[b] in s.byAddress;
  }

  lemma LookupAfterUnregister(s: Registry, b: BufferId, x: Address, h: HandleId, y: Address)
    requires Found(s) && Held(s, b, x, h)
    ensures y in s.byAddress && (y != x || s.handles[h].refCount > 1) ==> Lookup(Unregister(s, b), y) == Lookup(s, y)
    ensures |LiveAt(s.live, x)| > 0
  {
    assert y in s.byAddress ==> Lookup(s, y).value in s.handles;
    assert LiveAt(s.live, x) != {};
  }

  /** When the last reference goes, no other structure is registered for the address. */
  lemma LastReference(s: Registry, b: BufferId, x: Address, h: HandleId, c: BufferId)
    requires Held(s, b, x, h) && s.handles[h].refCount == 1 && c in s.live && s.live[c] == x
    ensures c == b
  {
    assert LiveAt(s.live, x) == {b} by {
      assert |LiveAt(s.live, x) - {b}| == 0;
    }
    assert c in LiveAt(s.live, x);
  }

  lemma UnregisterKeepsAttached(s: Registry, b: BufferId, x: Address, h: HandleId)
    requires Attached(s) && Found(s) && Held(s, b, x, h)
    ensures Attached(Unregister(s, b))
  {
    var t := Unregister(s, b);
    forall c | c in t.live
      ensures c in t.buffers && t.buffers[c].payload == t.live[c] && t.live[c] in t.byAddress
        && Lookup(t, t.live[c]) == Some(t.buffers[c].handle)
    {
      if s.handles[h].refCount == 1 && s.live[c] == x {
        LastReference(s, b, x, h, c);
      }
      LookupAfterUnregister(s, b, x, h, s.live[c]);
    }
  }

  lemma UnregisterKeepsFound(s: Registry, b: BufferId, x: Address, h: HandleId)
    requires Found(s) && Held(s, b, x, h)
    ensures Found(Unregister(s, b))
  {
    var t := Unregister(s, b);
    forall y | y in t.byAddress
      ensures Lookup(t, y).Some? && Lookup(t, y).value in t.handles && t.handles[Lookup(t, y).value].addr == y
    {
      LookupAfterUnregister(s, b, x, h, y);
      assert Lookup(s, y).value in s.handles;
    }
  }

  lemma UnregisterKeepsCounted(s: Registry, b: BufferId, x: Address, h: HandleId)
    requires Found(s) && Counted(s) && Held(s, b, x, h)
    ensures Counted(Unregister(s, b))
  {
    var t := Unregister(s, b);
    forall g | g in t.handles
      ensures var y := t.handles[g];
        && y.refCount == |LiveAt(t.live, y.addr)| && y.refCount > 0
        && y.addr in t.byAddress && Lookup(t, y.addr) == Some(g)
    {
      var y := s.handles[g].addr;
      LookupAfterUnregister(s, b, x, h, y);
      LiveRemoved(s.live, b, y);
    }
  }

  lemma UnregisterKeepsFreed(s: Registry, b: BufferId, x: Address, h: HandleId)
    requires FreedOnce(s) && Held(s, b, x, h)
    ensures FreedOnce(Unregister(s, b))
  {
    var t := Unregister(s, b);
    assert |t.handles| == |t.handles.Keys| && |s.handles| == |s.handles.Keys|;
    if s.handles[h].refCount == 1 {
      assert t.handles.Keys == s.handles.Keys - {h};
    } else {
      assert t.handles.Keys == s.handles.Keys;
    }
  }

  // ----- whole runs -----

  datatype Step = Registers(a: Address, b: BufferId) | Unregisters(b: BufferId)

  predicate Enabled(s: Registry, t: Step) {
    match t
    case Registers(a, b) => CanRegister(s, a, b)
    case Unregisters(b) => CanUnregister(s, b)
  }

  /** Nothing is asked of callers but to register in structures that are not registered and to unregister
      those that are: the handles then are where they are looked for. */
  lemma EnabledIff(s: Registry, t: Step)
    requires Inv(s)
    ensures t.Registers? ==> (Enabled(s, t) <==> t.b !in s.live)
    ensures t.Unregisters? ==> (Enabled(s, t) <==> t.b in s.live)
  {
    if t.Unregisters? && t.b in s.live {
      LiveIsHeld(s, t.b);
    }
  }

  function Apply(s: Registry, t: Step): Registry
    requires Enabled(s, t)
  {
    match t
    case Registers(a, b) => Register(s, a, b)
    case Unregisters(b) => Unregister(s, b)
  }

  lemma RegisterKeepsInv(s: Registry, a: Address, b: BufferId)
    requires Inv(s) && CanRegister(s, a, b) && Harmless(s, a, b)
    ensures Inv(Register(s, a, b))
  {
    RegisterKeepsAttached(s, a, b);
    RegisterKeepsFound(s, a, b);
    RegisterKeepsCounted(s, a, b);
    RegisterKeepsFreed(s, a, b);
  }

  lemma UnregisterKeepsInv(s: Registry, b: BufferId)
    requires Inv(s) && b in s.live
    ensures CanUnregister(s, b) && Inv(Unregister(s, b))
  {
    LiveIsHeld(s, b);
    var x, h := s.live[b], s.buffers[b].handle;
    UnregisterKeepsAttached(s, b, x, h);
    UnregisterKeepsFound(s, b, x, h);
    UnregisterKeepsCounted(s, b, x, h);
    UnregisterKeepsFreed(s, b, x, h);
  }

  /** A registration keeps every address attached to its own handle if and only if it does not write over
      the structure through which another address, still registered, is found. */
  lemma RegisterKeepsInvIff(s: Registry, a: Address, b: BufferId)
    requires Inv(s) && b !in s.live
    ensures CanRegister(s, a, b) && (Inv(Register(s, a, b)) <==> Harmless(s, a, b))
  {
    EnabledIff(s, Registers(a, b));
    if Harmless(s, a, b) {
      RegisterKeepsInv(s, a, b);
    } else {
      var x :| x in s.byAddress && s.byAddress[x] == b && x != a;
      var t := Register(s, a, b);
      assert Lookup(t, x) == Lookup(t, a);
      assert !Found(t);
    }
  }

  predicate Allowed(s: Registry, t: Step) {
    Enabled(s, t) && (t.Registers? ==> Harmless(s, t.a, t.b))
  }

  lemma StepKeepsInv(s: Registry, t: Step)
    requires Inv(s) && Allowed(s, t)
    ensures Inv(Apply(s, t))
  {
    match t
    case Registers(a, b) => RegisterKeepsInv(s, a, b);
    case Unregisters(b) => UnregisterKeepsInv(s, b);
  }

  predicate ValidRun(s: Registry, ts: seq<Step>)
    decreases |ts|
  {
    ts == [] || (Allowed(s, ts[0]) && ValidRun(Apply(s, ts[0]), ts[1..]))
  }

  function After(s: Registry, ts: seq<Step>): Registry
    requires ValidRun(s, ts)
    decreases |ts|
  {
    if ts == [] then s else After(Apply(s, ts[0]), ts[1..])
  }

  lemma {:induction false} RunKeepsInv(s: Registry, ts: seq<Step>)
    requires Inv(s) && ValidRun(s, ts)
    ensures Inv(After(s, ts))
    decreases |ts|
  {
    if ts != [] {
      StepKeepsInv(s, ts[0]);
      RunKeepsInv(Apply(s, ts[0]), ts[1..]);
    }
  }

  lemma FoundIsCounted(s: Registry, a: Address)
    requires Found(s) && Counted(s) && a in s.byAddress
    ensures Lookup(s, a).Some? && Lookup(s, a).value in s.handles
    ensures s.handles[Lookup(s, a).value] == Handle(a, |LiveAt(s.live, a)|) && LiveAt(s.live, a) != {}
  {
  }

  /** In every reachable state an address is found exactly while it is registered, and the handle found
      for it is its own, with as many references as there are registrations. */
  lemma {:induction false} LookupFindsCountedHandle(ts: seq<Step>, a: Address)
    requires ValidRun(Init(), ts)
    ensures var s := After(Init(), ts);
      && (Lookup(s, a).Some? <==> LiveAt(s.live, a) != {})
      && (Lookup(s, a).Some? ==>
            (Lookup(s, a).value in s.handles && s.handles[Lookup(s, a).value] == Handle(a, |LiveAt(s.live, a)|)))
  {
    RunKeepsInv(Init(), ts);
    var s := After(Init(), ts);
    if a in s.byAddress {
      FoundIsCounted(s, a);
    } else {
      NoneLiveElsewhere(s, a);
    }
  }

  /** When nothing is registered any more, every handle ever allocated has been freed, each one once. */
  lemma {:induction false} EverythingIsFreed(ts: seq<Step>)
    requires ValidRun(Init(), ts) && After(Init(), ts).live == map[]
    ensures var s := After(Init(), ts);
      s.handles == map[] && s.byAddress == map[] && |s.freed| == s.made
  {
    RunKeepsInv(Init(), ts);
    var s := After(Init(), ts);
    assert forall a: Address :: LiveAt(s.live, a) == {};
    assert forall h :: h !in s.handles;
    assert forall a :: a !in s.byAddress;
    assert s.handles == map[] && s.byAddress == map[];
  }

  lemma {:induction false} RunSnoc(s: Registry, ts: seq<Step>, t: Step)
    requires ValidRun(s, ts) && Allowed(After(s, ts), t)
    ensures ValidRun(s, ts + [t]) && After(s, ts + [t]) == Apply(After(s, ts), t)
    decreases |ts|
  {
    if ts == [] {
      assert ts + [t] == [t] && [t][1..] == [];
    } else {
      assert (ts + [t])[0] == ts[0] && (ts + [t])[1..] == ts[1..] + [t];
      RunSnoc(Apply(s, ts[0]), ts[1..], t);
    }
  }

  /** A structure through which address `x` is found and which is written over for `a` leads every later
      registration of `x` to the handle of `a`. */
  lemma ReuseMisleads(s: Registry, a: Address, b: BufferId, x: Address)
    requires Inv(s) && b !in s.live && x in s.byAddress && s.byAddress[x] == b && x != a
    ensures CanRegister(s, a, b)
    ensures var t := Register(s, a, b);
      Lookup(t, x).Some? && Lookup(t, x).value in t.handles && t.handles[Lookup(t, x).value].addr == a
  {
    EnabledIff(s, Registers(a, b));
  }

  lemma TwoRegistrations() returns (ts: seq<Step>)
    ensures ValidRun(Init(), ts)
    ensures var s := After(Init(), ts);
      s.live == map[1 := 10, 2 := 10] && s.byAddress == map[10 := 1]
  {
    ts := [];
    RunSnoc(Init(), ts, Registers(10, 1));
    ts := ts + [Registers(10, 1)];
    RunSnoc(Init(), ts, Registers(10, 2));
    ts := ts + [Registers(10, 2)];
  }

  lemma FirstOfTwoGoes(s: Registry)
    requires Inv(s) && s.live == map[1 := 10, 2 := 10] && s.byAddress == map[10 := 1]
    ensures CanUnregister(s, 1)
    ensures var t := Unregister(s, 1);
      1 !in t.live && 2 in t.live && 10 in t.byAddress && t.byAddress[10] == 1
  {
    LiveIsHeld(s, 1);
    assert LiveAt(s.live, 10) == {1, 2};
  }

  /** Such a structure comes about: register address 10 in two of them and unregister it in the first. */
  lemma ReuseIsReachable() returns (ts: seq<Step>)
    ensures ValidRun(Init(), ts)
    ensures var s := After(Init(), ts);
      1 !in s.live && 2 in s.live && 10 in s.byAddress && s.byAddress[10] == 1
  {
    ts := TwoRegistrations();
    RunKeepsInv(Init(), ts);
    FirstOfTwoGoes(After(Init(), ts));
    RunSnoc(Init(), ts, Unregisters(1));
    ts := ts + [Unregisters(1)];
  }

  // ----- registration, updated in place -----

  /** The handle a registration leaves in the structure. */
  lemma RegisteredHandle(s: Registry, a: Address, b: BufferId)
    requires Attached(s) && Found(s) && Counted(s) && CanRegister(s, a, b)
    ensures var t := Register(s, a, b);
      && b in t.buffers && t.buffers[b].payload == a && t.buffers[b].handle in t.handles
      && t.handles[t.buffers[b].handle] == Handle(a, |LiveAt(s.live, a)| + 1)
  {
    if a in s.byAddress {
      FoundIsCounted(s, a);
    } else {
      NoneLiveElsewhere(s, a);
    }
  }

  lemma UnregisteredHandle(s: Registry, b: BufferId)
    requires Inv(s) && b in s.live && CanUnregister(s, b)
    ensures var t, x := Unregister(s, b), s.live[b];
      && (s.buffers[b].handle !in t.handles <==> LiveAt(s.live, x) == {b})
      && t.live == s.live - {b} && (x in t.byAddress <==> LiveAt(t.live, x) != {})
      && t.buffers == if LiveAt(s.live, x) == {b} then s.buffers - {b} else s.buffers
  {
    LiveIsHeld(s, b);
    LiveRemoved(s.live, b, s.live[b]);
    var here := LiveAt(s.live, s.live[b]);
    assert here == {b} + (here - {b});
  }

  class MemoryMap {
    var handles: map<HandleId, Handle>
    ghost var freed: set<HandleId>
    var made: nat
    var buffers: map<BufferId, Buffer>
    var byAddress: map<Address, BufferId>
    ghost var live: map<BufferId, Address>

    ghost function View(): Registry
      reads this
    {
      Registry(handles, freed, made, buffers, byAddress, live)
    }

    ghost predicate Valid()
      reads this
    {
      Inv(View())
    }

    constructor ()
      ensures Valid() && View() == Init()
    {
      handles, freed, made, buffers, byAddress, live := map[], {}, 0, map[], map[], map[];
    }

    method AddReference(a: Address, b: BufferId)
      requires CanRegister(View(), a, b)
      modifies this
      ensures View() == Register(old(View()), a, b)
    {
      var h: HandleId;
      if a !in byAddress {
        h := made;
        handles := handles[h := Handle(a, 1)];
        made := made + 1;
        byAddress := byAddress[a := b];
      } else {
        h := buffers[byAddress[a]].handle;
        handles := handles[h := handles[h].(refCount := handles[h].refCount + 1)];
      }
      buffers := buffers[b := Buffer(h, a)];
      live := live[b := a];
    }

    /** Registering any address in any structure that is not registered: the structure gets a handle of that
        address with one reference more than there were registrations, and everything stays in order exactly
        if no other address is found through the structure. */
    method RegisterMemory(a: Address, b: BufferId)
      requires Valid() && b !in live
      modifies this
      ensures CanRegister(old(View()), a, b) && View() == Register(old(View()), a, b)
      ensures Valid() <==> Harmless(old(View()), a, b)
      ensures b in buffers && buffers[b].payload == a && buffers[b].handle in handles
      ensures handles[buffers[b].handle] == Handle(a, |LiveAt(old(live), a)| + 1)
    {
      RegisterKeepsInvIff(View(), a, b);
      RegisteredHandle(View(), a, b);
      AddReference(a, b);
    }

    method DropReference(b: BufferId)
      requires CanUnregister(View(), b)
      modifies this
      ensures View() == Unregister(old(View()), b)
    {
      var h := buffers[b].handle;
      var n := handles[h].refCount - 1;
      if n == 0 {
        byAddress := byAddress - {buffers[b].payload};
        handles := handles - {h};
        freed := freed + {h};
        buffers := buffers - {b};
      } else {
        handles := handles[h := handles[h].(refCount := n)];
      }
      live := live - {b};
    }

    /** Unregistering any registered structure: the handle goes exactly if it was the address's last
        registration, and otherwise counts one less. */
    method UnregisterMemory(b: BufferId)
      requires Valid() && b in live
      modifies this
      ensures Valid() && CanUnregister(old(View()), b) && View() == Unregister(old(View()), b)
      ensures old(buffers[b].handle) !in handles <==> LiveAt(old(live), old(live[b])) == {b}
      ensures live == old(live) - {b} && (old(live[b]) in byAddress <==> LiveAt(live, old(live[b])) != {})
      ensures buffers == if LiveAt(old(live), old(live[b])) == {b} then old(buffers) - {b} else old(buffers)
    {
      UnregisterKeepsInv(View(), b);
      UnregisteredHandle(View(), b);
      DropReference(b);
    }
  }
}
