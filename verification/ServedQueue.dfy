/** The receive queue as its user sees it: the flow control together with one user who creates,
    waits for and destroys one receive work request at a time. */
module ServedQueue {
  import opened Common
  import opened RequestRing
  import opened FlowControl
  import opened FlowSafety

  /** What the user is doing with the work request it was given. */
  datatype Phase = Ready | Holding(index: nat) | Waited(index: nat)

  /** `seen` records the messages, with their senders, that waits have returned. */
  datatype Served = Served(sys: System, head: nat, tail: nat, phase: Phase, seen: seq<Tagged<Message>>)

  datatype UserStep = Protocol(t: Step) | Create | Wait | Destroy

  function States(cfg: Config, v: Served): (r: seq<WrState>)
    requires Shape(cfg, v.sys)
    ensures |r| == cfg.reqCount
    ensures forall k | 0 <= k < |r| :: r[k] == v.sys.recv.slots[k].state
  {
    seq(cfg.reqCount, k requires 0 <= k < cfg.reqCount => v.sys.recv.slots[k].state)
  }

  /** `reqIndex` as a destroy leaves it: set back to zero when it has gone all the way round
      and both ends of the ring are at slot zero. */
  function ResetIndex(cfg: Config, reqIndex: nat, head: nat, tail: nat): nat {
    if reqIndex >= cfg.reqCount && head == 0 && tail == 0 then 0 else reqIndex
  }

  /** The index is never set back before it has gone all the way round, nor while any request is held, which keeps the
      two ends of the ring apart. */
  lemma HeldRequestsKeepIndex(cfg: Config, reqIndex: nat, head: nat, tail: nat)
    ensures head != tail || reqIndex < cfg.reqCount ==> ResetIndex(cfg, reqIndex, head, tail) == reqIndex
    ensures ResetIndex(cfg, reqIndex, 0, 0) == if reqIndex < cfg.reqCount then reqIndex else 0
  {
  }

  predicate ServedShape(cfg: Config, v: Served) {
    && Shape(cfg, v.sys)
    && v.head < cfg.reqCount && v.tail < cfg.reqCount
    && (v.phase != Ready ==> v.phase.index < cfg.reqCount)
  }

  /** Slot states, tail and `reqIndex` after the held work request is destroyed. */
  function DestroyEffect(cfg: Config, v: Served): (r: (seq<WrState>, nat, nat))
    requires ServedShape(cfg, v) && v.phase.Waited?
    ensures |r.0| == cfg.reqCount && r.1 < cfg.reqCount
  {
    var d := Destroyed(States(cfg, v), v.head, v.tail, v.phase.index);
    (d.0, d.1, ResetIndex(cfg, v.sys.recv.reqIndex, v.head, d.1))
  }

  predicate UserEnabled(cfg: Config, v: Served, u: UserStep)
    requires ServedShape(cfg, v)
  {
    match u
    case Protocol(t) => !t.User? && Enabled(cfg, v.sys, t)
    case Create =>
      v.phase == Ready && FirstAttachable(States(cfg, v), v.tail, 0, Gap(v.tail, v.head, cfg.reqCount)) != None
    case Wait => v.phase.Holding? && v.sys.recv.slots[v.phase.index].state == RdmaComplete
    case Destroy => v.phase.Waited?
  }

  function UserApply(cfg: Config, v: Served, u: UserStep): (v': Served)
    requires ServedShape(cfg, v) && UserEnabled(cfg, v, u)
    ensures ServedShape(cfg, v')
  {
    match u
    case Protocol(t) => v.(sys := Apply(cfg, v.sys, t))
    case Create =>
      var picked := FirstAttachable(States(cfg, v), v.tail, 0, Gap(v.tail, v.head, cfg.reqCount));
      ModBound(v.head + 1, cfg.reqCount);
      v.(head := HeadAfter(v.head, picked, cfg.reqCount), phase := Holding(picked.value))
    case Wait =>
      var slot := v.sys.recv.slots[v.phase.index];
      v.(sys := UserActed(cfg, v.sys, States(cfg, v)[v.phase.index := WaitComplete], v.sys.recv.reqIndex),
         phase := Waited(v.phase.index), seen := v.seen + [Tagged(slot.from, slot.data)])
    case Destroy =>
      var d := DestroyEffect(cfg, v);
      v.(sys := UserActed(cfg, v.sys, d.0, d.2), tail := d.1, phase := Ready)
  }

  function ServedInit(cfg: Config): Served {
    Served(Init(cfg), 0, 0, Ready, [])
  }

  // ----- the invariant -----

  /** How many requests the user has given back. */
  function Returned(v: Served): int {
    |v.seen| - if v.phase.Waited? then 1 else 0
  }

  /** How many copies are complete. */
  function Done(s: System): int {
    |s.copied| - if s.busy == Free then 0 else 1
  }

  /** The slot of the `j`-th arrival. */
  function SlotOf(cfg: Config, s: System, j: nat): Slot
    requires Shape(cfg, s)
  {
    s.recv.slots[j % cfg.reqCount]
  }

  /** The `j`-th copy and every earlier one the user still has to give back are intact. */
  ghost predicate SlotsHold(cfg: Config, v: Served)
    requires Shape(cfg, v.sys)
  {
    forall j: nat {:trigger v.sys.copied[j]} | Returned(v) <= j < Done(v.sys) ::
      var slot := SlotOf(cfg, v.sys, j);
      && slot.data == v.sys.copied[j].item && slot.from == v.sys.copied[j].conn
      && slot.state == if j == Returned(v) && v.phase.Waited? then WaitComplete else RdmaComplete
  }

  ghost predicate SlotsFree(cfg: Config, v: Served)
    requires Shape(cfg, v.sys)
  {
    forall j: nat {:trigger SlotOf(cfg, v.sys, j)} | Done(v.sys) <= j < Returned(v) + cfg.reqCount ::
      SlotOf(cfg, v.sys, j).state == Posted
  }

  ghost predicate Indexed(cfg: Config, s: System)
    requires Shape(cfg, s)
  {
    && s.recv.reqIndex % cfg.reqCount == (|s.copied| + |s.recv.backlog|) % cfg.reqCount
    && (forall j {:trigger s.recv.backlog[j]} | 0 <= j < |s.recv.backlog| ::
          s.recv.backlog[j].item.queueIndex == (|s.copied| + j) % cfg.reqCount)
    && (s.busy != Free ==>
          && s.copied != []
          && s.busy.index == (|s.copied| - 1) % cfg.reqCount
          && s.busy.conn == s.copied[|s.copied| - 1].conn
          && s.recv.slots[s.busy.index].data == s.copied[|s.copied| - 1].item)
  }

  ghost predicate UserAtFront(cfg: Config, v: Served)
    requires ServedShape(cfg, v)
  {
    var d := Returned(v);
    && d >= 0
    && v.tail == d % cfg.reqCount
    && v.head == (d + if v.phase == Ready then 0 else 1) % cfg.reqCount
    && (v.phase != Ready ==> v.phase.index == d % cfg.reqCount)
  }

  ghost predicate ServedInv(cfg: Config, v: Served) {
    && cfg.reqCount >= 2
    && ServedShape(cfg, v)
    && UserAtFront(cfg, v)
    && Indexed(cfg, v.sys)
    && v.seen <= v.sys.copied[..Done(v.sys)]
    && |v.sys.copied| <= Returned(v) + cfg.reqCount
    && SlotsHold(cfg, v)
    && SlotsFree(cfg, v)
  }

  /** Slots of nearby counters coincide only if the counters do. */
  lemma SameSlot(a: nat, b: nat, n: nat)
    requires n > 0 && a < b + n && b < a + n
    ensures a % n == b % n <==> a == b
  {
    if a < b {
      SlotsDiffer(a, b, n);
    } else if b < a {
      SlotsDiffer(b, a, n);
    }
  }

  // ----- every step keeps the invariant -----

  lemma SlotsKept(cfg: Config, v: Served, v': Served)
    requires cfg.reqCount > 0 && Shape(cfg, v.sys) && Shape(cfg, v'.sys) && SlotsHold(cfg, v) && SlotsFree(cfg, v)
    requires v'.sys.copied == v.sys.copied && v'.sys.recv.slots == v.sys.recv.slots
    requires Done(v'.sys) == Done(v.sys) && v'.seen == v.seen && (v'.phase.Waited? <==> v.phase.Waited?)
    ensures SlotsHold(cfg, v') && SlotsFree(cfg, v')
  {
    forall j: nat | Done(v'.sys) <= j < Returned(v') + cfg.reqCount
      ensures SlotOf(cfg, v'.sys, j).state == Posted
    {
      assert SlotOf(cfg, v.sys, j).state == Posted;
    }
  }

  lemma QuietKeeps(cfg: Config, v: Served, s': System)
    requires ServedInv(cfg, v) && Shape(cfg, s')
    requires s'.copied == v.sys.copied && s'.recv.slots == v.sys.recv.slots
    requires Indexed(cfg, s') && (s'.busy == Free <==> v.sys.busy == Free)
    ensures ServedInv(cfg, v.(sys := s'))
  {
    SlotsKept(cfg, v, v.(sys := s'));
  }

  lemma ArrivalKeepsServed(cfg: Config, v: Served)
    requires ServedInv(cfg, v) && Enabled(cfg, v.sys, HandleArrival)
    ensures ServedInv(cfg, v.(sys := ArrivalHandled(cfg, v.sys)))
  {
    ModAdd(v.sys.recv.reqIndex, |v.sys.copied| + |v.sys.recv.backlog|, 1, cfg.reqCount);
    QuietKeeps(cfg, v, ArrivalHandled(cfg, v.sys));
  }

  /** The backlog's target slot is free only when fewer than a full ring of copies are held. */
  lemma RoomToCopy(cfg: Config, v: Served)
    requires ServedInv(cfg, v) && Enabled(cfg, v.sys, CopyFront)
    ensures |v.sys.copied| < Returned(v) + cfg.reqCount
    ensures v.sys.recv.backlog[0].item.queueIndex == |v.sys.copied| % cfg.reqCount
  {
    var d := Returned(v);
    assert v.sys.recv.backlog[0].item.queueIndex == (|v.sys.copied| + 0) % cfg.reqCount;
    ModPeriod(d, cfg.reqCount);
    if d < Done(v.sys) {
      assert v.sys.copied[d].conn == SlotOf(cfg, v.sys, d).from;
    }
  }

  lemma CopyKeepsSlots(cfg: Config, v: Served)
    requires ServedInv(cfg, v) && Enabled(cfg, v.sys, CopyFront)
    ensures SlotsHold(cfg, v.(sys := FrontCopied(cfg, v.sys))) && SlotsFree(cfg, v.(sys := FrontCopied(cfg, v.sys)))
  {
    var s, s', n := v.sys, FrontCopied(cfg, v.sys), cfg.reqCount;
    var v', t := v.(sys := s'), |s.copied|;
    RoomToCopy(cfg, v);
    assert s.recv.backlog[0] in s.recv.backlog;
    forall j: nat | Returned(v) <= j < Returned(v) + n
      ensures SlotOf(cfg, s', j).state == SlotOf(cfg, s, j).state
      ensures j < t ==> SlotOf(cfg, s', j) == SlotOf(cfg, s, j)
    {
      SameSlot(j, t, n);
    }
    assert SlotsHold(cfg, v');
    assert SlotsFree(cfg, v');
  }

  lemma CopyKeepsIndexed(cfg: Config, v: Served)
    requires ServedInv(cfg, v) && Enabled(cfg, v.sys, CopyFront)
    ensures Indexed(cfg, FrontCopied(cfg, v.sys))
  {
    var s, s', n := v.sys, FrontCopied(cfg, v.sys), cfg.reqCount;
    RoomToCopy(cfg, v);
    assert s.recv.backlog[0] in s.recv.backlog;
    forall j | 0 <= j < |s'.recv.backlog|
      ensures s'.recv.backlog[j].item.queueIndex == (|s'.copied| + j) % n
    {
      assert s'.recv.backlog[j] == s.recv.backlog[j + 1];
      assert s.recv.backlog[j + 1].item.queueIndex == (|s.copied| + (j + 1)) % n;
    }
  }

  lemma CopyKeepsServed(cfg: Config, v: Served)
    requires ServedInv(cfg, v) && Enabled(cfg, v.sys, CopyFront)
    ensures ServedInv(cfg, v.(sys := FrontCopied(cfg, v.sys)))
  {
    var s, s' := v.sys, FrontCopied(cfg, v.sys);
    RoomToCopy(cfg, v);
    CopyKeepsSlots(cfg, v);
    CopyKeepsIndexed(cfg, v);
    assert s'.copied[..Done(s')] == s.copied[..Done(s)];
  }

  lemma FinishKeepsServed(cfg: Config, v: Served)
    requires ServedInv(cfg, v) && Enabled(cfg, v.sys, FinishCopy)
    ensures ServedInv(cfg, v.(sys := CopyFinished(cfg, v.sys)))
  {
    var s, s', n := v.sys, CopyFinished(cfg, v.sys), cfg.reqCount;
    var v', last := v.(sys := s'), |s.copied| - 1;
    forall j: nat | Returned(v) <= j < Returned(v) + n
      ensures j != last ==> SlotOf(cfg, s', j) == SlotOf(cfg, s, j)
    {
      SameSlot(j, last, n);
    }
    assert SlotOf(cfg, s', last) == Slot(RdmaComplete, s.copied[last].item, s.copied[last].conn);
    assert v'.seen <= s'.copied[..Done(s')] by {
      assert s.copied[..last] <= s'.copied[..Done(s')];
    }
    FinishHolds(cfg, v, v');
    forall j: nat | Done(s') <= j < Returned(v') + n
      ensures SlotOf(cfg, s', j).state == Posted
    {
      assert SlotOf(cfg, s, j).state == Posted;
    }
  }

  lemma FinishHolds(cfg: Config, v: Served, v': Served)
    requires Shape(cfg, v.sys) && Shape(cfg, v'.sys) && SlotsHold(cfg, v)
    requires v' == v.(sys := v'.sys) && v'.sys.copied == v.sys.copied && Done(v'.sys) == Done(v.sys) + 1
    requires 0 <= Returned(v) && |v.seen| <= Done(v.sys)
    requires var last := Done(v.sys);
      SlotOf(cfg, v'.sys, last) == Slot(RdmaComplete, v.sys.copied[last].item, v.sys.copied[last].conn)
    requires forall j: nat {:trigger SlotOf(cfg, v'.sys, j)} | Returned(v) <= j < Done(v.sys) ::
      SlotOf(cfg, v'.sys, j) == SlotOf(cfg, v.sys, j)
    ensures SlotsHold(cfg, v')
  {
  }

  /** With one request at a time, create always finds the slot of the next arrival to serve. */
  lemma CreatePicksNextSlot(cfg: Config, v: Served)
    requires ServedInv(cfg, v) && v.phase == Ready
    ensures FirstAttachable(States(cfg, v), v.tail, 0, Gap(v.tail, v.head, cfg.reqCount)) ==
      Some(|v.seen| % cfg.reqCount)
  {
    var d := Returned(v);
    if d < Done(v.sys) {
      assert v.sys.copied[d].conn == SlotOf(cfg, v.sys, d).from;
    } else {
      assert SlotOf(cfg, v.sys, d).state == Posted;
    }
  }

  lemma CreateKeepsServed(cfg: Config, v: Served)
    requires ServedInv(cfg, v) && UserEnabled(cfg, v, Create)
    ensures ServedInv(cfg, UserApply(cfg, v, Create))
  {
    CreatePicksNextSlot(cfg, v);
    ModSuccessor(Returned(v), cfg.reqCount);
    var v' := UserApply(cfg, v, Create);
    assert forall j: nat :: SlotOf(cfg, v'.sys, j) == SlotOf(cfg, v.sys, j);
    assert SlotsFree(cfg, v');
    assert SlotsHold(cfg, v');
  }

  lemma WaitMovesOneSlot(cfg: Config, v: Served)
    requires ServedInv(cfg, v) && UserEnabled(cfg, v, Wait)
    ensures var d, v' := Returned(v), UserApply(cfg, v, Wait);
      && d < Done(v.sys) && v'.seen == v.seen + [v.sys.copied[d]]
      && (forall j: nat | d <= j < d + cfg.reqCount ::
            SlotOf(cfg, v'.sys, j) ==
            if j == d then SlotOf(cfg, v.sys, j).(state := WaitComplete) else SlotOf(cfg, v.sys, j))
  {
    var v', d, n := UserApply(cfg, v, Wait), Returned(v), cfg.reqCount;
    assert SlotOf(cfg, v.sys, d).state == RdmaComplete;
    assert d < Done(v.sys);
    assert v.sys.copied[d].conn == SlotOf(cfg, v.sys, d).from;
    forall j: nat | d <= j < d + n
      ensures SlotOf(cfg, v'.sys, j) ==
        if j == d then SlotOf(cfg, v.sys, j).(state := WaitComplete) else SlotOf(cfg, v.sys, j)
    {
      SameSlot(j, d, n);
    }
  }

  lemma WaitKeepsSlots(cfg: Config, v: Served)
    requires ServedInv(cfg, v) && UserEnabled(cfg, v, Wait)
    ensures SlotsHold(cfg, UserApply(cfg, v, Wait)) && SlotsFree(cfg, UserApply(cfg, v, Wait))
  {
    var v' := UserApply(cfg, v, Wait);
    WaitMovesOneSlot(cfg, v);
    forall j: nat | Done(v'.sys) <= j < Returned(v') + cfg.reqCount
      ensures SlotOf(cfg, v'.sys, j).state == Posted
    {
      assert SlotOf(cfg, v.sys, j).state == Posted;
    }
  }

  /** A wait returns the oldest copied message that no earlier wait has returned. */
  lemma WaitKeepsServed(cfg: Config, v: Served)
    requires ServedInv(cfg, v) && UserEnabled(cfg, v, Wait)
    ensures ServedInv(cfg, UserApply(cfg, v, Wait))
  {
    var v', d := UserApply(cfg, v, Wait), Returned(v);
    WaitMovesOneSlot(cfg, v);
    WaitKeepsSlots(cfg, v);
    assert v.sys.copied[..d + 1] == v.sys.copied[..d] + [v.sys.copied[d]];
    assert v'.seen == v.sys.copied[..d + 1];
    HeldCopyUnmoved(cfg, v, v');
  }

  /** The copy in progress goes to a slot that the user is not using. */
  lemma HeldCopyUnmoved(cfg: Config, v: Served, v': Served)
    requires ServedInv(cfg, v) && v.phase != Ready && Shape(cfg, v'.sys) && Returned(v) < Done(v.sys)
    requires v'.sys.copied == v.sys.copied && v'.sys.busy == v.sys.busy && v'.sys.recv.backlog == v.sys.recv.backlog
    requires v'.sys.recv.reqIndex % cfg.reqCount == v.sys.recv.reqIndex % cfg.reqCount
    requires forall j: nat {:trigger SlotOf(cfg, v'.sys, j)} | Returned(v) < j < Returned(v) + cfg.reqCount ::
      SlotOf(cfg, v'.sys, j) == SlotOf(cfg, v.sys, j)
    ensures Indexed(cfg, v'.sys)
  {
    if v.sys.busy != Free {
      var last := |v.sys.copied| - 1;
      assert SlotOf(cfg, v'.sys, last) == SlotOf(cfg, v.sys, last);
    }
  }

  /** Giving the held request back sets `reqIndex` back to zero when it has gone all the way round and the
      number of requests served is a multiple of the ring's size.  That leaves the numbering of arrivals in
      step with the ring as long as the number of arrivals handled is such a multiple as well. */
  predicate InStep(cfg: Config, v: Served)
    requires cfg.reqCount > 0
  {
    v.sys.recv.reqIndex >= cfg.reqCount && |v.seen| % cfg.reqCount == 0 ==>
      (|v.sys.copied| + |v.sys.recv.backlog|) % cfg.reqCount == 0
  }

  /** Destroying the one request held gives back exactly its slot. */
  lemma DestroyReleasesOne(cfg: Config, v: Served)
    requires ServedInv(cfg, v) && v.phase.Waited?
    ensures var d, v' := Returned(v), UserApply(cfg, v, Destroy);
      && v'.tail == (d + 1) % cfg.reqCount
      && (forall j: nat | d <= j < d + cfg.reqCount ::
            SlotOf(cfg, v'.sys, j) ==
            if j == d then SlotOf(cfg, v.sys, j).(state := Posted) else SlotOf(cfg, v.sys, j))
  {
    var v', d, n := UserApply(cfg, v, Destroy), Returned(v), cfg.reqCount;
    assert v.sys.copied[d].conn == SlotOf(cfg, v.sys, d).from;
    var states := States(cfg, v);
    assert states[v.tail] == WaitComplete;
    ModSuccessor(d, n);
    assert Gap(v.tail, v.head, n) == 1;
    assert RunEnd(states, v.tail, 0, 1) == RunEnd(states, v.tail, 1, 1) == 1;
    forall j: nat | d <= j < d + n
      ensures SlotOf(cfg, v'.sys, j) ==
        if j == d then SlotOf(cfg, v.sys, j).(state := Posted) else SlotOf(cfg, v.sys, j)
    {
      SameSlot(j, d, n);
      assert Gap(v.tail, j % n, n) < 1 <==> j % n == v.tail;
    }
  }

  lemma DestroyKeepsSlots(cfg: Config, v: Served)
    requires ServedInv(cfg, v) && v.phase.Waited?
    ensures SlotsHold(cfg, UserApply(cfg, v, Destroy)) && SlotsFree(cfg, UserApply(cfg, v, Destroy))
  {
    var v', d, n := UserApply(cfg, v, Destroy), Returned(v), cfg.reqCount;
    DestroyReleasesOne(cfg, v);
    ModPeriod(d, n);
    assert SlotOf(cfg, v'.sys, d + n) == SlotOf(cfg, v'.sys, d);
    forall j: nat | Done(v'.sys) <= j < Returned(v') + n
      ensures SlotOf(cfg, v'.sys, j).state == Posted
    {
      if j < d + n {
        assert SlotOf(cfg, v.sys, j).state == Posted;
      }
    }
  }

  /** What a destroy leaves of `reqIndex`, and where the ring then stands. */
  lemma DestroyResetsIff(cfg: Config, v: Served)
    requires ServedInv(cfg, v) && v.phase.Waited?
    ensures var reqIndex := v.sys.recv.reqIndex;
      UserApply(cfg, v, Destroy).sys.recv.reqIndex ==
        if reqIndex >= cfg.reqCount && |v.seen| % cfg.reqCount == 0 then 0 else reqIndex
  {
    DestroyReleasesOne(cfg, v);
    assert v.head == |v.seen| % cfg.reqCount;
  }

  /** After a destroy the next arrival is numbered for the slot that follows the slots of the arrivals before
      it, and everything else is in order too, exactly when the reset was in step. */
  lemma DestroyKeepsServedIff(cfg: Config, v: Served)
    requires ServedInv(cfg, v) && v.phase.Waited?
    ensures ServedInv(cfg, UserApply(cfg, v, Destroy)) <==> InStep(cfg, v)
    ensures InStep(cfg, v) <==>
      UserApply(cfg, v, Destroy).sys.recv.reqIndex % cfg.reqCount ==
      (|v.sys.copied| + |v.sys.recv.backlog|) % cfg.reqCount
  {
    var v' := UserApply(cfg, v, Destroy);
    DestroyReleasesOne(cfg, v);
    DestroyKeepsSlots(cfg, v);
    DestroyResetsIff(cfg, v);
    ModUnique(0, 0, 0, cfg.reqCount);
    if InStep(cfg, v) {
      HeldCopyUnmoved(cfg, v, v');
    }
  }

  /** The other protocol steps leave the receive queue's numbering and buffers alone. */
  lemma QuietStep(cfg: Config, s: System, t: Step)
    requires Shape(cfg, s) && Enabled(cfg, s, t)
    requires !t.HandleArrival? && !t.CopyFront? && !t.FinishCopy? && !t.User?
    ensures var s' := Apply(cfg, s, t);
      && s'.copied == s.copied && s'.recv.slots == s.recv.slots
      && s'.recv.backlog == s.recv.backlog && s'.recv.reqIndex == s.recv.reqIndex
      && (s'.busy == Free <==> s.busy == Free)
      && (s.busy != Free ==> s'.busy.conn == s.busy.conn && s'.busy.index == s.busy.index)
  {
  }

  lemma ProtocolKeepsServed(cfg: Config, v: Served, t: Step)
    requires ServedInv(cfg, v) && !t.User? && Enabled(cfg, v.sys, t)
    ensures ServedInv(cfg, v.(sys := Apply(cfg, v.sys, t)))
  {
    if t.HandleArrival? {
      ArrivalKeepsServed(cfg, v);
    } else if t.CopyFront? {
      CopyKeepsServed(cfg, v);
    } else if t.FinishCopy? {
      FinishKeepsServed(cfg, v);
    } else {
      QuietStep(cfg, v.sys, t);
      QuietKeeps(cfg, v, Apply(cfg, v.sys, t));
    }
  }

  lemma StepKeepsServed(cfg: Config, v: Served, u: UserStep)
    requires ServedInv(cfg, v) && UserEnabled(cfg, v, u) && (u.Destroy? ==> InStep(cfg, v))
    ensures ServedInv(cfg, UserApply(cfg, v, u))
  {
    match u
    case Create => CreateKeepsServed(cfg, v);
    case Wait => WaitKeepsServed(cfg, v);
    case Destroy => DestroyKeepsServedIff(cfg, v);
    case Protocol(t) => ProtocolKeepsServed(cfg, v, t);
  }

  // ----- runs -----

  /** `us` can be taken one after the other from `v`. */
  predicate ValidServedRun(cfg: Config, v: Served, us: seq<UserStep>)
    requires ServedShape(cfg, v)
    decreases |us|
  {
    us == [] || (UserEnabled(cfg, v, us[0]) && ValidServedRun(cfg, UserApply(cfg, v, us[0]), us[1..]))
  }

  /** Every destroy of the run finds the numbering in step. */
  predicate StaysInStep(cfg: Config, v: Served, us: seq<UserStep>)
    requires ServedShape(cfg, v) && ValidServedRun(cfg, v, us)
    decreases |us|
  {
    us == [] || ((us[0].Destroy? ==> InStep(cfg, v)) && StaysInStep(cfg, UserApply(cfg, v, us[0]), us[1..]))
  }

  function ServedAfter(cfg: Config, v: Served, us: seq<UserStep>): (v': Served)
    requires ServedShape(cfg, v) && ValidServedRun(cfg, v, us)
    ensures ServedShape(cfg, v')
    decreases |us|
  {
    if us == [] then v else ServedAfter(cfg, UserApply(cfg, v, us[0]), us[1..])
  }

  lemma UserStepKeepsInv(cfg: Config, v: Served, u: UserStep)
    requires ServedShape(cfg, v) && Inv(cfg, v.sys) && UserEnabled(cfg, v, u)
    ensures Inv(cfg, UserApply(cfg, v, u).sys)
  {
    match u
    case Protocol(t) => StepKeepsInv(cfg, v.sys, t);
    case Create =>
    case Wait =>
      StepKeepsInv(cfg, v.sys, User(States(cfg, v)[v.phase.index := WaitComplete], v.sys.recv.reqIndex));
    case Destroy =>
      StepKeepsInv(cfg, v.sys, User(DestroyEffect(cfg, v).0, DestroyEffect(cfg, v).2));
  }

  lemma {:induction false} ServedRunKeeps(cfg: Config, v: Served, us: seq<UserStep>)
    requires ServedInv(cfg, v) && Inv(cfg, v.sys) && ValidServedRun(cfg, v, us) && StaysInStep(cfg, v, us)
    ensures ServedInv(cfg, ServedAfter(cfg, v, us)) && Inv(cfg, ServedAfter(cfg, v, us).sys)
    decreases |us|
  {
    if us != [] {
      StepKeepsServed(cfg, v, us[0]);
      UserStepKeepsInv(cfg, v, us[0]);
      ServedRunKeeps(cfg, UserApply(cfg, v, us[0]), us[1..]);
    }
  }

  lemma ServedInitInv(cfg: Config)
    requires cfg.Valid() && cfg.reqCount >= 2
    ensures ServedInv(cfg, ServedInit(cfg)) && Inv(cfg, ServedInit(cfg).sys)
  {
    InitInv(cfg);
    ModUnique(0, 0, 0, cfg.reqCount);
  }

  // ----- main results -----

  /** The run `us` leads from the start to `v`, and no destroy on the way puts the numbering out of step. */
  predicate Reaches(cfg: Config, us: seq<UserStep>, v: Served) {
    && cfg.Valid() && cfg.reqCount >= 2
    && ValidServedRun(cfg, ServedInit(cfg), us) && StaysInStep(cfg, ServedInit(cfg), us)
    && ServedAfter(cfg, ServedInit(cfg), us) == v
  }

  lemma ReachedInv(cfg: Config, us: seq<UserStep>, v: Served)
    requires Reaches(cfg, us, v)
    ensures ServedInv(cfg, v) && Inv(cfg, v.sys)
  {
    ServedInitInv(cfg);
    ServedRunKeeps(cfg, ServedInit(cfg), us);
  }

  /** End to end, in every run that stays in step: the user sees the copies in arrival order, and from each
      sender a prefix of what that sender posted, in order, nothing lost, repeated or altered. */
  lemma UserSeesEachSenderInOrder(cfg: Config, us: seq<UserStep>, v: Served, c: ConnId)
    requires Reaches(cfg, us, v)
    ensures v.seen <= v.sys.copied && (c in v.sys.senders ==> Of(c, v.seen) <= v.sys.senders[c].posted)
  {
    ReachedInv(cfg, us, v);
    assert v.sys.copied[..Done(v.sys)] <= v.sys.copied;
    assert v.seen <= v.sys.copied;
    OfPrefix(c, v.seen, v.sys.copied);
    assert c in v.sys.senders ==> InvAt(cfg, v.sys, c);
  }

  /** How many creates a run has. */
  function Creates(us: seq<UserStep>): nat {
    if us == [] then 0 else Creates(us[1..]) + if us[0].Create? then 1 else 0
  }

  /** In any run at all there is one wait for every create but the one still held. */
  lemma {:induction false} CreatesAreWaits(cfg: Config, v: Served, us: seq<UserStep>)
    requires ServedShape(cfg, v) && ValidServedRun(cfg, v, us)
    ensures var w := ServedAfter(cfg, v, us);
      |w.seen| + (if w.phase.Holding? then 1 else 0) ==
      |v.seen| + (if v.phase.Holding? then 1 else 0) + Creates(us)
    decreases |us|
  {
    if us != [] {
      CreatesAreWaits(cfg, UserApply(cfg, v, us[0]), us[1..]);
    }
  }

  lemma CreateAttachesNextSlot(cfg: Config, v: Served)
    requires ServedInv(cfg, v) && v.phase == Ready
    ensures UserEnabled(cfg, v, Create)
    ensures UserApply(cfg, v, Create).phase == Holding(|v.seen| % cfg.reqCount)
  {
    CreatePicksNextSlot(cfg, v);
  }

  lemma WaitsInRun(cfg: Config, us: seq<UserStep>, v: Served)
    requires Reaches(cfg, us, v) && v.phase == Ready
    ensures |v.seen| == Creates(us)
  {
    CreatesAreWaits(cfg, ServedInit(cfg), us);
  }

  /** In a run that stays in step the `i`-th create, counting from zero, succeeds and attaches slot `i` modulo
      the ring size. */
  lemma CreatesGoRoundTheRing(cfg: Config, us: seq<UserStep>, v: Served)
    requires Reaches(cfg, us, v) && v.phase == Ready
    ensures ServedShape(cfg, v) && UserEnabled(cfg, v, Create)
    ensures UserApply(cfg, v, Create).phase == Holding(Creates(us) % cfg.reqCount)
  {
    ReachedInv(cfg, us, v);
    CreateAttachesNextSlot(cfg, v);
    WaitsInRun(cfg, us, v);
  }

  /** The slots of the copies not given back keep their bytes and their senders through every step, a destroy
      that puts the numbering out of step included. */
  lemma HeldSlotsAreStable(cfg: Config, v: Served, u: UserStep, j: nat)
    requires ServedInv(cfg, v) && UserEnabled(cfg, v, u)
    requires Returned(UserApply(cfg, v, u)) <= j < Done(v.sys)
    ensures var before, after := SlotOf(cfg, v.sys, j), SlotOf(cfg, UserApply(cfg, v, u).sys, j);
      after.data == before.data && after.from == before.from
      && (after.state == RdmaComplete || after.state == WaitComplete)
  {
    if u.Destroy? {
      DestroyKeepsSlots(cfg, v);
    } else {
      StepKeepsServed(cfg, v, u);
    }
    var v' := UserApply(cfg, v, u);
    CopiedOnlyGrows(cfg, v, u);
    assert v'.sys.copied[j] == v.sys.copied[j];
  }

  lemma CopiedOnlyGrows(cfg: Config, v: Served, u: UserStep)
    requires ServedShape(cfg, v) && UserEnabled(cfg, v, u)
    ensures v.sys.copied <= UserApply(cfg, v, u).sys.copied
    ensures Done(v.sys) <= Done(UserApply(cfg, v, u).sys)
    ensures Returned(v) <= Returned(UserApply(cfg, v, u))
  {
  }
}
