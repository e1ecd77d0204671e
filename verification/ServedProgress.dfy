/** What is possible in the receive queue: while something is left to be seen, the network, copying or the user can
    go on, and they do so only so many times.  Who executes the backlog, and when, is the matter of `WaitLoop`. */
module ServedProgress {
  import opened Common
  import opened RequestRing
  import opened FlowControl
  import opened FlowSafety
  import opened ServedQueue

  /** What the network, the receiver and its user do, as opposed to the senders. */
  predicate Service(u: UserStep) {
    match u
    case Protocol(t) => t.Deliver? || t.HandleArrival? || t.CopyFront? || t.SendBackCredit? || t.FinishCopy?
    case _ => true
  }

  /** As long as an arrival that has been handled has not been seen, the copying or the user can go on. */
  lemma CanServe(cfg: Config, v: Served) returns (u: UserStep)
    requires ServedInv(cfg, v) && |v.seen| < |v.sys.copied| + |v.sys.recv.backlog|
    ensures UserEnabled(cfg, v, u) && Service(u) && u != Protocol(HandleArrival)
    ensures u.Protocol? ==> !u.t.Deliver?
  {
    var d := Returned(v);
    match v.phase
    case Ready =>
      CreateAttachesNextSlot(cfg, v);
      u := Create;
    case Waited(_) => u := Destroy;
    case Holding(_) =>
      match v.sys.busy
      case Copied(_, _) => u := Protocol(SendBackCredit);
      case Paid(_, _) => u := Protocol(FinishCopy);
      case Free =>
        if d < Done(v.sys) {
          assert v.sys.copied[d].conn == SlotOf(cfg, v.sys, d).from;
          u := Wait;
        } else {
          FrontFits(cfg, v);
          u := Protocol(CopyFront);
        }
  }

  lemma FrontFits(cfg: Config, v: Served)
    requires ServedInv(cfg, v) && v.sys.busy == Free && v.sys.recv.backlog != []
    requires |v.sys.copied| < Returned(v) + cfg.reqCount
    ensures CanCopy(cfg, v.sys.recv)
  {
    assert v.sys.recv.backlog[0].item.queueIndex == (|v.sys.copied| + 0) % cfg.reqCount;
    assert SlotOf(cfg, v.sys, |v.sys.copied|).state == Posted;
  }

  /** Neither the network nor the event queue holds a message. */
  predicate NothingComes(s: System) {
    s.arrivals == [] && forall c | c in s.senders :: s.senders[c].wire == []
  }

  /** The user has seen every message posted, of every sender and in its order. */
  predicate AllSeen(v: Served) {
    forall c | c in v.sys.senders :: Of(c, v.seen) == v.sys.senders[c].posted
  }

  /** While some sender has a message that the user has not seen, some step of the receiver's side is possible, which
      may be that of executing the backlog. */
  lemma CanGoOn(cfg: Config, v: Served, c: ConnId) returns (u: UserStep)
    requires ServedInv(cfg, v) && Inv(cfg, v.sys) && c in v.sys.senders
    requires Of(c, v.seen) != v.sys.senders[c].posted
    ensures UserEnabled(cfg, v, u) && Service(u)
  {
    if |v.seen| < |v.sys.copied| + |v.sys.recv.backlog| {
      u := CanServe(cfg, v);
    } else if v.sys.arrivals != [] {
      u := Protocol(HandleArrival);
    } else {
      u := Protocol(Deliver(c));
      assert v.seen == v.sys.copied;
      assert InvAt(cfg, v.sys, c);
    }
  }

  /** If the backlog is executed whenever it can be: when neither the network nor the copying nor the user can go on,
      the user has seen every message that was posted, of every sender and in its order. */
  lemma StuckMeansAllSeen(cfg: Config, us: seq<UserStep>, v: Served, c: ConnId)
    requires Reaches(cfg, us, v) && c in v.sys.senders
    requires ServedShape(cfg, v) && forall u | Service(u) :: !UserEnabled(cfg, v, u)
    ensures Of(c, v.seen) == v.sys.senders[c].posted
  {
    ReachedInv(cfg, us, v);
    if Of(c, v.seen) != v.sys.senders[c].posted {
      var u := CanGoOn(cfg, v, c);
    }
  }

  // ----- how long it takes -----

  /** The messages on the wires of the connections below `n`. */
  function OnWires(senders: map<ConnId, Outbound>, n: nat): nat {
    if n == 0 then 0 else OnWires(senders, n - 1) + if n - 1 in senders then |senders[n - 1].wire| else 0
  }

  lemma {:induction false} OneWire(senders: map<ConnId, Outbound>, c: ConnId, o: Outbound, n: nat)
    requires c in senders
    ensures OnWires(senders[c := o], n) == OnWires(senders, n) + if c < n then |o.wire| - |senders[c].wire| else 0
  {
    if n > 0 {
      OneWire(senders, c, o, n - 1);
    }
  }

  /** The steps that are left to bring what has been posted to the user: five to the end of the copy and
      three of the user for every message. */
  function StepsLeft(v: Served, n: nat): int {
    var s := v.sys;
    var coming := OnWires(s.senders, n) + |s.arrivals| + |s.recv.backlog|;
    5 * OnWires(s.senders, n) + 4 * |s.arrivals| + 3 * |s.recv.backlog|
    + (match s.busy case Free => 0 case Copied(_, _) => 2 case Paid(_, _) => 1)
    + 3 * (coming + |s.copied| - |v.seen|)
    + (match v.phase case Ready => 1 case Holding(_) => 0 case Waited(_) => 2)
  }

  lemma DeliverTakesOne(cfg: Config, v: Served, c: ConnId, n: nat)
    requires ServedShape(cfg, v) && Enabled(cfg, v.sys, Deliver(c)) && c < n
    ensures StepsLeft(v.(sys := PacketDelivered(cfg, v.sys, c)), n) == StepsLeft(v, n) - 1
  {
    var o := v.sys.senders[c];
    OneWire(v.sys.senders, c, o.(wire := o.wire[1..]), n);
  }

  lemma UserTakesOne(cfg: Config, v: Served, u: UserStep, n: nat)
    requires ServedShape(cfg, v) && UserEnabled(cfg, v, u) && !u.Protocol?
    ensures StepsLeft(UserApply(cfg, v, u), n) == StepsLeft(v, n) - 1
    ensures UserApply(cfg, v, u).sys.senders == v.sys.senders
  {
  }

  lemma ReceiverTakesOne(cfg: Config, v: Served, t: Step, n: nat)
    requires ServedShape(cfg, v) && Enabled(cfg, v.sys, t)
    requires t.HandleArrival? || t.CopyFront? || t.SendBackCredit? || t.FinishCopy?
    ensures StepsLeft(v.(sys := Apply(cfg, v.sys, t)), n) == StepsLeft(v, n) - 1
    ensures Apply(cfg, v.sys, t).senders == v.sys.senders
  {
  }

  lemma ServiceTakesOne(cfg: Config, v: Served, u: UserStep, n: nat)
    requires ServedShape(cfg, v) && UserEnabled(cfg, v, u) && Service(u) && forall c | c in v.sys.senders :: c < n
    ensures StepsLeft(UserApply(cfg, v, u), n) == StepsLeft(v, n) - 1
    ensures UserApply(cfg, v, u).sys.senders.Keys == v.sys.senders.Keys
  {
    if u.Protocol? && u.t.Deliver? {
      DeliverTakesOne(cfg, v, u.t.c, n);
    } else if u.Protocol? {
      ReceiverTakesOne(cfg, v, u.t, n);
    } else {
      UserTakesOne(cfg, v, u, n);
    }
  }

  lemma {:induction false} ServicesTakeOneEach(cfg: Config, v: Served, us: seq<UserStep>, n: nat)
    requires ServedShape(cfg, v) && ValidServedRun(cfg, v, us)
    requires (forall u | u in us :: Service(u)) && forall c | c in v.sys.senders :: c < n
    ensures StepsLeft(ServedAfter(cfg, v, us), n) == StepsLeft(v, n) - |us|
    decreases |us|
  {
    if us != [] {
      ServiceTakesOne(cfg, v, us[0], n);
      ServicesTakeOneEach(cfg, UserApply(cfg, v, us[0]), us[1..], n);
    }
  }

  lemma StepsLeftIsNat(cfg: Config, v: Served, n: nat)
    requires ServedInv(cfg, v)
    ensures StepsLeft(v, n) >= 0
  {
  }

  /** Without new posts the receiver's side takes no more steps than were left. */
  lemma ServiceIsBounded(cfg: Config, v: Served, us: seq<UserStep>, n: nat)
    requires ServedInv(cfg, v) && Inv(cfg, v.sys) && ValidServedRun(cfg, v, us) && StaysInStep(cfg, v, us)
    requires (forall u | u in us :: Service(u)) && forall c | c in v.sys.senders :: c < n
    ensures |us| <= StepsLeft(v, n)
  {
    ServedRunKeeps(cfg, v, us);
    ServicesTakeOneEach(cfg, v, us, n);
    StepsLeftIsNat(cfg, ServedAfter(cfg, v, us), n);
  }
}
