/** When the reset of `reqIndex` does harm: the messages reach the user in the order of their arrival in
    every run that stays in step, and some run after a destroy that does not loses this order. */
module OutOfStep {
  import opened Common
  import opened FlowControl
  import opened ServedQueue
  import opened ServedOrder

  /** The waits have returned the copies in the order in which they were made. */
  predicate InOrder(t: Tracked) {
    forall i | 0 <= i < |t.order| :: t.order[i] == i
  }

  // ----- arrivals that are numbered already are served in order -----

  function Handled(s: System): nat {
    |s.copied| + |s.recv.backlog|
  }

  /** `v` with another number for the next arrival. */
  function Renumbered(v: Served, reqIndex: nat): Served {
    v.(sys := v.sys.(recv := v.sys.recv.(reqIndex := reqIndex)))
  }

  /** The queue would be in step if the next arrival were numbered after the ones before it. */
  ghost predicate InStepSoFar(cfg: Config, v: Served) {
    cfg.reqCount >= 2 && ServedInv(cfg, Renumbered(v, Handled(v.sys) % cfg.reqCount))
  }

  ghost predicate FilledInOrder(cfg: Config, t: Tracked)
    requires TrackedShape(cfg, t)
  {
    forall j: nat {:trigger t.v.sys.copied[j]} | Returned(t.v) <= j < |t.v.sys.copied| ::
      t.filled[j % cfg.reqCount] == j
  }

  ghost predicate Settled(cfg: Config, t: Tracked) {
    && TrackedShape(cfg, t) && InStepSoFar(cfg, t.v)
    && |t.order| == |t.v.seen| && InOrder(t) && FilledInOrder(cfg, t)
  }

  lemma Renumber(cfg: Config, v: Served, reqIndex: nat)
    requires ServedInv(cfg, v) && reqIndex % cfg.reqCount == v.sys.recv.reqIndex % cfg.reqCount
    ensures ServedInv(cfg, Renumbered(v, reqIndex))
  {
    QuietKeeps(cfg, v, Renumbered(v, reqIndex).sys);
  }

  lemma ModTwice(a: nat, m: nat)
    requires m > 0
    ensures (a % m) % m == a % m
  {
    ModUnique(a % m, 0, a % m, m);
  }

  lemma StepIsInStepSoFar(cfg: Config, v: Served)
    requires ServedInv(cfg, v)
    ensures InStepSoFar(cfg, v)
  {
    ModTwice(Handled(v.sys), cfg.reqCount);
    Renumber(cfg, v, Handled(v.sys) % cfg.reqCount);
  }

  lemma NumberedRight(cfg: Config, v: Served)
    requires InStepSoFar(cfg, v) && v.sys.recv.reqIndex % cfg.reqCount == Handled(v.sys) % cfg.reqCount
    ensures ServedInv(cfg, v)
  {
    var w := Renumbered(v, Handled(v.sys) % cfg.reqCount);
    ModTwice(Handled(v.sys), cfg.reqCount);
    Renumber(cfg, w, v.sys.recv.reqIndex);
    assert Renumbered(w, v.sys.recv.reqIndex) == v;
  }

  function RenumberedSystem(s: System, reqIndex: nat): System {
    s.(recv := s.recv.(reqIndex := reqIndex))
  }

  lemma RenumberedShape(cfg: Config, s: System, i: nat)
    requires Shape(cfg, s)
    ensures Shape(cfg, RenumberedSystem(s, i))
  {
  }

  lemma RenumberedCredit(cfg: Config, s: System, i: nat, t: Step)
    requires Shape(cfg, s) && Shape(cfg, RenumberedSystem(s, i)) && Enabled(cfg, s, t)
    requires t.Connect? || t.Fetch? || t.CompareSwap?
    ensures Enabled(cfg, RenumberedSystem(s, i), t)
    ensures Apply(cfg, RenumberedSystem(s, i), t) == RenumberedSystem(Apply(cfg, s, t), i)
  {
  }

  lemma RenumberedMessage(cfg: Config, s: System, i: nat, t: Step)
    requires Shape(cfg, s) && Shape(cfg, RenumberedSystem(s, i)) && Enabled(cfg, s, t) && (t.Post? || t.Deliver?)
    ensures Enabled(cfg, RenumberedSystem(s, i), t)
    ensures Apply(cfg, RenumberedSystem(s, i), t) == RenumberedSystem(Apply(cfg, s, t), i)
  {
  }

  lemma RenumberedReceiver(cfg: Config, s: System, i: nat, t: Step)
    requires Shape(cfg, s) && Shape(cfg, RenumberedSystem(s, i)) && Enabled(cfg, s, t)
    requires t.CopyFront? || t.SendBackCredit? || t.FinishCopy?
    ensures Enabled(cfg, RenumberedSystem(s, i), t)
    ensures Apply(cfg, RenumberedSystem(s, i), t) == RenumberedSystem(Apply(cfg, s, t), i)
  {
  }

  lemma HandledStays(cfg: Config, s: System, t: Step)
    requires Shape(cfg, s) && Enabled(cfg, s, t) && !t.HandleArrival?
    ensures Handled(Apply(cfg, s, t)) == Handled(s)
  {
  }

  lemma RenumberedUser(cfg: Config, v: Served, i: nat, u: UserStep)
    requires ServedShape(cfg, v) && UserEnabled(cfg, v, u) && !u.Protocol? && i < cfg.reqCount
    ensures UserEnabled(cfg, Renumbered(v, i), u)
    ensures UserApply(cfg, Renumbered(v, i), u) == Renumbered(UserApply(cfg, v, u), i)
    ensures Handled(UserApply(cfg, v, u).sys) == Handled(v.sys)
  {
    assert States(cfg, Renumbered(v, i)) == States(cfg, v);
  }

  /** But for the numbering of new arrivals the number of the next one makes no difference. */
  lemma RenumberedStep(cfg: Config, v: Served, i: nat, u: UserStep)
    requires ServedShape(cfg, v) && UserEnabled(cfg, v, u) && u != Protocol(HandleArrival) && i < cfg.reqCount
    ensures ServedShape(cfg, Renumbered(v, i)) && UserEnabled(cfg, Renumbered(v, i), u)
    ensures UserApply(cfg, Renumbered(v, i), u) == Renumbered(UserApply(cfg, v, u), i)
    ensures Handled(UserApply(cfg, v, u).sys) == Handled(v.sys)
  {
    if u.Protocol? {
      HandledStays(cfg, v.sys, u.t);
      RenumberedShape(cfg, v.sys, i);
      if u.t.CopyFront? || u.t.SendBackCredit? || u.t.FinishCopy? {
        RenumberedReceiver(cfg, v.sys, i, u.t);
      } else if u.t.Post? || u.t.Deliver? {
        RenumberedMessage(cfg, v.sys, i, u.t);
      } else {
        RenumberedCredit(cfg, v.sys, i, u.t);
      }
    } else {
      RenumberedUser(cfg, v, i, u);
    }
  }

  lemma StepKeepsInStepSoFar(cfg: Config, v: Served, u: UserStep)
    requires ServedShape(cfg, v) && InStepSoFar(cfg, v) && UserEnabled(cfg, v, u)
    requires u == Protocol(HandleArrival) ==> v.sys.recv.reqIndex % cfg.reqCount == Handled(v.sys) % cfg.reqCount
    ensures InStepSoFar(cfg, UserApply(cfg, v, u))
  {
    if u == Protocol(HandleArrival) {
      NumberedRight(cfg, v);
      ArrivalKeepsServed(cfg, v);
      StepIsInStepSoFar(cfg, UserApply(cfg, v, u));
    } else {
      var i := Handled(v.sys) % cfg.reqCount;
      RenumberedStep(cfg, v, i, u);
      StepKeepsServed(cfg, Renumbered(v, i), u);
    }
  }

  lemma CopyFillsInOrder(cfg: Config, t: Tracked)
    requires Settled(cfg, t) && UserEnabled(cfg, t.v, Protocol(CopyFront))
    ensures FilledInOrder(cfg, Track(cfg, t, Protocol(CopyFront)))
  {
    var t', n, last := Track(cfg, t, Protocol(CopyFront)), cfg.reqCount, |t.v.sys.copied|;
    RoomToCopy(cfg, Renumbered(t.v, Handled(t.v.sys) % n));
    forall j: nat | Returned(t'.v) <= j < |t'.v.sys.copied|
      ensures t'.filled[j % n] == j
    {
      SameSlot(j, last, n);
      assert j < last ==> t.v.sys.copied[j] == t'.v.sys.copied[j];
    }
  }

  lemma WaitReturnsInOrder(cfg: Config, t: Tracked)
    requires Settled(cfg, t) && UserEnabled(cfg, t.v, Wait)
    ensures t.filled[t.v.phase.index] == |t.order|
  {
    var v := Renumbered(t.v, Handled(t.v.sys) % cfg.reqCount);
    WaitMovesOneSlot(cfg, v);
    var m := t.v.sys.copied[Returned(t.v)];
  }

  lemma FillsStay(cfg: Config, t: Tracked, t': Tracked)
    requires TrackedShape(cfg, t) && TrackedShape(cfg, t') && FilledInOrder(cfg, t) && t'.filled == t.filled
    requires t'.v.sys.copied == t.v.sys.copied && Returned(t'.v) >= Returned(t.v)
    ensures FilledInOrder(cfg, t')
  {
    forall j: nat | Returned(t'.v) <= j < |t'.v.sys.copied|
      ensures t'.filled[j % cfg.reqCount] == j
    {
      assert t.v.sys.copied[j] == t'.v.sys.copied[j];
    }
  }

  lemma StepFillsInOrder(cfg: Config, t: Tracked, u: UserStep)
    requires TrackedShape(cfg, t) && FilledInOrder(cfg, t) && UserEnabled(cfg, t.v, u) && u != Protocol(CopyFront)
    ensures FilledInOrder(cfg, Track(cfg, t, u))
  {
    CopiedOnlyGrows(cfg, t.v, u);
    OnlyCopiesCopy(cfg, t.v, u);
    FillsStay(cfg, t, Track(cfg, t, u));
  }

  lemma OnlyCopiesCopy(cfg: Config, v: Served, u: UserStep)
    requires ServedShape(cfg, v) && UserEnabled(cfg, v, u)
    ensures u != Protocol(CopyFront) ==> UserApply(cfg, v, u).sys.copied == v.sys.copied
    ensures !u.Wait? ==> UserApply(cfg, v, u).seen == v.seen
    ensures u.Wait? ==> |UserApply(cfg, v, u).seen| == |v.seen| + 1
  {
  }

  /** The order lasts as long as each arrival is numbered after the arrivals before it. */
  lemma StepKeepsSettled(cfg: Config, t: Tracked, u: UserStep)
    requires Settled(cfg, t) && UserEnabled(cfg, t.v, u)
    requires u == Protocol(HandleArrival) ==> t.v.sys.recv.reqIndex % cfg.reqCount == Handled(t.v.sys) % cfg.reqCount
    ensures Settled(cfg, Track(cfg, t, u))
  {
    StepKeepsInStepSoFar(cfg, t.v, u);
    if u == Protocol(CopyFront) {
      CopyFillsInOrder(cfg, t);
    } else {
      StepFillsInOrder(cfg, t, u);
    }
    OnlyCopiesCopy(cfg, t.v, u);
    if u.Wait? {
      WaitReturnsInOrder(cfg, t);
    }
  }

  lemma NumberedNext(cfg: Config, v: Served)
    requires ServedInv(cfg, v)
    ensures v.sys.recv.reqIndex % cfg.reqCount == Handled(v.sys) % cfg.reqCount
  {
  }

  lemma StepInStep(cfg: Config, t: Tracked, u: UserStep)
    requires ServedInv(cfg, t.v) && Settled(cfg, t) && UserEnabled(cfg, t.v, u) && (u.Destroy? ==> InStep(cfg, t.v))
    ensures ServedInv(cfg, Track(cfg, t, u).v) && Settled(cfg, Track(cfg, t, u))
  {
    NumberedNext(cfg, t.v);
    StepKeepsServed(cfg, t.v, u);
    StepKeepsSettled(cfg, t, u);
  }

  lemma {:induction false} RunKeepsSettled(cfg: Config, t: Tracked, us: seq<UserStep>)
    requires TrackedShape(cfg, t) && ServedInv(cfg, t.v) && Settled(cfg, t)
    requires ValidServedRun(cfg, t.v, us) && StaysInStep(cfg, t.v, us)
    ensures Settled(cfg, TrackAfter(cfg, t, us))
    decreases |us|
  {
    if us != [] {
      StepInStep(cfg, t, us[0]);
      RunKeepsSettled(cfg, Track(cfg, t, us[0]), us[1..]);
    }
  }

  lemma StartIsSettled(cfg: Config)
    requires cfg.Valid() && cfg.reqCount >= 2
    ensures ServedInv(cfg, TrackInit(cfg).v) && Settled(cfg, TrackInit(cfg))
  {
    ServedInitInv(cfg);
    StepIsInStepSoFar(cfg, ServedInit(cfg));
  }

  /** The run `us` leads from the start to `t` and stays in step. */
  predicate Leads(cfg: Config, us: seq<UserStep>, t: Tracked) {
    TrackedShape(cfg, TrackInit(cfg)) && Reaches(cfg, us, t.v) && t == TrackAfter(cfg, TrackInit(cfg), us)
  }

  lemma LeadsSettled(cfg: Config, us: seq<UserStep>, t: Tracked)
    requires Leads(cfg, us, t)
    ensures ServedInv(cfg, t.v) && Settled(cfg, t)
  {
    ReachedInv(cfg, us, t.v);
    StartIsSettled(cfg);
    RunKeepsSettled(cfg, TrackInit(cfg), us);
  }

  /** In every run that stays in step the waits return the copies in the order in which they were made. */
  lemma SeenInOrder(cfg: Config, us: seq<UserStep>, t: Tracked)
    requires Leads(cfg, us, t)
    ensures InOrder(t)
  {
    LeadsSettled(cfg, us, t);
  }
}
