/** Which messages the user of the receive queue is given, in every run: also in the ones in which a destroy
    puts the numbering of arrivals out of step with the ring. */
module ServedOrder {
  import opened Common
  import opened RequestRing
  import opened FlowControl
  import opened ServedQueue
  import opened SlotSafety

  /** The queue with its copies numbered: `filled` holds for every slot the number of the last copy made into
      it, and `order` the numbers of the copies that waits have returned. */
  datatype Tracked = Tracked(v: Served, filled: seq<nat>, order: seq<nat>)

  predicate TrackedShape(cfg: Config, t: Tracked) {
    ServedShape(cfg, t.v) && |t.filled| == cfg.reqCount
  }

  function Track(cfg: Config, t: Tracked, u: UserStep): (t': Tracked)
    requires TrackedShape(cfg, t) && UserEnabled(cfg, t.v, u)
    ensures TrackedShape(cfg, t') && t'.v == UserApply(cfg, t.v, u)
  {
    var v' := UserApply(cfg, t.v, u);
    if u == Protocol(CopyFront) then
      assert t.v.sys.recv.backlog[0] in t.v.sys.recv.backlog;
      Tracked(v', t.filled[t.v.sys.recv.backlog[0].item.queueIndex := |t.v.sys.copied|], t.order)
    else if u.Wait? then Tracked(v', t.filled, t.order + [t.filled[t.v.phase.index]])
    else t.(v := v')
  }

  function TrackInit(cfg: Config): Tracked {
    Tracked(ServedInit(cfg), seq(cfg.reqCount, _ => 0), [])
  }

  // ----- what holds in all runs -----

  /** Slot `k` holds a copy: one that is complete, or the one in progress. */
  predicate Occupied(s: System, k: nat)
    requires k < |s.recv.slots|
  {
    IsFull(s.recv.slots[k].state) || (s.busy != Free && s.busy.index == k)
  }

  ghost predicate SlotTracked(cfg: Config, t: Tracked, k: nat)
    requires TrackedShape(cfg, t) && k < cfg.reqCount
  {
    var s := t.v.sys;
    Occupied(s, k) ==>
      && t.filled[k] < |s.copied|
      && s.recv.slots[k].data == s.copied[t.filled[k]].item
      && (if IsFull(s.recv.slots[k].state) then s.recv.slots[k].from else s.busy.conn) == s.copied[t.filled[k]].conn
      && (s.recv.slots[k].state != WaitComplete ==> t.filled[k] !in t.order)
  }

  ghost predicate NoneTwice(cfg: Config, t: Tracked)
    requires TrackedShape(cfg, t)
  {
    && (forall k, l | 0 <= k < l < cfg.reqCount && Occupied(t.v.sys, k) && Occupied(t.v.sys, l) ::
          t.filled[k] != t.filled[l])
    && (forall i, j | 0 <= i < j < |t.order| :: t.order[i] != t.order[j])
  }

  ghost predicate OrderNames(t: Tracked) {
    && |t.order| == |t.v.seen|
    && forall i | 0 <= i < |t.order| :: t.order[i] < |t.v.sys.copied| && t.v.seen[i] == t.v.sys.copied[t.order[i]]
  }

  ghost predicate TrackedInv(cfg: Config, t: Tracked) {
    && TrackedShape(cfg, t) && CopyIsApart(cfg, t.v.sys)
    && (forall k | 0 <= k < cfg.reqCount :: SlotTracked(cfg, t, k))
    && NoneTwice(cfg, t) && OrderNames(t)
  }

  /** A step of the served queue is nothing to the flow control, or one of its steps; what the user does
      to the slots is waiting and destroying. */
  function FlowStep(cfg: Config, v: Served, u: UserStep): (r: Option<Step>)
    requires ServedShape(cfg, v) && UserEnabled(cfg, v, u)
  {
    match u
    case Protocol(x) => Some(x)
    case Create => None
    case Wait => Some(User(States(cfg, v)[v.phase.index := WaitComplete], v.sys.recv.reqIndex))
    case Destroy => Some(User(DestroyEffect(cfg, v).0, DestroyEffect(cfg, v).2))
  }

  lemma FlowStepIsUsers(cfg: Config, v: Served, u: UserStep)
    requires ServedShape(cfg, v) && UserEnabled(cfg, v, u)
    ensures FlowStep(cfg, v, u) == None ==> UserApply(cfg, v, u).sys == v.sys
    ensures FlowStep(cfg, v, u).Some? ==>
      && Enabled(cfg, v.sys, FlowStep(cfg, v, u).value) && UserMay(cfg, v.sys, FlowStep(cfg, v, u).value)
      && UserApply(cfg, v, u).sys == Apply(cfg, v.sys, FlowStep(cfg, v, u).value)
  {
    if u.Wait? || u.Destroy? {
      forall k | 0 <= k < cfg.reqCount
        ensures UserMayMove(v.sys.recv.slots[k].state, FlowStep(cfg, v, u).value.states[k])
      {
        RingOperationsAreMoves(States(cfg, v), v.head, v.tail, v.phase.index, k);
      }
    }
  }

  /** A step that makes no copy and ends no receive keeps the account, even if it gives slots back. */
  lemma ReleaseKeepsTracked(cfg: Config, t: Tracked, v': Served)
    requires TrackedInv(cfg, t) && ServedShape(cfg, v') && CopyIsApart(cfg, v'.sys)
    requires v'.seen == t.v.seen && v'.sys.copied == t.v.sys.copied
    requires v'.sys.busy == Free <==> t.v.sys.busy == Free
    requires t.v.sys.busy != Free ==>
      v'.sys.busy.conn == t.v.sys.busy.conn && v'.sys.busy.index == t.v.sys.busy.index
    requires forall k {:trigger v'.sys.recv.slots[k]} | 0 <= k < cfg.reqCount ::
      var a, b := t.v.sys.recv.slots[k], v'.sys.recv.slots[k];
      b.data == a.data && b.from == a.from && (b.state == a.state || b.state == Posted)
    ensures TrackedInv(cfg, t.(v := v'))
  {
    forall k | 0 <= k < cfg.reqCount
      ensures SlotTracked(cfg, t.(v := v'), k)
      ensures Occupied(v'.sys, k) ==> Occupied(t.v.sys, k)
    {
      assert SlotTracked(cfg, t, k);
    }
  }

  lemma CopyKeepsTracked(cfg: Config, t: Tracked)
    requires TrackedInv(cfg, t) && UserEnabled(cfg, t.v, Protocol(CopyFront))
    ensures TrackedInv(cfg, Track(cfg, t, Protocol(CopyFront)))
  {
    var t' := Track(cfg, t, Protocol(CopyFront));
    assert t.v.sys.recv.backlog[0] in t.v.sys.recv.backlog;
    var q := t.v.sys.recv.backlog[0].item.queueIndex;
    forall k | 0 <= k < cfg.reqCount
      ensures SlotTracked(cfg, t', k)
      ensures k != q ==> (Occupied(t'.v.sys, k) <==> Occupied(t.v.sys, k))
      ensures k != q && Occupied(t.v.sys, k) ==> t'.filled[k] < |t.v.sys.copied|
    {
      assert SlotTracked(cfg, t, k);
    }
  }

  lemma FinishKeepsTracked(cfg: Config, t: Tracked)
    requires TrackedInv(cfg, t) && UserEnabled(cfg, t.v, Protocol(FinishCopy))
    ensures TrackedInv(cfg, Track(cfg, t, Protocol(FinishCopy)))
  {
    var t' := Track(cfg, t, Protocol(FinishCopy));
    forall k | 0 <= k < cfg.reqCount
      ensures SlotTracked(cfg, t', k)
      ensures Occupied(t'.v.sys, k) <==> Occupied(t.v.sys, k)
    {
      assert SlotTracked(cfg, t, k);
    }
  }

  lemma WaitKeepsTracked(cfg: Config, t: Tracked)
    requires TrackedInv(cfg, t) && UserEnabled(cfg, t.v, Wait)
    ensures TrackedInv(cfg, Track(cfg, t, Wait))
  {
    var t' := Track(cfg, t, Wait);
    assert SlotTracked(cfg, t, t.v.phase.index);
    forall k | 0 <= k < cfg.reqCount
      ensures SlotTracked(cfg, t', k)
      ensures Occupied(t'.v.sys, k) <==> Occupied(t.v.sys, k)
    {
      assert SlotTracked(cfg, t, k);
    }
  }

  lemma OtherStepsRelease(cfg: Config, v: Served, u: UserStep)
    requires ServedShape(cfg, v) && UserEnabled(cfg, v, u)
    requires !u.Wait? && u != Protocol(CopyFront) && u != Protocol(FinishCopy)
    ensures var v' := UserApply(cfg, v, u);
      && v'.seen == v.seen && v'.sys.copied == v.sys.copied
      && (v'.sys.busy == Free <==> v.sys.busy == Free)
      && (v.sys.busy != Free ==> v'.sys.busy.conn == v.sys.busy.conn && v'.sys.busy.index == v.sys.busy.index)
      && forall k {:trigger v'.sys.recv.slots[k]} | 0 <= k < cfg.reqCount ::
           var a, b := v.sys.recv.slots[k], v'.sys.recv.slots[k];
           b.data == a.data && b.from == a.from && (b.state == a.state || b.state == Posted)
  {
  }

  lemma StepKeepsTracked(cfg: Config, t: Tracked, u: UserStep)
    requires TrackedInv(cfg, t) && UserEnabled(cfg, t.v, u)
    ensures TrackedInv(cfg, Track(cfg, t, u))
  {
    if u.Wait? {
      WaitKeepsTracked(cfg, t);
    } else if u == Protocol(CopyFront) {
      CopyKeepsTracked(cfg, t);
    } else if u == Protocol(FinishCopy) {
      FinishKeepsTracked(cfg, t);
    } else {
      OtherStepsRelease(cfg, t.v, u);
      FlowStepIsUsers(cfg, t.v, u);
      if u != Create {
        StepKeepsApart(cfg, t.v.sys, FlowStep(cfg, t.v, u).value);
      }
      ReleaseKeepsTracked(cfg, t, UserApply(cfg, t.v, u));
    }
  }

  function TrackAfter(cfg: Config, t: Tracked, us: seq<UserStep>): (t': Tracked)
    requires TrackedShape(cfg, t) && ValidServedRun(cfg, t.v, us)
    ensures TrackedShape(cfg, t')
    decreases |us|
  {
    if us == [] then t else TrackAfter(cfg, Track(cfg, t, us[0]), us[1..])
  }

  lemma {:induction false} TrackingIsServing(cfg: Config, t: Tracked, us: seq<UserStep>)
    requires TrackedShape(cfg, t) && ValidServedRun(cfg, t.v, us)
    ensures TrackAfter(cfg, t, us).v == ServedAfter(cfg, t.v, us)
    decreases |us|
  {
    if us != [] {
      TrackingIsServing(cfg, Track(cfg, t, us[0]), us[1..]);
    }
  }

  lemma {:induction false} RunKeepsTracked(cfg: Config, t: Tracked, us: seq<UserStep>)
    requires TrackedInv(cfg, t) && ValidServedRun(cfg, t.v, us)
    ensures TrackedInv(cfg, TrackAfter(cfg, t, us))
    decreases |us|
  {
    if us != [] {
      StepKeepsTracked(cfg, t, us[0]);
      RunKeepsTracked(cfg, Track(cfg, t, us[0]), us[1..]);
    }
  }

  lemma TrackInitInv(cfg: Config)
    requires cfg.Valid()
    ensures TrackedInv(cfg, TrackInit(cfg))
  {
  }

  /** In every run, in step or not and for any ring size, each wait returns a message exactly as it was copied
      for its sender, and no two waits return the same copy. */
  lemma NothingSeenTwiceOrAltered(cfg: Config, us: seq<UserStep>)
    requires cfg.Valid() && ValidServedRun(cfg, ServedInit(cfg), us)
    ensures var t, v := TrackAfter(cfg, TrackInit(cfg), us), ServedAfter(cfg, ServedInit(cfg), us);
      && |t.order| == |v.seen|
      && (forall i | 0 <= i < |t.order| :: t.order[i] < |v.sys.copied| && v.seen[i] == v.sys.copied[t.order[i]])
      && (forall i, j | 0 <= i < j < |t.order| :: t.order[i] != t.order[j])
  {
    TrackInitInv(cfg);
    RunKeepsTracked(cfg, TrackInit(cfg), us);
    TrackingIsServing(cfg, TrackInit(cfg), us);
  }
}
