/** The harm of a reset out of step, from any state in which it can happen: a run that goes on from there to
    a wait which returns a message before its turn. */
module LostOrder {
  import opened Common
  import opened RequestRing
  import opened FlowControl
  import opened ServedQueue
  import opened ServedProgress
  import opened ServedOrder
  import opened OutOfStep

  /** The run `us` leads from `t0` to `t`, and resets nothing out of step on its way. */
  predicate Continues(cfg: Config, t0: Tracked, us: seq<UserStep>, t: Tracked) {
    && TrackedShape(cfg, t0) && TrackedShape(cfg, t)
    && ValidServedRun(cfg, t0.v, us) && StaysInStep(cfg, t0.v, us) && TrackAfter(cfg, t0, us) == t
  }

  lemma {:induction false} ContinueOne(cfg: Config, t0: Tracked, us: seq<UserStep>, t: Tracked, u: UserStep)
    requires Continues(cfg, t0, us, t) && UserEnabled(cfg, t.v, u)
    requires u.Destroy? ==> InStep(cfg, t.v)
    ensures Continues(cfg, t0, us + [u], Track(cfg, t, u))
    decreases |us|
  {
    if us == [] {
      assert us + [u] == [u] && [u][1..] == [];
    } else {
      ConcatTail(us, [u]);
      ContinueOne(cfg, Track(cfg, t0, us[0]), us[1..], t, u);
    }
  }

  // ----- what has been numbered is served -----

  ghost predicate Serving(cfg: Config, t: Tracked) {
    && Settled(cfg, t) && t.v.sys.recv.reqIndex == 0
    && (t.v.phase.Holding? ==> |t.v.seen| < Handled(t.v.sys))
  }

  predicate SameSenders(t: Tracked, t': Tracked) {
    t'.v.sys.senders == t.v.sys.senders && t'.v.sys.arrivals == t.v.sys.arrivals
  }

  lemma CanServeOne(cfg: Config, t: Tracked) returns (u: UserStep)
    requires Serving(cfg, t) && |t.v.seen| < Handled(t.v.sys)
    ensures UserEnabled(cfg, t.v, u) && Service(u) && u != Protocol(HandleArrival)
    ensures u.Protocol? ==> !u.t.Deliver?
  {
    var v := Renumbered(t.v, Handled(t.v.sys) % cfg.reqCount);
    u := CanServe(cfg, v);
    RenumberedStep(cfg, v, 0, u);
    assert Renumbered(v, 0) == t.v;
  }

  lemma ServingLasts(cfg: Config, t: Tracked, u: UserStep)
    requires Serving(cfg, t) && |t.v.seen| < Handled(t.v.sys)
    requires UserEnabled(cfg, t.v, u) && u != Protocol(HandleArrival)
    ensures Serving(cfg, Track(cfg, t, u)) && Handled(Track(cfg, t, u).v.sys) == Handled(t.v.sys)
  {
    RenumberedStep(cfg, t.v, 0, u);
    StepKeepsSettled(cfg, t, u);
  }

  lemma StepsAreLeft(cfg: Config, t: Tracked)
    requires Serving(cfg, t)
    ensures StepsLeft(t.v, 0) >= 0
  {
    StepsLeftIsNat(cfg, Renumbered(t.v, Handled(t.v.sys) % cfg.reqCount), 0);
  }

  lemma ServeOne(cfg: Config, t: Tracked) returns (u: UserStep)
    requires Serving(cfg, t) && |t.v.seen| < Handled(t.v.sys)
    ensures UserEnabled(cfg, t.v, u) && Serving(cfg, Track(cfg, t, u))
    ensures Handled(Track(cfg, t, u).v.sys) == Handled(t.v.sys) && SameSenders(t, Track(cfg, t, u))
    ensures 0 <= StepsLeft(t.v, 0) && StepsLeft(Track(cfg, t, u).v, 0) == StepsLeft(t.v, 0) - 1
  {
    StepsAreLeft(cfg, t);
    u := CanServeOne(cfg, t);
    ServingLasts(cfg, t, u);
    OneStepLess(cfg, t.v, u);
    ArrivalsStay(cfg, t.v, u);
  }

  lemma ArrivalsStay(cfg: Config, v: Served, u: UserStep)
    requires ServedShape(cfg, v) && UserEnabled(cfg, v, u) && u != Protocol(HandleArrival)
    requires u.Protocol? ==> !u.t.Deliver?
    ensures UserApply(cfg, v, u).sys.arrivals == v.sys.arrivals
  {
  }

  lemma OneStepLess(cfg: Config, v: Served, u: UserStep)
    requires ServedShape(cfg, v) && UserEnabled(cfg, v, u) && Service(u) && (u.Protocol? ==> !u.t.Deliver?)
    ensures StepsLeft(UserApply(cfg, v, u), 0) == StepsLeft(v, 0) - 1
    ensures UserApply(cfg, v, u).sys.senders == v.sys.senders
  {
    if u.Protocol? {
      ReceiverTakesOne(cfg, v, u.t, 0);
    } else {
      UserTakesOne(cfg, v, u, 0);
    }
  }

  /** Every arrival that has been numbered is copied, seen and given back. */
  lemma {:induction false} ServeAll(cfg: Config, t0: Tracked, us: seq<UserStep>, t: Tracked)
    returns (us': seq<UserStep>, t': Tracked)
    requires Continues(cfg, t0, us, t) && Serving(cfg, t)
    ensures Continues(cfg, t0, us', t') && Serving(cfg, t') && Handled(t'.v.sys) == Handled(t.v.sys)
    ensures t'.v.phase == Ready && |t'.v.seen| == Handled(t'.v.sys) && SameSenders(t, t')
    decreases StepsLeft(t.v, 0)
  {
    us', t' := us, t;
    if |t.v.seen| < Handled(t.v.sys) {
      var u := ServeOne(cfg, t);
      ContinueOne(cfg, t0, us, t, u);
      us', t' := ServeAll(cfg, t0, us + [u], Track(cfg, t, u));
    } else if t.v.phase.Waited? {
      ContinueOne(cfg, t0, us, t, Destroy);
      StepKeepsSettled(cfg, t, Destroy);
      us', t' := us + [Destroy], Track(cfg, t, Destroy);
    }
  }

  // ----- new arrivals fill the ring from slot zero -----

  /** `a` messages have been served, the ring stands at slot `a` modulo its size, and `i` more messages lie in
      the slots from zero on. */
  ghost predicate Refilled(cfg: Config, t: Tracked, a: nat, i: nat) {
    && TrackedShape(cfg, t) && cfg.reqCount >= 2 && i <= cfg.reqCount
    && t.v.phase == Ready && t.v.head == t.v.tail == a % cfg.reqCount
    && t.v.sys.busy == Free && t.v.sys.recv.backlog == [] && |t.v.sys.copied| == a + i && t.v.sys.recv.reqIndex == i
    && |t.order| == a
    && (forall k | 0 <= k < i :: t.v.sys.recv.slots[k].state == RdmaComplete && t.filled[k] == a + k)
    && (forall k | i <= k < cfg.reqCount :: t.v.sys.recv.slots[k].state == Posted)
  }

  lemma CounterOf(a: nat, k: nat, n: nat) returns (j: nat)
    requires k < n
    ensures a <= j < a + n && j % n == k
  {
    var q := a / n;
    j := if k >= a % n then q * n + k else (q + 1) * n + k;
    ModUnique(j, if k >= a % n then q else q + 1, k, n);
  }

  lemma NothingFilledYet(cfg: Config, t: Tracked)
    requires Serving(cfg, t) && t.v.phase == Ready && |t.v.seen| == Handled(t.v.sys)
    ensures Refilled(cfg, t, Handled(t.v.sys), 0)
  {
    var a, v := Handled(t.v.sys), Renumbered(t.v, Handled(t.v.sys) % cfg.reqCount);
    forall k | 0 <= k < cfg.reqCount
      ensures t.v.sys.recv.slots[k].state == Posted
    {
      var j := CounterOf(a, k, cfg.reqCount);
      assert SlotOf(cfg, v.sys, j).state == Posted;
    }
  }

  lemma {:induction false} Fresh(conns: set<ConnId>) returns (c: ConnId)
    ensures forall x | x in conns :: x < c
  {
    if conns == {} {
      c := 0;
    } else {
      var x :| x in conns;
      var d := Fresh(conns - {x});
      c := if x < d then d else x + 1;
      assert forall y | y in conns :: y == x || y in conns - {x};
    }
  }

  /** A step that only brings a message nearer. */
  predicate Brings(t: Step) {
    t.Connect? || t.Fetch? || t.CompareSwap? || t.Post? || t.Deliver?
  }

  lemma BringStep(cfg: Config, t: Tracked, a: nat, i: nat, x: Step)
    requires Refilled(cfg, t, a, i) && Enabled(cfg, t.v.sys, x) && Brings(x)
    ensures Refilled(cfg, Track(cfg, t, Protocol(x)), a, i)
  {
    QuietStep(cfg, t.v.sys, x);
  }

  lemma BringOne(cfg: Config, t0: Tracked, us: seq<UserStep>, t: Tracked, a: nat, i: nat, x: Step)
    returns (us': seq<UserStep>, t': Tracked)
    requires Continues(cfg, t0, us, t) && Refilled(cfg, t, a, i) && Enabled(cfg, t.v.sys, x) && Brings(x)
    ensures Continues(cfg, t0, us', t') && Refilled(cfg, t', a, i) && t'.v.sys == Apply(cfg, t.v.sys, x)
  {
    BringStep(cfg, t, a, i, x);
    ContinueOne(cfg, t0, us, t, Protocol(x));
    us', t' := us + [Protocol(x)], Track(cfg, t, Protocol(x));
  }

  predicate OneSenderMoves(t: Tracked, t': Tracked, c: ConnId, o: Outbound) {
    t'.v.sys.senders.Keys == t.v.sys.senders.Keys && c in t'.v.sys.senders && t'.v.sys.senders[c] == o
  }

  lemma TakeCredit(cfg: Config, t0: Tracked, us: seq<UserStep>, t: Tracked, a: nat, i: nat, c: ConnId)
    returns (us': seq<UserStep>, t': Tracked)
    requires Continues(cfg, t0, us, t) && Refilled(cfg, t, a, i) && c in t.v.sys.senders
    requires t.v.sys.senders[c].pc == Idle && t.v.sys.recv.inbound[c].credits > 0
    ensures Continues(cfg, t0, us', t') && Refilled(cfg, t', a, i) && t'.v.sys.arrivals == t.v.sys.arrivals
    ensures OneSenderMoves(t, t', c, t.v.sys.senders[c].(pc := Credited))
  {
    us', t' := BringOne(cfg, t0, us, t, a, i, Fetch(c));
    us', t' := BringOne(cfg, t0, us', t', a, i, CompareSwap(c));
  }

  lemma PostFrom(cfg: Config, t0: Tracked, us: seq<UserStep>, t: Tracked, a: nat, i: nat, c: ConnId, m: Message)
    returns (us': seq<UserStep>, t': Tracked)
    requires Continues(cfg, t0, us, t) && Refilled(cfg, t, a, i) && c in t.v.sys.senders
    requires t.v.sys.senders[c].pc == Credited && t.v.sys.senders[c].wire == []
    ensures Continues(cfg, t0, us', t') && Refilled(cfg, t', a, i) && t'.v.sys.arrivals == t.v.sys.arrivals
    ensures c in t'.v.sys.senders && |t'.v.sys.senders[c].wire| == 1
    ensures var o := t.v.sys.senders[c];
      OneSenderMoves(t, t', c, Outbound(Idle, o.mboxIndex + 1, t'.v.sys.senders[c].wire, o.posted + [m]))
  {
    us', t' := BringOne(cfg, t0, us, t, a, i, Post(c, m));
  }

  lemma DeliverFrom(cfg: Config, t0: Tracked, us: seq<UserStep>, t: Tracked, a: nat, i: nat, c: ConnId)
    returns (us': seq<UserStep>, t': Tracked)
    requires Continues(cfg, t0, us, t) && Refilled(cfg, t, a, i) && c in t.v.sys.senders
    requires |t.v.sys.senders[c].wire| == 1 && t.v.sys.arrivals == []
    ensures Continues(cfg, t0, us', t') && Refilled(cfg, t', a, i) && t'.v.sys.arrivals == [Tagged(c, ())]
    ensures OneSenderMoves(t, t', c, t.v.sys.senders[c].(wire := []))
  {
    us', t' := BringOne(cfg, t0, us, t, a, i, Deliver(c));
  }

  /** Sender `c`, which has credits, sends `m`. */
  lemma BringFrom(cfg: Config, t0: Tracked, us: seq<UserStep>, t: Tracked, a: nat, i: nat, c: ConnId, m: Message)
    returns (us': seq<UserStep>, t': Tracked)
    requires Continues(cfg, t0, us, t) && Refilled(cfg, t, a, i) && c in t.v.sys.senders
    requires t.v.sys.senders[c].pc == Idle && t.v.sys.recv.inbound[c].credits > 0
    requires t.v.sys.senders[c].wire == [] && t.v.sys.arrivals == []
    ensures Continues(cfg, t0, us', t') && Refilled(cfg, t', a, i) && t'.v.sys.arrivals == [Tagged(c, ())]
    ensures var o := t.v.sys.senders[c];
      OneSenderMoves(t, t', c, Outbound(Idle, o.mboxIndex + 1, [], o.posted + [m]))
  {
    us', t' := TakeCredit(cfg, t0, us, t, a, i, c);
    us', t' := PostFrom(cfg, t0, us', t', a, i, c, m);
    us', t' := DeliverFrom(cfg, t0, us', t', a, i, c);
  }

  /** Some message arrives: one that is under way already, or one from a new sender. */
  lemma BringArrival(cfg: Config, t0: Tracked, us: seq<UserStep>, t: Tracked, a: nat, i: nat)
    returns (us': seq<UserStep>, t': Tracked)
    requires Continues(cfg, t0, us, t) && Refilled(cfg, t, a, i)
    ensures Continues(cfg, t0, us', t') && Refilled(cfg, t', a, i) && t'.v.sys.arrivals != []
  {
    us', t' := us, t;
    if t.v.sys.arrivals == [] {
      var c := Fresh(t.v.sys.senders.Keys);
      us', t' := BringOne(cfg, t0, us', t', a, i, Connect(c));
      us', t' := BringFrom(cfg, t0, us', t', a, i, c, []);
    }
  }

  /** Where a message is on its way from the event queue into slot `i`. */
  ghost predicate Placing(cfg: Config, t: Tracked, a: nat, i: nat) {
    && TrackedShape(cfg, t) && cfg.reqCount >= 2 && i < cfg.reqCount
    && t.v.phase == Ready && t.v.head == t.v.tail == a % cfg.reqCount
    && t.v.sys.recv.reqIndex == i + 1 && |t.order| == a
    && (forall k | 0 <= k < i :: t.v.sys.recv.slots[k].state == RdmaComplete && t.filled[k] == a + k)
    && (forall k | i <= k < cfg.reqCount :: t.v.sys.recv.slots[k].state == Posted)
    && |t.v.sys.copied| + |t.v.sys.recv.backlog| == a + i + 1
    && if t.v.sys.busy == Free
       then |t.v.sys.recv.backlog| == 1 && t.v.sys.recv.backlog[0].item.queueIndex == i
       else t.v.sys.recv.backlog == [] && t.v.sys.busy.index == i && t.filled[i] == a + i
  }

  lemma HandleStep(cfg: Config, t: Tracked, a: nat, i: nat)
    requires Refilled(cfg, t, a, i) && i < cfg.reqCount && t.v.sys.arrivals != []
    ensures var t' := Track(cfg, t, Protocol(HandleArrival));
      && Placing(cfg, t', a, i) && t'.v.sys.busy == Free
      && t'.v.sys.senders == t.v.sys.senders && t'.v.sys.arrivals == t.v.sys.arrivals[1..]
  {
    ModUnique(i, 0, i, cfg.reqCount);
  }

  lemma CopyStep(cfg: Config, t: Tracked, a: nat, i: nat)
    requires Placing(cfg, t, a, i) && t.v.sys.busy == Free
    ensures UserEnabled(cfg, t.v, Protocol(CopyFront))
    ensures var t' := Track(cfg, t, Protocol(CopyFront));
      Placing(cfg, t', a, i) && t'.v.sys.busy.Copied? && SameSenders(t, t')
  {
  }

  lemma SendBackStep(cfg: Config, t: Tracked, a: nat, i: nat)
    requires Placing(cfg, t, a, i) && t.v.sys.busy.Copied?
    ensures var t' := Track(cfg, t, Protocol(SendBackCredit));
      Placing(cfg, t', a, i) && t'.v.sys.busy.Paid? && SameSenders(t, t')
  {
  }

  lemma FinishStep(cfg: Config, t: Tracked, a: nat, i: nat)
    requires Placing(cfg, t, a, i) && t.v.sys.busy.Paid?
    ensures var t' := Track(cfg, t, Protocol(FinishCopy)); Refilled(cfg, t', a, i + 1) && SameSenders(t, t')
  {
  }

  lemma CopyAndFinish(cfg: Config, t0: Tracked, us: seq<UserStep>, t: Tracked, a: nat, i: nat)
    returns (us': seq<UserStep>, t': Tracked)
    requires Continues(cfg, t0, us, t) && Placing(cfg, t, a, i) && t.v.sys.busy.Copied?
    ensures Continues(cfg, t0, us', t') && Refilled(cfg, t', a, i + 1) && SameSenders(t, t')
  {
    SendBackStep(cfg, t, a, i);
    ContinueOne(cfg, t0, us, t, Protocol(SendBackCredit));
    us', t' := us + [Protocol(SendBackCredit)], Track(cfg, t, Protocol(SendBackCredit));
    FinishStep(cfg, t', a, i);
    ContinueOne(cfg, t0, us', t', Protocol(FinishCopy));
    us', t' := us' + [Protocol(FinishCopy)], Track(cfg, t', Protocol(FinishCopy));
  }

  lemma PlaceOne(cfg: Config, t0: Tracked, us: seq<UserStep>, t: Tracked, a: nat, i: nat)
    returns (us': seq<UserStep>, t': Tracked)
    requires Continues(cfg, t0, us, t) && Refilled(cfg, t, a, i) && i < cfg.reqCount && t.v.sys.arrivals != []
    ensures Continues(cfg, t0, us', t') && Refilled(cfg, t', a, i + 1)
    ensures t'.v.sys.senders == t.v.sys.senders && t'.v.sys.arrivals == t.v.sys.arrivals[1..]
  {
    HandleStep(cfg, t, a, i);
    ContinueOne(cfg, t0, us, t, Protocol(HandleArrival));
    us', t' := us + [Protocol(HandleArrival)], Track(cfg, t, Protocol(HandleArrival));
    CopyStep(cfg, t', a, i);
    ContinueOne(cfg, t0, us', t', Protocol(CopyFront));
    us', t' := us' + [Protocol(CopyFront)], Track(cfg, t', Protocol(CopyFront));
    us', t' := CopyAndFinish(cfg, t0, us', t', a, i);
  }

  lemma {:induction false} Refill(cfg: Config, t0: Tracked, us: seq<UserStep>, t: Tracked, a: nat, i: nat, m: nat)
    returns (us': seq<UserStep>, t': Tracked)
    requires Continues(cfg, t0, us, t) && Refilled(cfg, t, a, i) && i <= m <= cfg.reqCount
    ensures Continues(cfg, t0, us', t') && Refilled(cfg, t', a, m)
    decreases m - i
  {
    us', t' := us, t;
    if i < m {
      us', t' := BringArrival(cfg, t0, us', t', a, i);
      us', t' := PlaceOne(cfg, t0, us', t', a, i);
      us', t' := Refill(cfg, t0, us', t', a, i + 1, m);
    }
  }

  // ----- the next request is given the wrong message -----

  lemma CreateStep(cfg: Config, t: Tracked, a: nat)
    requires cfg.reqCount > 0 && Refilled(cfg, t, a, a % cfg.reqCount + 1)
    ensures UserEnabled(cfg, t.v, Create) && Track(cfg, t, Create).v.phase == Holding(a % cfg.reqCount)
    ensures UserEnabled(cfg, Track(cfg, t, Create).v, Wait)
    ensures Track(cfg, Track(cfg, t, Create), Wait).order == t.order + [a + a % cfg.reqCount]
  {
  }

  lemma SeeAhead(cfg: Config, t0: Tracked, us: seq<UserStep>, t: Tracked, a: nat)
    returns (us': seq<UserStep>, t': Tracked)
    requires Continues(cfg, t0, us, t) && cfg.reqCount > 0 && Refilled(cfg, t, a, a % cfg.reqCount + 1)
    ensures Continues(cfg, t0, us', t') && |t'.order| == a + 1 && t'.order[a] == a + a % cfg.reqCount
    ensures SameSenders(t, t') && t'.v.sys.copied == t.v.sys.copied
    ensures t'.v.sys.recv.backlog == t.v.sys.recv.backlog && t'.v.sys.busy == t.v.sys.busy
  {
    CreateStep(cfg, t, a);
    ContinueOne(cfg, t0, us, t, Create);
    us', t' := us + [Create], Track(cfg, t, Create);
    ContinueOne(cfg, t0, us', t', Wait);
    us', t' := us' + [Wait], Track(cfg, t', Wait);
  }

  /** From the reset on: the messages that are numbered already are seen in order, and then, before the next
      one in turn, one that arrived after it. */
  lemma OrderIsLost(cfg: Config, t: Tracked) returns (us: seq<UserStep>, t': Tracked)
    requires Serving(cfg, t) && t.v.phase == Ready
    ensures var a := Handled(t.v.sys);
      && Continues(cfg, t, us, t') && |t'.order| == a + 1 && t'.order[a] == a + a % cfg.reqCount
  {
    var a := Handled(t.v.sys);
    us, t' := ServeAll(cfg, t, [], t);
    NothingFilledYet(cfg, t');
    us, t' := Refill(cfg, t, us, t', a, 0, a % cfg.reqCount + 1);
    us, t' := SeeAhead(cfg, t, us, t', a);
  }

  /** Whatever comes after, as long as it resets nothing out of step itself, the user sees the messages in order. */
  ghost predicate StaysInOrder(cfg: Config, t: Tracked)
    requires TrackedShape(cfg, t)
  {
    forall us: seq<UserStep> {:trigger TrackAfter(cfg, t, us)} |
      ValidServedRun(cfg, t.v, us) && StaysInStep(cfg, t.v, us) :: InOrder(TrackAfter(cfg, t, us))
  }

  lemma InStepKeepsOrder(cfg: Config, t: Tracked)
    requires ServedInv(cfg, t.v) && Settled(cfg, t)
    ensures StaysInOrder(cfg, t)
  {
    forall us: seq<UserStep> | ValidServedRun(cfg, t.v, us) && StaysInStep(cfg, t.v, us)
      ensures InOrder(TrackAfter(cfg, t, us))
    {
      RunKeepsSettled(cfg, t, us);
    }
  }

  lemma OutOfStepIsServing(cfg: Config, t: Tracked)
    requires ServedInv(cfg, t.v) && Settled(cfg, t) && t.v.phase.Waited? && !InStep(cfg, t.v)
    ensures var t' := Track(cfg, t, Destroy);
      Serving(cfg, t') && t'.v.phase == Ready && Handled(t'.v.sys) % cfg.reqCount != 0
  {
    DestroyResetsIff(cfg, t.v);
    StepKeepsSettled(cfg, t, Destroy);
  }

  /** Giving a request back leaves the user seeing all messages in order, in every run that goes on from there,
      if and only if the destroy finds the numbering in step: the reset is not taken, or as many arrivals have
      been numbered as fill the ring a whole number of times. */
  lemma OrderSurvivesIff(cfg: Config, us: seq<UserStep>, t: Tracked)
    requires Leads(cfg, us, t) && t.v.phase.Waited?
    ensures StaysInOrder(cfg, Track(cfg, t, Destroy)) <==> InStep(cfg, t.v)
  {
    LeadsSettled(cfg, us, t);
    var t' := Track(cfg, t, Destroy);
    if InStep(cfg, t.v) {
      StepInStep(cfg, t, Destroy);
      InStepKeepsOrder(cfg, t');
    } else {
      OutOfStepIsServing(cfg, t);
      var more, w := OrderIsLost(cfg, t');
      assert !InOrder(TrackAfter(cfg, t', more));
    }
  }
}
