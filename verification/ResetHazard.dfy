/** How giving a receive request back can put the numbering of arrivals out of step: a run from the start of
    the protocol to a destroy whose reset of `reqIndex` is out of step, and on to a user who has seen the
    messages of one sender out of order. */
module ResetHazard {
  import opened Common
  import opened RequestRing
  import opened FlowControl
  import opened FlowSafety
  import opened ServedQueue
  import opened ServedProgress
  import opened ServedOrder
  import opened OutOfStep
  import opened LostOrder

  predicate LeadsTo(cfg: Config, us: seq<UserStep>, v: Served) {
    cfg == Config(3, 2) && Reaches(cfg, us, v)
  }

  lemma RunInv(cfg: Config, us: seq<UserStep>, v: Served)
    requires LeadsTo(cfg, us, v)
    ensures ServedInv(cfg, v) && Inv(cfg, v.sys)
  {
    ReachedInv(cfg, us, v);
  }

  lemma {:induction false} RunSnoc(cfg: Config, v: Served, us: seq<UserStep>, u: UserStep)
    requires ServedShape(cfg, v) && ValidServedRun(cfg, v, us) && StaysInStep(cfg, v, us)
    requires var w := ServedAfter(cfg, v, us);
      UserEnabled(cfg, w, u) && (u.Destroy? ==> InStep(cfg, w))
    ensures ValidServedRun(cfg, v, us + [u]) && StaysInStep(cfg, v, us + [u])
    ensures ServedAfter(cfg, v, us + [u]) == UserApply(cfg, ServedAfter(cfg, v, us), u)
    decreases |us|
  {
    if us == [] {
      assert us + [u] == [u] && [u][1..] == [];
    } else {
      ConcatTail(us, [u]);
      RunSnoc(cfg, UserApply(cfg, v, us[0]), us[1..], u);
    }
  }

  lemma OneMore(cfg: Config, us: seq<UserStep>, v: Served, u: UserStep)
    requires LeadsTo(cfg, us, v) && UserEnabled(cfg, v, u) && (u.Destroy? ==> InStep(cfg, v))
    ensures LeadsTo(cfg, us + [u], UserApply(cfg, v, u))
  {
    RunSnoc(cfg, ServedInit(cfg), us, u);
  }

  /** What matters of a reachable state with one sender: where the sender and the copying are, and how
      many credits, messages on the wire, waiting arrivals, copies and waits there are. */
  datatype Counts = Counts(
    pc: SendPc, busy: CopyPc, credits: int, wire: nat, arrivals: nat, backlog: nat, copied: nat, seen: nat)

  predicate OneSender(v: Served) {
    && v.sys.senders.Keys == {0} && 0 in v.sys.recv.inbound
    && (forall a | a in v.sys.arrivals :: a.conn == 0) && (forall e | e in v.sys.recv.backlog :: e.conn == 0)
  }

  function CountsOf(v: Served): Counts
    requires OneSender(v)
  {
    var o := v.sys.senders[0];
    Counts(o.pc, v.sys.busy, v.sys.recv.inbound[0].credits, |o.wire|, |v.sys.arrivals|, |v.sys.recv.backlog|,
           |v.sys.copied|, |v.seen|)
  }

  ghost predicate Now(cfg: Config, us: seq<UserStep>, v: Served, n: Counts) {
    LeadsTo(cfg, us, v) && OneSender(v) && CountsOf(v) == n
  }

  predicate Quiet(v: Served, w: Served) {
    w.phase == v.phase && w.sys.recv.reqIndex == v.sys.recv.reqIndex
  }

  lemma FetchOne(cfg: Config, us: seq<UserStep>, v: Served, n: Counts) returns (us': seq<UserStep>, w: Served)
    requires Now(cfg, us, v, n) && n.pc == Idle && n.credits > 0
    ensures Now(cfg, us', w, n.(pc := Fetched(n.credits))) && Quiet(v, w)
  {
    OneMore(cfg, us, v, Protocol(Fetch(0)));
    us', w := us + [Protocol(Fetch(0))], UserApply(cfg, v, Protocol(Fetch(0)));
  }

  lemma SwapOne(cfg: Config, us: seq<UserStep>, v: Served, n: Counts) returns (us': seq<UserStep>, w: Served)
    requires Now(cfg, us, v, n) && n.pc == Fetched(n.credits)
    ensures Now(cfg, us', w, n.(pc := Credited, credits := n.credits - 1)) && Quiet(v, w)
  {
    OneMore(cfg, us, v, Protocol(CompareSwap(0)));
    us', w := us + [Protocol(CompareSwap(0))], UserApply(cfg, v, Protocol(CompareSwap(0)));
  }

  lemma PostOne(cfg: Config, us: seq<UserStep>, v: Served, n: Counts) returns (us': seq<UserStep>, w: Served)
    requires Now(cfg, us, v, n) && n.pc == Credited
    ensures Now(cfg, us', w, n.(pc := Idle, wire := n.wire + 1)) && Quiet(v, w)
  {
    OneMore(cfg, us, v, Protocol(Post(0, [])));
    us', w := us + [Protocol(Post(0, []))], UserApply(cfg, v, Protocol(Post(0, [])));
  }

  lemma TakeOne(cfg: Config, us: seq<UserStep>, v: Served, n: Counts) returns (us': seq<UserStep>, w: Served)
    requires Now(cfg, us, v, n) && n.pc == Idle && n.credits > 0
    ensures Now(cfg, us', w, n.(pc := Credited, credits := n.credits - 1)) && Quiet(v, w)
  {
    us', w := FetchOne(cfg, us, v, n);
    us', w := SwapOne(cfg, us', w, n.(pc := Fetched(n.credits)));
  }

  /** One message goes on the wire, on one credit. */
  lemma SendOne(cfg: Config, us: seq<UserStep>, v: Served, n: Counts) returns (us': seq<UserStep>, w: Served)
    requires Now(cfg, us, v, n) && n.pc == Idle && n.credits > 0
    ensures Now(cfg, us', w, n.(credits := n.credits - 1, wire := n.wire + 1)) && Quiet(v, w)
  {
    us', w := TakeOne(cfg, us, v, n);
    us', w := PostOne(cfg, us', w, n.(pc := Credited, credits := n.credits - 1));
  }

  lemma DeliverOne(cfg: Config, us: seq<UserStep>, v: Served, n: Counts) returns (us': seq<UserStep>, w: Served)
    requires Now(cfg, us, v, n) && n.wire > 0
    ensures Now(cfg, us', w, n.(wire := n.wire - 1, arrivals := n.arrivals + 1)) && Quiet(v, w)
  {
    OneMore(cfg, us, v, Protocol(Deliver(0)));
    us', w := us + [Protocol(Deliver(0))], UserApply(cfg, v, Protocol(Deliver(0)));
  }

  lemma HandleOne(cfg: Config, us: seq<UserStep>, v: Served, n: Counts) returns (us': seq<UserStep>, w: Served)
    requires Now(cfg, us, v, n) && n.arrivals > 0
    ensures Now(cfg, us', w, n.(arrivals := n.arrivals - 1, backlog := n.backlog + 1)) && w.phase == v.phase
    ensures w.sys.recv.reqIndex == v.sys.recv.reqIndex + 1
  {
    OneMore(cfg, us, v, Protocol(HandleArrival));
    us', w := us + [Protocol(HandleArrival)], UserApply(cfg, v, Protocol(HandleArrival));
  }

  lemma ArriveOne(cfg: Config, us: seq<UserStep>, v: Served, n: Counts) returns (us': seq<UserStep>, w: Served)
    requires Now(cfg, us, v, n) && n.wire > 0
    ensures Now(cfg, us', w, n.(wire := n.wire - 1, backlog := n.backlog + 1)) && w.phase == v.phase
    ensures w.sys.recv.reqIndex == v.sys.recv.reqIndex + 1
  {
    us', w := DeliverOne(cfg, us, v, n);
    us', w := HandleOne(cfg, us', w, n.(wire := n.wire - 1, arrivals := n.arrivals + 1));
  }

  /** One message is sent, arrives, and joins the backlog. */
  lemma SendAndArrive(cfg: Config, us: seq<UserStep>, v: Served, n: Counts) returns (us': seq<UserStep>, w: Served)
    requires Now(cfg, us, v, n) && n.pc == Idle && n.credits > 0
    ensures Now(cfg, us', w, n.(credits := n.credits - 1, backlog := n.backlog + 1)) && w.phase == v.phase
    ensures w.sys.recv.reqIndex == v.sys.recv.reqIndex + 1
  {
    us', w := SendOne(cfg, us, v, n);
    us', w := ArriveOne(cfg, us', w, n.(credits := n.credits - 1, wire := n.wire + 1));
  }

  /** The slot for the first waiting arrival is free until two copies are waiting for the user. */
  lemma FrontSlotIsFree(cfg: Config, v: Served)
    requires ServedInv(cfg, v) && cfg.reqCount == 2 && v.sys.busy == Free && v.phase == Ready
    requires v.sys.recv.backlog != [] && |v.sys.copied| < |v.seen| + 2
    ensures CanCopy(cfg, v.sys.recv) && v.sys.recv.backlog[0].item.queueIndex == |v.sys.copied| % 2
  {
    assert SlotOf(cfg, v.sys, |v.sys.copied|).state == Posted;
    assert v.sys.recv.backlog[0].item.queueIndex == (|v.sys.copied| + 0) % 2;
  }

  lemma CopyFrontOne(cfg: Config, us: seq<UserStep>, v: Served, n: Counts) returns (us': seq<UserStep>, w: Served)
    requires Now(cfg, us, v, n) && n.busy == Free && n.backlog > 0 && n.copied < 2 && n.seen == 0 && v.phase == Ready
    ensures Now(cfg, us', w, n.(busy := Copied(0, n.copied % 2), backlog := n.backlog - 1, copied := n.copied + 1))
    ensures Quiet(v, w)
  {
    assert CanCopy(cfg, v.sys.recv) && v.sys.recv.backlog[0].item.queueIndex == n.copied % 2 by {
      RunInv(cfg, us, v);
      FrontSlotIsFree(cfg, v);
    }
    OneMore(cfg, us, v, Protocol(CopyFront));
    us', w := us + [Protocol(CopyFront)], UserApply(cfg, v, Protocol(CopyFront));
  }

  lemma SendBackOne(cfg: Config, us: seq<UserStep>, v: Served, n: Counts) returns (us': seq<UserStep>, w: Served)
    requires Now(cfg, us, v, n) && n.busy.Copied? && n.busy.conn == 0
    ensures Now(cfg, us', w, n.(busy := Paid(0, n.busy.index), credits := n.credits + 1)) && Quiet(v, w)
  {
    OneMore(cfg, us, v, Protocol(SendBackCredit));
    us', w := us + [Protocol(SendBackCredit)], UserApply(cfg, v, Protocol(SendBackCredit));
  }

  lemma FinishOne(cfg: Config, us: seq<UserStep>, v: Served, n: Counts) returns (us': seq<UserStep>, w: Served)
    requires Now(cfg, us, v, n) && n.busy.Paid?
    ensures Now(cfg, us', w, n.(busy := Free)) && Quiet(v, w)
  {
    OneMore(cfg, us, v, Protocol(FinishCopy));
    us', w := us + [Protocol(FinishCopy)], UserApply(cfg, v, Protocol(FinishCopy));
  }

  lemma EndCopy(cfg: Config, us: seq<UserStep>, v: Served, n: Counts) returns (us': seq<UserStep>, w: Served)
    requires Now(cfg, us, v, n) && n.busy.Copied? && n.busy.conn == 0
    ensures Now(cfg, us', w, n.(busy := Free, credits := n.credits + 1)) && Quiet(v, w)
  {
    us', w := SendBackOne(cfg, us, v, n);
    us', w := FinishOne(cfg, us', w, n.(busy := Paid(0, n.busy.index), credits := n.credits + 1));
  }

  /** A message is copied out of the backlog. */
  lemma CopyOne(cfg: Config, us: seq<UserStep>, v: Served, n: Counts) returns (us': seq<UserStep>, w: Served)
    requires Now(cfg, us, v, n) && n.busy == Free && n.backlog > 0 && n.copied < 2 && n.seen == 0 && v.phase == Ready
    ensures Now(cfg, us', w, n.(backlog := n.backlog - 1, copied := n.copied + 1, credits := n.credits + 1))
    ensures Quiet(v, w)
  {
    us', w := CopyFrontOne(cfg, us, v, n);
    var m := n.(busy := Copied(0, n.copied % 2), backlog := n.backlog - 1, copied := n.copied + 1);
    us', w := EndCopy(cfg, us', w, m);
  }

  lemma NextSlot(cfg: Config, us: seq<UserStep>, v: Served)
    requires LeadsTo(cfg, us, v) && v.phase == Ready
    ensures UserEnabled(cfg, v, Create)
    ensures UserApply(cfg, v, Create).phase == Holding(|v.seen| % cfg.reqCount)
    ensures UserApply(cfg, v, Create).sys == v.sys && UserApply(cfg, v, Create).seen == v.seen
  {
    RunInv(cfg, us, v);
    CreatePicksNextSlot(cfg, v);
  }

  lemma CreateOne(cfg: Config, us: seq<UserStep>, v: Served, n: Counts) returns (us': seq<UserStep>, w: Served)
    requires Now(cfg, us, v, n) && n.seen < 2 && v.phase == Ready
    ensures Now(cfg, us', w, n) && w.phase == Holding(n.seen) && w.sys.recv.reqIndex == v.sys.recv.reqIndex
  {
    NextSlot(cfg, us, v);
    OneMore(cfg, us, v, Create);
    us', w := us + [Create], UserApply(cfg, v, Create);
    assert n.seen % 2 == n.seen;
  }

  lemma WaitOne(cfg: Config, us: seq<UserStep>, v: Served, n: Counts) returns (us': seq<UserStep>, w: Served)
    requires Now(cfg, us, v, n) && n.busy == Free && n.copied == 2 && n.seen < 2 && v.phase == Holding(n.seen)
    ensures Now(cfg, us', w, n.(seen := n.seen + 1)) && w.phase.Waited? && w.sys.recv.reqIndex == v.sys.recv.reqIndex
  {
    RunInv(cfg, us, v);
    var m := v.sys.copied[n.seen];
    assert SlotOf(cfg, v.sys, n.seen).state == RdmaComplete;
    OneMore(cfg, us, v, Wait);
    us', w := us + [Wait], UserApply(cfg, v, Wait);
  }

  lemma NoResetYet(cfg: Config, us: seq<UserStep>, v: Served)
    requires LeadsTo(cfg, us, v) && v.phase.Waited? && |v.seen| == 1
    ensures InStep(cfg, v) && UserApply(cfg, v, Destroy).sys.recv.reqIndex == v.sys.recv.reqIndex
  {
    RunInv(cfg, us, v);
    DestroyResetsIff(cfg, v);
  }

  /** The first request is given back before the ring has gone round, which resets nothing. */
  lemma GiveBackFirst(cfg: Config, us: seq<UserStep>, v: Served, n: Counts) returns (us': seq<UserStep>, w: Served)
    requires Now(cfg, us, v, n) && v.phase.Waited? && n.seen == 1
    ensures Now(cfg, us', w, n) && w.phase == Ready && w.sys.recv.reqIndex == v.sys.recv.reqIndex
  {
    NoResetYet(cfg, us, v);
    OneMore(cfg, us, v, Destroy);
    us', w := us + [Destroy], UserApply(cfg, v, Destroy);
  }

  lemma FirstRound(cfg: Config, us: seq<UserStep>, v: Served) returns (us': seq<UserStep>, w: Served)
    requires Now(cfg, us, v, Counts(Idle, Free, 2, 0, 0, 1, 2, 0)) && v.phase == Ready && v.sys.recv.reqIndex == 3
    ensures Now(cfg, us', w, Counts(Idle, Free, 2, 0, 0, 1, 2, 1)) && w.phase == Ready && w.sys.recv.reqIndex == 3
  {
    var n := Counts(Idle, Free, 2, 0, 0, 1, 2, 0);
    us', w := CreateOne(cfg, us, v, n);
    us', w := WaitOne(cfg, us', w, n);
    us', w := GiveBackFirst(cfg, us', w, n.(seen := 1));
  }

  lemma SecondRound(cfg: Config, us: seq<UserStep>, v: Served) returns (us': seq<UserStep>, w: Served)
    requires Now(cfg, us, v, Counts(Idle, Free, 2, 0, 0, 1, 2, 1)) && v.phase == Ready && v.sys.recv.reqIndex == 3
    ensures Now(cfg, us', w, Counts(Idle, Free, 2, 0, 0, 1, 2, 2)) && w.phase.Waited? && w.sys.recv.reqIndex == 3
  {
    var n := Counts(Idle, Free, 2, 0, 0, 1, 2, 1);
    us', w := CreateOne(cfg, us, v, n);
    us', w := WaitOne(cfg, us', w, n);
  }

  lemma Connected(cfg: Config) returns (us': seq<UserStep>, w: Served)
    requires cfg == Config(3, 2)
    ensures Now(cfg, us', w, Counts(Idle, Free, 3, 0, 0, 0, 0, 0)) && w.phase == Ready && w.sys.recv.reqIndex == 0
  {
    var v := ServedInit(cfg);
    assert ValidServedRun(cfg, v, []) && ServedAfter(cfg, v, []) == v;
    OneMore(cfg, [], v, Protocol(Connect(0)));
    us', w := [] + [Protocol(Connect(0))], UserApply(cfg, v, Protocol(Connect(0)));
  }

  lemma ThreeArrivals(cfg: Config) returns (us': seq<UserStep>, w: Served)
    requires cfg == Config(3, 2)
    ensures Now(cfg, us', w, Counts(Idle, Free, 0, 0, 0, 3, 0, 0)) && w.phase == Ready && w.sys.recv.reqIndex == 3
  {
    us', w := Connected(cfg);
    us', w := SendAndArrive(cfg, us', w, Counts(Idle, Free, 3, 0, 0, 0, 0, 0));
    us', w := SendAndArrive(cfg, us', w, Counts(Idle, Free, 2, 0, 0, 1, 0, 0));
    us', w := SendAndArrive(cfg, us', w, Counts(Idle, Free, 1, 0, 0, 2, 0, 0));
  }

  lemma TwoCopies(cfg: Config) returns (us': seq<UserStep>, w: Served)
    requires cfg == Config(3, 2)
    ensures Now(cfg, us', w, Counts(Idle, Free, 2, 0, 0, 1, 2, 0)) && w.phase == Ready && w.sys.recv.reqIndex == 3
  {
    us', w := ThreeArrivals(cfg);
    us', w := CopyOne(cfg, us', w, Counts(Idle, Free, 0, 0, 0, 3, 0, 0));
    us', w := CopyOne(cfg, us', w, Counts(Idle, Free, 1, 0, 0, 2, 1, 0));
  }

  /** Two slots, three arrivals: when the second request is given back, both ends of the ring are at slot
      zero and the third arrival, still in the backlog, has already been numbered. */
  lemma OutOfStepIsReachable(cfg: Config) returns (us: seq<UserStep>, v: Served)
    requires cfg == Config(3, 2)
    ensures Now(cfg, us, v, Counts(Idle, Free, 2, 0, 0, 1, 2, 2)) && v.phase.Waited? && !InStep(cfg, v)
  {
    us, v := TwoCopies(cfg);
    us, v := FirstRound(cfg, us, v);
    us, v := SecondRound(cfg, us, v);
  }

  // ----- on from the reset -----

  lemma {:induction false} RunAppend(cfg: Config, v: Served, us: seq<UserStep>, more: seq<UserStep>)
    requires ServedShape(cfg, v) && ValidServedRun(cfg, v, us) && ValidServedRun(cfg, ServedAfter(cfg, v, us), more)
    ensures ValidServedRun(cfg, v, us + more)
    ensures ServedAfter(cfg, v, us + more) == ServedAfter(cfg, ServedAfter(cfg, v, us), more)
    decreases |us|
  {
    if us == [] {
      assert us + more == more;
    } else {
      ConcatTail(us, more);
      RunAppend(cfg, UserApply(cfg, v, us[0]), us[1..], more);
    }
  }

  lemma {:induction false} FlowInvAfter(cfg: Config, v: Served, us: seq<UserStep>)
    requires ServedShape(cfg, v) && Inv(cfg, v.sys) && ValidServedRun(cfg, v, us)
    ensures Inv(cfg, ServedAfter(cfg, v, us).sys)
    decreases |us|
  {
    if us != [] {
      UserStepKeepsInv(cfg, v, us[0]);
      FlowInvAfter(cfg, UserApply(cfg, v, us[0]), us[1..]);
    }
  }

  lemma ContinuesInv(cfg: Config, t0: Tracked, us: seq<UserStep>, t: Tracked)
    requires Continues(cfg, t0, us, t) && Inv(cfg, t0.v.sys)
    ensures Inv(cfg, t.v.sys)
  {
    FlowInvAfter(cfg, t0.v, us);
    TrackingIsServing(cfg, t0, us);
  }

  lemma {:induction false} OfAll<T>(c: ConnId, xs: seq<Tagged<T>>)
    requires forall x | x in xs :: x.conn == c
    ensures |Of(c, xs)| == |xs| && forall i | 0 <= i < |xs| :: Of(c, xs)[i] == xs[i].item
  {
    if xs != [] {
      OfAll(c, xs[1..]);
    }
  }

  /** Sender zero is the only one, and nothing of it is under way. */
  predicate AtRest(s: System) {
    s.senders.Keys == {0} && s.senders[0].pc == Idle && s.senders[0].wire == [] && s.arrivals == []
  }

  lemma AllIsCopied(cfg: Config, s: System)
    requires Inv(cfg, s) && AtRest(s) && s.recv.backlog == [] && s.busy == Free
    ensures s.recv.inbound[0].credits > 0
    ensures s.senders[0].posted == Of(0, s.copied) && |Of(0, s.copied)| == |s.copied|
    ensures forall i | 0 <= i < |s.copied| :: s.copied[i].conn == 0 && s.senders[0].posted[i] == s.copied[i].item
  {
    assert InvAt(cfg, s, 0);
    OfAll(0, s.copied);
  }

  lemma SendAndPlace(cfg: Config, t0: Tracked, us: seq<UserStep>, t: Tracked, a: nat, i: nat, m: Message)
    returns (us': seq<UserStep>, t': Tracked)
    requires Inv(cfg, t0.v.sys) && Continues(cfg, t0, us, t) && Refilled(cfg, t, a, i) && i < cfg.reqCount
    requires AtRest(t.v.sys)
    ensures Continues(cfg, t0, us', t') && Refilled(cfg, t', a, i + 1) && AtRest(t'.v.sys)
    ensures t'.v.sys.senders[0].posted == t.v.sys.senders[0].posted + [m]
    ensures |t.v.sys.senders[0].posted| == a + i
  {
    ContinuesInv(cfg, t0, us, t);
    AllIsCopied(cfg, t.v.sys);
    us', t' := BringFrom(cfg, t0, us, t, a, i, 0, m);
    us', t' := PlaceOne(cfg, t0, us', t', a, i);
  }

  /** What is posted and copied when the fifth message has been seen in place of the fourth. */
  predicate FifthForFourth(s: System, order: seq<nat>) {
    && AtRest(s) && s.recv.backlog == [] && s.busy == Free && |s.copied| == 5
    && |order| == 4 && order[3] == 4
    && var posted := s.senders[0].posted; |posted| == 5 && posted[3] == [1] && posted[4] == [2]
  }

  lemma LastTwo(p: seq<Message>, q: seq<Message>, x: Message, y: Message)
    requires |p| == 3 && q == p + [x] + [y]
    ensures |q| == 5 && q[3] == x && q[4] == y
  {
  }

  lemma TwoMore(cfg: Config, t: Tracked) returns (us: seq<UserStep>, t': Tracked)
    requires Serving(cfg, t) && Inv(cfg, t.v.sys) && t.v.phase == Ready && AtRest(t.v.sys)
    requires cfg.reqCount == 2 && Handled(t.v.sys) == 3
    ensures Continues(cfg, t, us, t') && Refilled(cfg, t', 3, 2) && AtRest(t'.v.sys)
    ensures var posted := t'.v.sys.senders[0].posted; |posted| == 5 && posted[3] == [1] && posted[4] == [2]
  {
    us, t' := ServeAll(cfg, t, [], t);
    NothingFilledYet(cfg, t');
    ghost var p := t'.v.sys.senders[0].posted;
    us, t' := SendAndPlace(cfg, t, us, t', 3, 0, [1]);
    us, t' := SendAndPlace(cfg, t, us, t', 3, 1, [2]);
    LastTwo(p, t'.v.sys.senders[0].posted, [1], [2]);
  }

  /** After the destroy: the third message is served, two more are sent, and the second of them is seen first. */
  lemma FifthBeforeFourth(cfg: Config, t: Tracked) returns (us: seq<UserStep>, t': Tracked)
    requires Serving(cfg, t) && Inv(cfg, t.v.sys) && t.v.phase == Ready && AtRest(t.v.sys)
    requires cfg.reqCount == 2 && Handled(t.v.sys) == 3
    ensures Continues(cfg, t, us, t') && FifthForFourth(t'.v.sys, t'.order)
  {
    us, t' := TwoMore(cfg, t);
    ModUnique(3, 1, 1, cfg.reqCount);
    us, t' := SeeAhead(cfg, t, us, t', 3);
  }

  lemma SeenIsNoPrefix(cfg: Config, t: Tracked)
    requires TrackedInv(cfg, t) && Inv(cfg, t.v.sys) && FifthForFourth(t.v.sys, t.order)
    ensures |Of(0, t.v.seen)| == 4 && Of(0, t.v.seen)[3] == [2]
  {
    AllIsCopied(cfg, t.v.sys);
    forall x | x in t.v.seen
      ensures x.conn == 0
    {
      var i :| 0 <= i < |t.v.seen| && t.v.seen[i] == x;
      assert t.v.sys.copied[t.order[i]].conn == 0;
    }
    OfAll(0, t.v.seen);
  }

  lemma ResetFollows(cfg: Config, us: seq<UserStep>, v: Served) returns (t: Tracked)
    requires cfg == Config(3, 2) && Now(cfg, us, v, Counts(Idle, Free, 2, 0, 0, 1, 2, 2))
    requires v.phase.Waited? && !InStep(cfg, v)
    ensures TrackedInv(cfg, t) && Inv(cfg, t.v.sys) && t.v == UserApply(cfg, v, Destroy)
    ensures Serving(cfg, t) && t.v.phase == Ready && AtRest(t.v.sys) && Handled(t.v.sys) == 3
  {
    var t0 := TrackAfter(cfg, TrackInit(cfg), us);
    TrackingIsServing(cfg, TrackInit(cfg), us);
    TrackInitInv(cfg);
    RunKeepsTracked(cfg, TrackInit(cfg), us);
    StepKeepsTracked(cfg, t0, Destroy);
    RunInv(cfg, us, v);
    UserStepKeepsInv(cfg, v, Destroy);
    LeadsSettled(cfg, us, t0);
    OutOfStepIsServing(cfg, t0);
    t := Track(cfg, t0, Destroy);
  }

  /** A whole run from the start, with a ring of two slots, one sender and one request at a time: of the five
      messages the sender has posted the user sees the first three and then the fifth. */
  lemma SeenOutOfOrder() returns (cfg: Config, us: seq<UserStep>)
    ensures cfg == Config(3, 2) && ValidServedRun(cfg, ServedInit(cfg), us)
    ensures var v := ServedAfter(cfg, ServedInit(cfg), us);
      && 0 in v.sys.senders && |Of(0, v.seen)| == 4 && |v.sys.senders[0].posted| == 5
      && Of(0, v.seen)[3] == v.sys.senders[0].posted[4] != v.sys.senders[0].posted[3]
      && !(Of(0, v.seen) <= v.sys.senders[0].posted)
  {
    cfg := Config(3, 2);
    var v;
    us, v := OutOfStepIsReachable(cfg);
    var t := ResetFollows(cfg, us, v);
    var more, t' := FifthBeforeFourth(cfg, t);
    ContinuesInv(cfg, t, more, t');
    TrackingIsServing(cfg, t, more);
    RunKeepsTracked(cfg, t, more);
    SeenIsNoPrefix(cfg, t');
    DestroyAndOn(cfg, us, v, more);
    us := us + ([Destroy] + more);
  }

  lemma DestroyAndOn(cfg: Config, us: seq<UserStep>, v: Served, more: seq<UserStep>)
    requires Reaches(cfg, us, v) && v.phase.Waited? && ValidServedRun(cfg, UserApply(cfg, v, Destroy), more)
    ensures var all := us + ([Destroy] + more);
      && ValidServedRun(cfg, ServedInit(cfg), all)
      && ServedAfter(cfg, ServedInit(cfg), all) == ServedAfter(cfg, UserApply(cfg, v, Destroy), more)
  {
    assert ([Destroy] + more)[0] == Destroy && ([Destroy] + more)[1..] == more;
    RunAppend(cfg, ServedInit(cfg), us, [Destroy] + more);
  }

  // ----- a message that is never seen -----

  /** Messages lie in the ring, but the one request that is created waits in a slot without any: when nothing
      more is sent, nobody can go on. */
  lemma EmptySlotIsHeld(cfg: Config, t: Tracked, a: nat, i: nat)
    requires cfg.reqCount > 0 && Refilled(cfg, t, a, i) && i <= a % cfg.reqCount
    requires t.v.sys.arrivals == [] && forall c | c in t.v.sys.senders :: t.v.sys.senders[c].wire == []
    ensures UserEnabled(cfg, t.v, Create)
    ensures forall u | Service(u) :: !UserEnabled(cfg, UserApply(cfg, t.v, Create), u)
  {
  }

  lemma OneMoreArrives(cfg: Config, t: Tracked) returns (us: seq<UserStep>, t': Tracked)
    requires Serving(cfg, t) && Inv(cfg, t.v.sys) && t.v.phase == Ready && AtRest(t.v.sys)
    requires cfg.reqCount == 2 && Handled(t.v.sys) == 3
    ensures Continues(cfg, t, us, t') && Refilled(cfg, t', 3, 1) && AtRest(t'.v.sys)
    ensures |t'.v.sys.senders[0].posted| == 4
  {
    us, t' := ServeAll(cfg, t, [], t);
    NothingFilledYet(cfg, t');
    us, t' := SendAndPlace(cfg, t, us, t', 3, 0, [1]);
  }

  lemma CreateAfter(cfg: Config, v: Served, us: seq<UserStep>)
    requires ServedShape(cfg, v) && ValidServedRun(cfg, v, us) && UserEnabled(cfg, ServedAfter(cfg, v, us), Create)
    ensures ValidServedRun(cfg, v, us + [Create])
    ensures ServedAfter(cfg, v, us + [Create]) == UserApply(cfg, ServedAfter(cfg, v, us), Create)
  {
    assert [Create][1..] == [];
    RunAppend(cfg, v, us, [Create]);
  }

  /** The sender has posted four messages, the user has seen three and waits for the next, and neither the
      network nor the receiver nor the user can go on. */
  ghost predicate Stranded(cfg: Config, v: Served) {
    && ServedShape(cfg, v) && 0 in v.sys.senders && |v.sys.senders[0].posted| == 4 && |v.seen| == 3
    && forall u | Service(u) :: !UserEnabled(cfg, v, u)
  }

  lemma NowStranded(cfg: Config, t: Tracked)
    requires cfg.reqCount == 2 && Refilled(cfg, t, 3, 1) && AtRest(t.v.sys) && |t.v.sys.senders[0].posted| == 4
    requires |t.v.seen| == |t.order|
    ensures UserEnabled(cfg, t.v, Create) && Stranded(cfg, UserApply(cfg, t.v, Create))
  {
    ModUnique(3, 1, 1, cfg.reqCount);
    EmptySlotIsHeld(cfg, t, 3, 1);
  }

  lemma FourthIsStranded(cfg: Config, t: Tracked) returns (us: seq<UserStep>)
    requires Serving(cfg, t) && Inv(cfg, t.v.sys) && t.v.phase == Ready && AtRest(t.v.sys) && TrackedInv(cfg, t)
    requires cfg.reqCount == 2 && Handled(t.v.sys) == 3
    ensures ValidServedRun(cfg, t.v, us) && Stranded(cfg, ServedAfter(cfg, t.v, us))
  {
    var t';
    us, t' := OneMoreArrives(cfg, t);
    TrackingIsServing(cfg, t, us);
    RunKeepsTracked(cfg, t, us);
    NowStranded(cfg, t');
    CreateAfter(cfg, t.v, us);
    us := us + [Create];
  }

  /** After a harmful reset a message can be stranded: a whole run from the start at whose end nobody can go on
      and the last message has not been seen. */
  lemma MessageIsStranded() returns (cfg: Config, us: seq<UserStep>)
    ensures cfg == Config(3, 2) && ValidServedRun(cfg, ServedInit(cfg), us)
    ensures Stranded(cfg, ServedAfter(cfg, ServedInit(cfg), us))
  {
    cfg := Config(3, 2);
    var v;
    us, v := OutOfStepIsReachable(cfg);
    var t := ResetFollows(cfg, us, v);
    var more := FourthIsStranded(cfg, t);
    DestroyAndOn(cfg, us, v, more);
    us := us + ([Destroy] + more);
  }
}
