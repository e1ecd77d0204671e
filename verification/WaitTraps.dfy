/** When a wait for a receive request may be trapped: it polls for events without a timeout, none comes, and a
    message that it could have copied lies in the backlog. */
module WaitTraps {
  import opened Common
  import opened FlowControl
  import opened FlowSafety
  import opened ServedQueue
  import opened ServedProgress
  import opened WaitLoop

  /** What happens by itself while the thread is in a wait: no sender starts anything new, no event of another
      operation comes, and the user does nothing else. */
  predicate Serves(x: LoopStep) {
    match x
    case Move(t) => t.Deliver? || Drains(t)
    case TakeEvent | Expire | EndDrain | Decide(_) => true
    case _ => false
  }

  predicate OnlyServes(xs: seq<LoopStep>) {
    forall x | x in xs :: Serves(x)
  }

  /** The wait for the receive request that the user holds never returns with a message, although there is one
      that the user has not seen. */
  ghost predicate Trapped(cfg: Config, w: Receiving)
    requires ServedShape(cfg, w.v)
  {
    && w.at != Outside && w.at.call.own && !AllSeen(w.v)
    && forall xs: seq<LoopStep> {:trigger LoopAfter(cfg, w, xs)} |
         LoopRun(cfg, w, xs) && OnlyServes(xs) :: !LoopAfter(cfg, w, xs).v.phase.Waited?
  }

  /** What a user can check before the wait: it has a timeout, or the request is complete already, or something
      still comes, or nothing can be copied out of the backlog. */
  predicate MayWait(cfg: Config, v: Served, call: Call)
    requires ServedShape(cfg, v)
  {
    call.timed || IsComplete(cfg, v) || !NothingComes(v.sys) || !CanCopy(cfg, v.sys.recv)
  }

  /** A wait without a timeout that is polling has an event to come, or nothing to copy. */
  predicate Hopeful(cfg: Config, w: Receiving)
    requires ServedShape(cfg, w.v)
  {
    w.at.Polling? && w.at.call.own && !w.at.call.timed ==> !NothingComes(w.v.sys) || !CanCopy(cfg, w.v.sys.recv)
  }

  /** A wait for a receive request is begun only if it may be. */
  predicate Prudent(cfg: Config, w: Receiving, x: LoopStep)
    requires ServedShape(cfg, w.v)
  {
    x.BeginWait? && x.call.own ==> MayWait(cfg, w.v, x.call)
  }

  lemma MoveKeepsComing(cfg: Config, s: System, t: Step)
    requires Shape(cfg, s) && Enabled(cfg, s, t) && !t.HandleArrival? && !t.User? && !NothingComes(s)
    ensures !NothingComes(Apply(cfg, s, t))
  {
    if s.arrivals == [] && !t.Deliver? {
      var c :| c in s.senders && s.senders[c].wire != [];
      assert Apply(cfg, s, t).senders[c].wire != [];
    }
  }

  lemma MoveKeepsHopeful(cfg: Config, w: Receiving, t: Step)
    requires ServedShape(cfg, w.v) && Hopeful(cfg, w) && CanDo(cfg, w, Move(t))
    ensures Hopeful(cfg, Do(cfg, w, Move(t)))
  {
    if w.at.Polling? {
      OutsideMove(cfg, w.v, t);
      if !NothingComes(w.v.sys) {
        MoveKeepsComing(cfg, w.v.sys, t);
      }
    }
  }

  lemma StepKeepsHopeful(cfg: Config, w: Receiving, x: LoopStep)
    requires LoopInv(cfg, w) && Hopeful(cfg, w) && CanDo(cfg, w, x) && Prudent(cfg, w, x)
    ensures Hopeful(cfg, Do(cfg, w, x))
  {
    if x.Move? {
      MoveKeepsHopeful(cfg, w, x.t);
    }
  }

  // ----- every wait that may be begun can return -----

  lemma OnlyCopyingIsLeft(cfg: Config, v: Served, u: UserStep)
    requires ServedShape(cfg, v) && UserEnabled(cfg, v, u) && Service(u)
    requires v.phase.Holding? && !IsComplete(cfg, v) && NothingComes(v.sys) && v.sys.busy == Free
    ensures CanCopy(cfg, v.sys.recv)
  {
  }

  /** While the request is polled for, an unseen message is on its way or can be copied. */
  lemma UnseenIsThere(cfg: Config, w: Receiving)
    requires LoopInv(cfg, w) && w.at.Polling? && w.at.call.own && !AllSeen(w.v) && NothingComes(w.v.sys)
    ensures CanCopy(cfg, w.v.sys.recv)
  {
    var c :| c in w.v.sys.senders && Of(c, w.v.seen) != w.v.sys.senders[c].posted;
    var u := CanGoOn(cfg, w.v, c);
    OnlyCopyingIsLeft(cfg, w.v, u);
  }

  /** How far the thread is from the end of its turn; polling counts only as long as there is something to copy. */
  function TurnLeft(cfg: Config, w: Receiving): nat
    requires ServedShape(cfg, w.v)
  {
    match w.at
    case Outside => 0
    case Polling(_) => if CanCopy(cfg, w.v.sys.recv) then 4 else 0
    case Checking(_) => 1
    case AfterTurn(_) => 2
    case InEvent(_) => 3
  }

  /** How far the wait is from its end at most, with `n` above all connections. */
  function Left(cfg: Config, w: Receiving, n: nat): int
    requires ServedShape(cfg, w.v)
  {
    StepsLeft(w.v, n) + 4 * (OnWires(w.v.sys.senders, n) + |w.v.sys.arrivals|) + TurnLeft(cfg, w)
  }

  lemma LeftIsNat(cfg: Config, w: Receiving, n: nat)
    requires LoopInv(cfg, w)
    ensures Left(cfg, w, n) >= 0
  {
    StepsLeftIsNat(cfg, w.v, n);
  }

  lemma WiresDrop(cfg: Config, s: System, c: ConnId, n: nat)
    requires Shape(cfg, s) && Enabled(cfg, s, Deliver(c)) && c < n
    ensures var s' := PacketDelivered(cfg, s, c);
      OnWires(s'.senders, n) + |s'.arrivals| == OnWires(s.senders, n) + |s.arrivals|
  {
    OneWire(s.senders, c, s.senders[c].(wire := s.senders[c].wire[1..]), n);
  }

  lemma DeliverTakes(cfg: Config, w: Receiving, c: ConnId, n: nat)
    requires ServedShape(cfg, w.v) && CanDo(cfg, w, Move(Deliver(c))) && c < n
    ensures Left(cfg, Do(cfg, w, Move(Deliver(c))), n) < Left(cfg, w, n)
  {
    OutsideMove(cfg, w.v, Deliver(c));
    DeliverTakesOne(cfg, w.v, c, n);
    WiresDrop(cfg, w.v.sys, c, n);
  }

  lemma DrainTakes(cfg: Config, w: Receiving, t: Step, n: nat)
    requires ServedShape(cfg, w.v) && Draining(w.at) && CanDo(cfg, w, Move(t)) && Drains(t)
    ensures Left(cfg, Do(cfg, w, Move(t)), n) < Left(cfg, w, n)
  {
    ReceiverTakesOne(cfg, w.v, t, n);
  }

  lemma EventTakes(cfg: Config, w: Receiving, n: nat)
    requires ServedShape(cfg, w.v) && CanDo(cfg, w, TakeEvent)
    ensures Left(cfg, Do(cfg, w, TakeEvent), n) < Left(cfg, w, n)
  {
    ReceiverTakesOne(cfg, w.v, HandleArrival, n);
  }

  lemma EndDrainTakes(cfg: Config, w: Receiving, n: nat)
    requires ServedShape(cfg, w.v) && CanDo(cfg, w, EndDrain)
    ensures Left(cfg, Do(cfg, w, EndDrain), n) < Left(cfg, w, n)
  {
  }

  lemma DecideTakes(cfg: Config, w: Receiving, back: bool, n: nat)
    requires ServedShape(cfg, w.v) && CanDo(cfg, w, Decide(back)) && !CanCopy(cfg, w.v.sys.recv)
    ensures Left(cfg, Do(cfg, w, Decide(back)), n) < Left(cfg, w, n)
  {
    if ServedStep(cfg, w, Decide(back)).Some? {
      UserTakesOne(cfg, w.v, Wait, n);
    }
  }

  /** Every step but that of a timeout brings the wait nearer to its end; so does a timeout if there is something
      to copy. */
  lemma ServingTakes(cfg: Config, w: Receiving, x: LoopStep, n: nat)
    requires ServedShape(cfg, w.v) && PlaceInv(cfg, w) && CanDo(cfg, w, x) && Serves(x)
    requires forall c | c in w.v.sys.senders :: c < n
    requires x.Expire? ==> CanCopy(cfg, w.v.sys.recv)
    ensures Left(cfg, Do(cfg, w, x), n) < Left(cfg, w, n)
  {
    match x
    case Move(t) =>
      if t.Deliver? {
        DeliverTakes(cfg, w, t.c, n);
      } else {
        DrainTakes(cfg, w, t, n);
      }
    case TakeEvent => EventTakes(cfg, w, n);
    case Expire =>
    case EndDrain => EndDrainTakes(cfg, w, n);
    case Decide(back) => DecideTakes(cfg, w, back, n);
  }

  lemma SendersStay(cfg: Config, w: Receiving, x: LoopStep)
    requires ServedShape(cfg, w.v) && CanDo(cfg, w, x) && Serves(x)
    ensures Do(cfg, w, x).v.sys.senders.Keys == w.v.sys.senders.Keys
  {
  }

  /** A wait without timeouts ends or comes to rest: it takes no more steps than were left, unless something new
      comes. */
  lemma {:induction false} WaitIsBounded(cfg: Config, w: Receiving, xs: seq<LoopStep>, n: nat)
    requires LoopInv(cfg, w) && LoopRun(cfg, w, xs) && OnlyServes(xs) && forall c | c in w.v.sys.senders :: c < n
    requires forall x | x in xs :: !x.Expire?
    ensures |xs| <= Left(cfg, w, n)
    decreases |xs|
  {
    LeftIsNat(cfg, w, n);
    if xs != [] {
      ServingTakes(cfg, w, xs[0], n);
      StepKeepsLoop(cfg, w, xs[0]);
      SendersStay(cfg, w, xs[0]);
      WaitIsBounded(cfg, Do(cfg, w, xs[0]), xs[1..], n);
    }
  }

  /** The next step of a wait that can return. */
  lemma NextOfDrain(cfg: Config, w: Receiving) returns (x: LoopStep)
    requires ServedShape(cfg, w.v) && Draining(w.at)
    ensures CanDo(cfg, w, x) && Serves(x) && (x.Move? || x.EndDrain?)
  {
    match w.v.sys.busy
    case Copied(_, _) => x := Move(SendBackCredit);
    case Paid(_, _) => x := Move(FinishCopy);
    case Free => x := if CanCopy(cfg, w.v.sys.recv) then Move(CopyFront) else EndDrain;
  }

  lemma CanArrive(cfg: Config, w: Receiving)
    requires ServedShape(cfg, w.v) && w.at.Polling?
    ensures w.v.sys.arrivals != [] ==> CanDo(cfg, w, TakeEvent)
    ensures forall c | c in w.v.sys.senders && w.v.sys.senders[c].wire != [] :: CanDo(cfg, w, Move(Deliver(c)))
  {
  }

  lemma NextOfPolling(cfg: Config, w: Receiving) returns (x: LoopStep)
    requires LoopInv(cfg, w) && Hopeful(cfg, w) && w.at.Polling? && w.at.call.own && !AllSeen(w.v)
    ensures CanDo(cfg, w, x) && Serves(x) && !x.Decide? && (x.Expire? ==> CanCopy(cfg, w.v.sys.recv))
  {
    CanArrive(cfg, w);
    if w.v.sys.arrivals != [] {
      x := TakeEvent;
    } else if c :| c in w.v.sys.senders && w.v.sys.senders[c].wire != [] {
      x := Move(Deliver(c));
    } else {
      UnseenIsThere(cfg, w);
      x := Expire;
      CanExpire(cfg, w);
    }
  }

  lemma CanExpire(cfg: Config, w: Receiving)
    requires ServedShape(cfg, w.v) && Hopeful(cfg, w) && w.at.Polling? && w.at.call.own
    requires NothingComes(w.v.sys) && CanCopy(cfg, w.v.sys.recv)
    ensures CanDo(cfg, w, Expire)
  {
  }

  lemma NextOfWait(cfg: Config, w: Receiving) returns (x: LoopStep)
    requires LoopInv(cfg, w) && Hopeful(cfg, w) && w.at != Outside && w.at.call.own && !AllSeen(w.v)
    ensures CanDo(cfg, w, x) && Serves(x) && (x.Expire? ==> CanCopy(cfg, w.v.sys.recv))
    ensures x.Decide? ==> w.at.Checking? && (x.back <==> IsComplete(cfg, w.v))
  {
    match w.at
    case Polling(_) => x := NextOfPolling(cfg, w);
    case Checking(_) => x := Decide(IsComplete(cfg, w.v));
    case _ => x := NextOfDrain(cfg, w);
  }

  /** A wait for the receive request that can return, and a message to return with. */
  ghost predicate Awaits(cfg: Config, w: Receiving) {
    LoopInv(cfg, w) && Hopeful(cfg, w) && w.at != Outside && w.at.call.own && !AllSeen(w.v)
  }

  lemma StaysInWait(cfg: Config, w: Receiving, x: LoopStep)
    requires Awaits(cfg, w) && CanDo(cfg, w, x) && Serves(x)
    requires x.Decide? ==> (x.back <==> IsComplete(cfg, w.v))
    ensures Do(cfg, w, x).v.phase.Waited? || Awaits(cfg, Do(cfg, w, x))
  {
    StepKeepsLoop(cfg, w, x);
    StepKeepsHopeful(cfg, w, x);
    if !(x.Decide? && x.back) {
      UnseenStays(cfg, w, x);
    }
  }

  lemma UnseenStays(cfg: Config, w: Receiving, x: LoopStep)
    requires ServedShape(cfg, w.v) && CanDo(cfg, w, x) && Serves(x) && !(x.Decide? && x.back) && !AllSeen(w.v)
    ensures !AllSeen(Do(cfg, w, x).v)
  {
    var w' := Do(cfg, w, x);
    var c :| c in w.v.sys.senders && Of(c, w.v.seen) != w.v.sys.senders[c].posted;
    assert w'.v.seen == w.v.seen && c in w'.v.sys.senders && w'.v.sys.senders[c].posted == w.v.sys.senders[c].posted;
  }

  lemma WaitGoesOn(cfg: Config, w: Receiving, n: nat) returns (x: LoopStep)
    requires Awaits(cfg, w) && forall c | c in w.v.sys.senders :: c < n
    ensures CanDo(cfg, w, x) && Serves(x)
    ensures Do(cfg, w, x).v.phase.Waited? || Awaits(cfg, Do(cfg, w, x))
    ensures 0 <= Left(cfg, w, n) && Left(cfg, Do(cfg, w, x), n) < Left(cfg, w, n)
  {
    x := NextOfWait(cfg, w);
    LeftIsNat(cfg, w, n);
    ServingTakes(cfg, w, x, n);
    StaysInWait(cfg, w, x);
  }

  /** As long as a message has not been seen, the wait can return with one. */
  lemma {:induction false} CanReturn(cfg: Config, w: Receiving, n: nat) returns (xs: seq<LoopStep>)
    requires Awaits(cfg, w) && forall c | c in w.v.sys.senders :: c < n
    ensures LoopRun(cfg, w, xs) && OnlyServes(xs) && LoopAfter(cfg, w, xs).v.phase.Waited?
    decreases Left(cfg, w, n)
  {
    var x := WaitGoesOn(cfg, w, n);
    SendersStay(cfg, w, x);
    xs := [];
    if !Do(cfg, w, x).v.phase.Waited? {
      xs := CanReturn(cfg, Do(cfg, w, x), n);
    }
    RunFirst(cfg, w, x, xs);
    xs := [x] + xs;
  }

  lemma RunFirst(cfg: Config, w: Receiving, x: LoopStep, xs: seq<LoopStep>)
    requires ServedShape(cfg, w.v) && CanDo(cfg, w, x) && LoopRun(cfg, Do(cfg, w, x), xs)
    ensures LoopRun(cfg, w, [x] + xs) && LoopAfter(cfg, w, [x] + xs) == LoopAfter(cfg, Do(cfg, w, x), xs)
  {
    assert ([x] + xs)[1..] == xs;
  }

  // ----- exactly the waits that may be begun -----

  lemma NotTrapped(cfg: Config, w: Receiving)
    requires LoopInv(cfg, w) && Hopeful(cfg, w)
    ensures !Trapped(cfg, w)
  {
    if w.at != Outside && w.at.call.own && !AllSeen(w.v) {
      var n := AboveAll(w.v.sys.senders.Keys);
      var xs := CanReturn(cfg, w, n);
      assert LoopAfter(cfg, w, xs).v.phase.Waited?;
    }
  }

  lemma {:induction false} AboveAll(conns: set<ConnId>) returns (n: nat)
    ensures forall c | c in conns :: c < n
  {
    if conns == {} {
      n := 0;
    } else {
      var x :| x in conns;
      var m := AboveAll(conns - {x});
      n := if x < m then m else x + 1;
      assert forall y | y in conns :: y == x || y in conns - {x};
    }
  }

  /** At the end of a turn a wait for the receive request returns with its message if the request is complete, and may
      return without one exactly if it is not and the wait has a timeout; otherwise it goes on polling. */
  lemma TurnEndsIff(cfg: Config, w: Receiving, back: bool)
    requires ServedShape(cfg, w.v) && PlaceInv(cfg, w) && w.at.Checking? && w.at.call.own
    ensures CanDo(cfg, w, Decide(back)) <==> if IsComplete(cfg, w.v) then back else back ==> w.at.call.timed
    ensures CanDo(cfg, w, Decide(back)) ==>
      var w' := Do(cfg, w, Decide(back));
      && (w'.v.phase.Waited? <==> IsComplete(cfg, w.v)) && (w'.v.phase.Waited? ==> |w'.v.seen| == |w.v.seen| + 1)
      && (!w'.v.phase.Waited? ==> w'.v == w.v) && w'.at == if back then Outside else Polling(w.at.call)
  {
  }

  /** Every wait of the run is begun only if it may be. */
  predicate PrudentRun(cfg: Config, w: Receiving, xs: seq<LoopStep>)
    requires ServedShape(cfg, w.v) && LoopRun(cfg, w, xs)
    decreases |xs|
  {
    xs == [] || (Prudent(cfg, w, xs[0]) && PrudentRun(cfg, Do(cfg, w, xs[0]), xs[1..]))
  }

  lemma {:induction false} RunKeepsHopeful(cfg: Config, w: Receiving, xs: seq<LoopStep>)
    requires LoopInv(cfg, w) && Hopeful(cfg, w)
    requires LoopRun(cfg, w, xs) && RunKeepsStep(cfg, w, xs) && PrudentRun(cfg, w, xs)
    ensures LoopInv(cfg, LoopAfter(cfg, w, xs)) && Hopeful(cfg, LoopAfter(cfg, w, xs))
    decreases |xs|
  {
    if xs != [] {
      StepKeepsLoop(cfg, w, xs[0]);
      StepKeepsHopeful(cfg, w, xs[0]);
      RunKeepsHopeful(cfg, Do(cfg, w, xs[0]), xs[1..]);
    }
  }

  lemma LoopInitInv(cfg: Config)
    requires cfg.Valid() && cfg.reqCount >= 2
    ensures LoopInv(cfg, LoopInit(cfg)) && Hopeful(cfg, LoopInit(cfg))
  {
    ServedInitInv(cfg);
  }

  /** In every run from the start in which each destroy is in step and each wait for a receive request is begun
      only if it may be, no wait is ever trapped: whatever else has happened, while some message has not been
      seen the wait can return with one, without any new message or event. */
  lemma {:induction false} PrudentWaitsReturn(cfg: Config, xs: seq<LoopStep>)
    requires cfg.Valid() && cfg.reqCount >= 2
    requires LoopRun(cfg, LoopInit(cfg), xs) && RunKeepsStep(cfg, LoopInit(cfg), xs)
    requires PrudentRun(cfg, LoopInit(cfg), xs)
    ensures !Trapped(cfg, LoopAfter(cfg, LoopInit(cfg), xs))
  {
    LoopInitInv(cfg);
    RunKeepsHopeful(cfg, LoopInit(cfg), xs);
    NotTrapped(cfg, LoopAfter(cfg, LoopInit(cfg), xs));
  }

  /** Nothing that happens by itself in this wait leads into a trap. */
  ghost predicate WaitIsSafe(cfg: Config, w: Receiving, call: Call)
    requires ServedShape(cfg, w.v) && CanDo(cfg, w, BeginWait(call))
  {
    forall xs: seq<LoopStep> {:trigger LoopAfter(cfg, Do(cfg, w, BeginWait(call)), xs)} |
      LoopRun(cfg, Do(cfg, w, BeginWait(call)), xs) && OnlyServes(xs) ::
        !Trapped(cfg, LoopAfter(cfg, Do(cfg, w, BeginWait(call)), xs))
  }

  lemma {:induction false} ServingIsPrudent(cfg: Config, w: Receiving, xs: seq<LoopStep>)
    requires ServedShape(cfg, w.v) && LoopRun(cfg, w, xs) && OnlyServes(xs)
    ensures RunKeepsStep(cfg, w, xs) && PrudentRun(cfg, w, xs)
    decreases |xs|
  {
    if xs != [] {
      assert xs[0] in xs;
      ServingIsPrudent(cfg, Do(cfg, w, xs[0]), xs[1..]);
    }
  }

  lemma NothingServes(cfg: Config, w: Receiving, xs: seq<LoopStep>)
    requires ServedShape(cfg, w.v) && w.at.Polling? && !w.at.call.timed && NothingComes(w.v.sys)
    requires LoopRun(cfg, w, xs) && OnlyServes(xs)
    ensures xs == []
  {
    assert xs != [] ==> xs[0] in xs;
    PollsForEver(cfg, w);
  }

  /** Without a timeout and with nothing to come the thread polls for ever. */
  lemma PollsForEver(cfg: Config, w: Receiving)
    requires ServedShape(cfg, w.v) && w.at.Polling? && !w.at.call.timed && NothingComes(w.v.sys)
    ensures forall x | Serves(x) :: !CanDo(cfg, w, x)
  {
  }

  lemma BacklogIsUnseen(cfg: Config, w: Receiving)
    requires LoopInv(cfg, w) && CanCopy(cfg, w.v.sys.recv)
    ensures !AllSeen(w.v)
  {
    var v, e := w.v, w.v.sys.recv.backlog[0];
    assert e in v.sys.recv.backlog && InvAt(cfg, v.sys, e.conn);
    FrontOf(e.conn, v.sys.recv.backlog);
    assert v.sys.copied[..Done(v.sys)] <= v.sys.copied;
    OfPrefix(e.conn, v.seen, v.sys.copied);
  }

  lemma ImprudentIsTrapped(cfg: Config, w: Receiving)
    requires LoopInv(cfg, w) && !Hopeful(cfg, w)
    ensures Trapped(cfg, w)
  {
    BacklogIsUnseen(cfg, w);
    forall xs: seq<LoopStep> | LoopRun(cfg, w, xs) && OnlyServes(xs)
      ensures !LoopAfter(cfg, w, xs).v.phase.Waited?
    {
      NothingServes(cfg, w, xs);
    }
  }

  /** After any run in which each destroy is in step: a wait for the receive request held cannot be trapped by
      anything that happens by itself if and only if it may be begun. */
  lemma {:induction false} WaitIsSafeIff(cfg: Config, xs: seq<LoopStep>, call: Call)
    requires cfg.Valid() && cfg.reqCount >= 2
    requires LoopRun(cfg, LoopInit(cfg), xs) && RunKeepsStep(cfg, LoopInit(cfg), xs)
    requires call.own && CanDo(cfg, LoopAfter(cfg, LoopInit(cfg), xs), BeginWait(call))
    ensures var w := LoopAfter(cfg, LoopInit(cfg), xs); WaitIsSafe(cfg, w, call) <==> MayWait(cfg, w.v, call)
  {
    var w := LoopAfter(cfg, LoopInit(cfg), xs);
    LoopInitInv(cfg);
    RunKeepsLoop(cfg, LoopInit(cfg), xs);
    WaitIsSafeIffAt(cfg, w, call);
  }

  lemma MayWaitIsSafe(cfg: Config, w: Receiving, xs: seq<LoopStep>)
    requires LoopInv(cfg, w) && Hopeful(cfg, w) && LoopRun(cfg, w, xs) && OnlyServes(xs)
    ensures !Trapped(cfg, LoopAfter(cfg, w, xs))
  {
    ServingIsPrudent(cfg, w, xs);
    RunKeepsHopeful(cfg, w, xs);
    NotTrapped(cfg, LoopAfter(cfg, w, xs));
  }

  /** Whether a wait may be begun is whether it is hopeful once it has begun. */
  lemma MayWaitIsHopeful(cfg: Config, w: Receiving, call: Call)
    requires ServedShape(cfg, w.v) && call.own && CanDo(cfg, w, BeginWait(call))
    ensures MayWait(cfg, w.v, call) <==> Hopeful(cfg, Do(cfg, w, BeginWait(call)))
  {
  }

  lemma WaitIsSafeIffAt(cfg: Config, w: Receiving, call: Call)
    requires LoopInv(cfg, w) && call.own && CanDo(cfg, w, BeginWait(call))
    ensures WaitIsSafe(cfg, w, call) <==> MayWait(cfg, w.v, call)
  {
    var w' := Do(cfg, w, BeginWait(call));
    StepKeepsLoop(cfg, w, BeginWait(call));
    MayWaitIsHopeful(cfg, w, call);
    if MayWait(cfg, w.v, call) {
      forall xs: seq<LoopStep> | LoopRun(cfg, w', xs) && OnlyServes(xs)
        ensures !Trapped(cfg, LoopAfter(cfg, w', xs))
      {
        MayWaitIsSafe(cfg, w', xs);
      }
    } else {
      ImprudentIsTrapped(cfg, w');
      assert LoopRun(cfg, w', []) && LoopAfter(cfg, w', []) == w';
    }
  }
}
