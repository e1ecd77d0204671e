/** A whole run into a trapped wait: two slots, one sender, four messages that arrive while the user waits for
    another operation. */
module TrappedWait {
  import opened Common
  import opened RequestRing
  import opened FlowControl
  import opened ServedQueue
  import opened ServedProgress
  import opened WaitLoop
  import opened WaitTraps

  /** What matters of a state with one sender. */
  datatype Tally = Tally(pc: SendPc, credits: int, wire: nat, arrivals: nat, backlog: nat, copied: nat, seen: nat)

  predicate HasTally(v: Served, n: Tally) {
    && v.sys.senders.Keys == {0} && 0 in v.sys.recv.inbound
    && (forall a | a in v.sys.arrivals :: a.conn == 0) && (forall e | e in v.sys.recv.backlog :: e.conn == 0)
    && n == Tally(v.sys.senders[0].pc, v.sys.recv.inbound[0].credits, |v.sys.senders[0].wire|, |v.sys.arrivals|,
                  |v.sys.recv.backlog|, |v.sys.copied|, |v.seen|)
  }

  /** The run `xs` leads from the start to `w` and resets nothing out of step. */
  predicate Gets(cfg: Config, xs: seq<LoopStep>, w: Receiving) {
    && cfg == Config(4, 2) && LoopRun(cfg, LoopInit(cfg), xs) && RunKeepsStep(cfg, LoopInit(cfg), xs)
    && LoopAfter(cfg, LoopInit(cfg), xs) == w
  }

  ghost predicate Now(cfg: Config, xs: seq<LoopStep>, w: Receiving, n: Tally) {
    Gets(cfg, xs, w) && HasTally(w.v, n)
  }

  lemma {:induction false} RunSnoc(cfg: Config, w: Receiving, xs: seq<LoopStep>, x: LoopStep)
    requires ServedShape(cfg, w.v) && LoopRun(cfg, w, xs) && RunKeepsStep(cfg, w, xs)
    requires CanDo(cfg, LoopAfter(cfg, w, xs), x) && KeepsStep(cfg, LoopAfter(cfg, w, xs), x)
    ensures LoopRun(cfg, w, xs + [x]) && RunKeepsStep(cfg, w, xs + [x])
    ensures LoopAfter(cfg, w, xs + [x]) == Do(cfg, LoopAfter(cfg, w, xs), x)
    decreases |xs|
  {
    if xs == [] {
      assert xs + [x] == [x] && [x][1..] == [];
    } else {
      ConcatTail(xs, [x]);
      RunSnoc(cfg, Do(cfg, w, xs[0]), xs[1..], x);
    }
  }

  lemma Next(cfg: Config, xs: seq<LoopStep>, w: Receiving, x: LoopStep)
    requires Gets(cfg, xs, w) && CanDo(cfg, w, x) && KeepsStep(cfg, w, x)
    ensures Gets(cfg, xs + [x], Do(cfg, w, x))
  {
    RunSnoc(cfg, LoopInit(cfg), xs, x);
  }

  lemma GetsInv(cfg: Config, xs: seq<LoopStep>, w: Receiving)
    requires Gets(cfg, xs, w)
    ensures LoopInv(cfg, w)
  {
    LoopInitInv(cfg);
    RunKeepsLoop(cfg, LoopInit(cfg), xs);
  }

  // ----- four messages are sent and delivered -----

  predicate SamePlace(w: Receiving, w': Receiving) {
    w'.at == w.at && w'.v.phase == w.v.phase
  }

  lemma MoveOne(cfg: Config, xs: seq<LoopStep>, w: Receiving, t: Step) returns (xs': seq<LoopStep>, w': Receiving)
    requires Gets(cfg, xs, w) && CanDo(cfg, w, Move(t))
    ensures Gets(cfg, xs', w') && SamePlace(w, w') && w'.v == UserApply(cfg, w.v, Protocol(t))
  {
    Next(cfg, xs, w, Move(t));
    xs', w' := xs + [Move(t)], Do(cfg, w, Move(t));
  }

  lemma Connect(cfg: Config) returns (xs: seq<LoopStep>, w: Receiving)
    requires cfg == Config(4, 2)
    ensures Now(cfg, xs, w, Tally(Idle, 4, 0, 0, 0, 0, 0)) && w.at == Outside && w.v.phase == Ready
  {
    var init := LoopInit(cfg);
    assert LoopRun(cfg, init, []) && LoopAfter(cfg, init, []) == init;
    xs, w := MoveOne(cfg, [], init, FlowControl.Step.Connect(0));
  }

  lemma FetchOne(cfg: Config, xs: seq<LoopStep>, w: Receiving, n: Tally) returns (xs': seq<LoopStep>, w': Receiving)
    requires Now(cfg, xs, w, n) && n.pc == Idle && n.credits > 0
    ensures Now(cfg, xs', w', n.(pc := Fetched(n.credits))) && SamePlace(w, w')
  {
    xs', w' := MoveOne(cfg, xs, w, Fetch(0));
  }

  lemma SwapOne(cfg: Config, xs: seq<LoopStep>, w: Receiving, n: Tally) returns (xs': seq<LoopStep>, w': Receiving)
    requires Now(cfg, xs, w, n) && n.pc == Fetched(n.credits)
    ensures Now(cfg, xs', w', n.(pc := Credited, credits := n.credits - 1)) && SamePlace(w, w')
  {
    xs', w' := MoveOne(cfg, xs, w, CompareSwap(0));
  }

  lemma PostOne(cfg: Config, xs: seq<LoopStep>, w: Receiving, n: Tally) returns (xs': seq<LoopStep>, w': Receiving)
    requires Now(cfg, xs, w, n) && n.pc == Credited
    ensures Now(cfg, xs', w', n.(pc := Idle, wire := n.wire + 1)) && SamePlace(w, w')
  {
    xs', w' := MoveOne(cfg, xs, w, Post(0, []));
  }

  lemma DeliverOne(cfg: Config, xs: seq<LoopStep>, w: Receiving, n: Tally) returns (xs': seq<LoopStep>, w': Receiving)
    requires Now(cfg, xs, w, n) && n.wire > 0
    ensures Now(cfg, xs', w', n.(wire := n.wire - 1, arrivals := n.arrivals + 1)) && SamePlace(w, w')
  {
    xs', w' := MoveOne(cfg, xs, w, Deliver(0));
  }

  lemma TakeOne(cfg: Config, xs: seq<LoopStep>, w: Receiving, n: Tally) returns (xs': seq<LoopStep>, w': Receiving)
    requires Now(cfg, xs, w, n) && n.pc == Idle && n.credits > 0
    ensures Now(cfg, xs', w', n.(pc := Credited, credits := n.credits - 1)) && SamePlace(w, w')
  {
    xs', w' := FetchOne(cfg, xs, w, n);
    xs', w' := SwapOne(cfg, xs', w', n.(pc := Fetched(n.credits)));
  }

  lemma SendOne(cfg: Config, xs: seq<LoopStep>, w: Receiving, n: Tally) returns (xs': seq<LoopStep>, w': Receiving)
    requires Now(cfg, xs, w, n) && n.pc == Idle && n.credits > 0
    ensures Now(cfg, xs', w', n.(credits := n.credits - 1, wire := n.wire + 1)) && SamePlace(w, w')
  {
    xs', w' := TakeOne(cfg, xs, w, n);
    xs', w' := PostOne(cfg, xs', w', n.(pc := Credited, credits := n.credits - 1));
  }

  lemma SendAndDeliver(cfg: Config, xs: seq<LoopStep>, w: Receiving, n: Tally)
    returns (xs': seq<LoopStep>, w': Receiving)
    requires Now(cfg, xs, w, n) && n.pc == Idle && n.credits > 0
    ensures Now(cfg, xs', w', n.(credits := n.credits - 1, arrivals := n.arrivals + 1)) && SamePlace(w, w')
  {
    xs', w' := SendOne(cfg, xs, w, n);
    xs', w' := DeliverOne(cfg, xs', w', n.(credits := n.credits - 1, wire := n.wire + 1));
  }

  /** All credits are used up for messages that arrive. */
  lemma {:induction false} SendAll(cfg: Config, xs: seq<LoopStep>, w: Receiving, n: Tally)
    returns (xs': seq<LoopStep>, w': Receiving)
    requires Now(cfg, xs, w, n) && n.pc == Idle && n.credits >= 0
    ensures Now(cfg, xs', w', n.(credits := 0, arrivals := n.arrivals + n.credits)) && SamePlace(w, w')
    decreases n.credits
  {
    xs', w' := xs, w;
    if n.credits > 0 {
      xs', w' := SendAndDeliver(cfg, xs, w, n);
      xs', w' := SendAll(cfg, xs', w', n.(credits := n.credits - 1, arrivals := n.arrivals + 1));
    }
  }

  // ----- the user waits for another operation -----

  const OTHER := Call(false, false)

  lemma BeginOther(cfg: Config, xs: seq<LoopStep>, w: Receiving, n: Tally)
    returns (xs': seq<LoopStep>, w': Receiving)
    requires Now(cfg, xs, w, n) && w.at == Outside
    ensures Now(cfg, xs', w', n) && w'.at == Polling(OTHER) && w'.v == w.v
  {
    Next(cfg, xs, w, BeginWait(OTHER));
    xs', w' := xs + [BeginWait(OTHER)], Do(cfg, w, BeginWait(OTHER));
  }

  lemma TakeArrival(cfg: Config, xs: seq<LoopStep>, w: Receiving, n: Tally)
    returns (xs': seq<LoopStep>, w': Receiving)
    requires Now(cfg, xs, w, n) && w.at == Polling(OTHER) && n.arrivals > 0
    ensures Now(cfg, xs', w', n.(arrivals := n.arrivals - 1, backlog := n.backlog + 1))
    ensures w'.at == InEvent(OTHER) && w'.v.phase == w.v.phase && w'.v.sys.busy == w.v.sys.busy
  {
    Next(cfg, xs, w, TakeEvent);
    xs', w' := xs + [TakeEvent], Do(cfg, w, TakeEvent);
  }

  lemma CopyOne(cfg: Config, xs: seq<LoopStep>, w: Receiving, n: Tally)
    returns (xs': seq<LoopStep>, w': Receiving)
    requires Now(cfg, xs, w, n) && Draining(w.at) && w.v.sys.busy == Free && CanCopy(cfg, w.v.sys.recv)
    ensures n.backlog > 0 && SamePlace(w, w') && w'.v.sys.busy.Copied? && w'.v.sys.busy.conn == 0
    ensures Now(cfg, xs', w', n.(backlog := n.backlog - 1, copied := n.copied + 1))
  {
    assert w.v.sys.recv.backlog[0] in w.v.sys.recv.backlog;
    xs', w' := MoveOne(cfg, xs, w, CopyFront);
  }

  lemma PayOne(cfg: Config, xs: seq<LoopStep>, w: Receiving, n: Tally)
    returns (xs': seq<LoopStep>, w': Receiving)
    requires Now(cfg, xs, w, n) && Draining(w.at) && w.v.sys.busy.Copied? && w.v.sys.busy.conn == 0
    ensures Now(cfg, xs', w', n.(credits := n.credits + 1)) && SamePlace(w, w') && w'.v.sys.busy.Paid?
  {
    xs', w' := MoveOne(cfg, xs, w, SendBackCredit);
  }

  lemma FinishOne(cfg: Config, xs: seq<LoopStep>, w: Receiving, n: Tally)
    returns (xs': seq<LoopStep>, w': Receiving)
    requires Now(cfg, xs, w, n) && Draining(w.at) && w.v.sys.busy.Paid?
    ensures Now(cfg, xs', w', n) && SamePlace(w, w') && w'.v.sys.busy == Free
  {
    xs', w' := MoveOne(cfg, xs, w, FinishCopy);
  }

  lemma Executed(cfg: Config, v: Served)
    requires ServedInv(cfg, v) && v.sys.busy == Free && !CanCopy(cfg, v.sys.recv)
    ensures v.sys.recv.backlog == [] || |v.sys.copied| == Returned(v) + cfg.reqCount
  {
    if v.sys.recv.backlog != [] && |v.sys.copied| < Returned(v) + cfg.reqCount {
      FrontFits(cfg, v);
    }
  }

  lemma Executable(cfg: Config, v: Served)
    requires ServedInv(cfg, v) && v.sys.busy == Free && CanCopy(cfg, v.sys.recv)
    ensures v.sys.recv.backlog != [] && |v.sys.copied| < Returned(v) + cfg.reqCount
  {
    RoomToCopy(cfg, v);
  }

  /** How many messages executing the backlog copies before the user has seen any. */
  function Fitting(n: Tally): nat
    requires n.copied <= 2
  {
    if n.backlog <= 2 - n.copied then n.backlog else 2 - n.copied
  }

  function Drained(n: Tally): Tally
    requires n.copied <= 2
  {
    var d := Fitting(n);
    n.(backlog := n.backlog - d, copied := n.copied + d, credits := n.credits + d)
  }

  lemma CopyAndFinish(cfg: Config, xs: seq<LoopStep>, w: Receiving, n: Tally)
    returns (xs': seq<LoopStep>, w': Receiving)
    requires Now(cfg, xs, w, n) && Draining(w.at) && w.v.sys.busy == Free && CanCopy(cfg, w.v.sys.recv)
    ensures n.backlog > 0 && SamePlace(w, w') && w'.v.sys.busy == Free
    ensures Now(cfg, xs', w', n.(backlog := n.backlog - 1, copied := n.copied + 1, credits := n.credits + 1))
  {
    xs', w' := CopyOne(cfg, xs, w, n);
    var m := n.(backlog := n.backlog - 1, copied := n.copied + 1);
    xs', w' := PayOne(cfg, xs', w', m);
    xs', w' := FinishOne(cfg, xs', w', m.(credits := n.credits + 1));
  }

  lemma DrainEnds(cfg: Config, xs: seq<LoopStep>, w: Receiving, n: Tally)
    requires Now(cfg, xs, w, n) && w.v.sys.busy == Free && w.v.phase == Ready && n.seen == 0
    ensures n.copied <= 2 && (CanCopy(cfg, w.v.sys.recv) <==> Fitting(n) > 0)
  {
    GetsInv(cfg, xs, w);
    if CanCopy(cfg, w.v.sys.recv) {
      Executable(cfg, w.v);
    } else {
      Executed(cfg, w.v);
    }
  }

  lemma {:induction false} Drain(cfg: Config, xs: seq<LoopStep>, w: Receiving, n: Tally)
    returns (xs': seq<LoopStep>, w': Receiving)
    requires Now(cfg, xs, w, n) && Draining(w.at) && w.v.sys.busy == Free && w.v.phase == Ready && n.seen == 0
    ensures n.copied <= 2 && Now(cfg, xs', w', Drained(n)) && SamePlace(w, w')
    ensures w'.v.sys.busy == Free && !CanCopy(cfg, w'.v.sys.recv)
    decreases n.backlog
  {
    DrainEnds(cfg, xs, w, n);
    xs', w' := xs, w;
    if CanCopy(cfg, w.v.sys.recv) {
      xs', w' := CopyAndFinish(cfg, xs, w, n);
      var m := n.(backlog := n.backlog - 1, copied := n.copied + 1, credits := n.credits + 1);
      xs', w' := Drain(cfg, xs', w', m);
    }
  }

  lemma EndOne(cfg: Config, xs: seq<LoopStep>, w: Receiving, n: Tally) returns (xs': seq<LoopStep>, w': Receiving)
    requires Now(cfg, xs, w, n) && Draining(w.at) && w.v.sys.busy == Free && !CanCopy(cfg, w.v.sys.recv)
    ensures Now(cfg, xs', w', n) && w'.v == w.v && w'.at == NextPlace(cfg, w, EndDrain)
  {
    Next(cfg, xs, w, EndDrain);
    xs', w' := xs + [EndDrain], Do(cfg, w, EndDrain);
  }

  lemma DecideOne(cfg: Config, xs: seq<LoopStep>, w: Receiving, n: Tally, back: bool)
    returns (xs': seq<LoopStep>, w': Receiving)
    requires Now(cfg, xs, w, n) && w.at == Checking(OTHER)
    ensures Now(cfg, xs', w', n) && w'.v == w.v && w'.at == if back then Outside else Polling(OTHER)
  {
    Next(cfg, xs, w, Decide(back));
    xs', w' := xs + [Decide(back)], Do(cfg, w, Decide(back));
  }

  lemma EndTurn(cfg: Config, xs: seq<LoopStep>, w: Receiving, n: Tally) returns (xs': seq<LoopStep>, w': Receiving)
    requires Now(cfg, xs, w, n) && w.at == InEvent(OTHER) && w.v.sys.busy == Free && !CanCopy(cfg, w.v.sys.recv)
    ensures Now(cfg, xs', w', n) && w'.v == w.v && w'.at == Polling(OTHER)
  {
    xs', w' := EndOne(cfg, xs, w, n);
    xs', w' := EndOne(cfg, xs', w', n);
    xs', w' := DecideOne(cfg, xs', w', n, false);
  }

  /** One arrival, one turn. */
  lemma Turn(cfg: Config, xs: seq<LoopStep>, w: Receiving, n: Tally) returns (xs': seq<LoopStep>, w': Receiving)
    requires Now(cfg, xs, w, n) && w.at == Polling(OTHER) && w.v.sys.busy == Free && w.v.phase == Ready
    requires n.arrivals > 0 && n.seen == 0
    ensures n.copied <= 2 && Now(cfg, xs', w', Drained(n.(arrivals := n.arrivals - 1, backlog := n.backlog + 1)))
    ensures SamePlace(w, w') && w'.v.sys.busy == Free
  {
    var m := n.(arrivals := n.arrivals - 1, backlog := n.backlog + 1);
    xs', w' := TakeArrival(cfg, xs, w, n);
    xs', w' := Drain(cfg, xs', w', m);
    xs', w' := EndTurn(cfg, xs', w', Drained(m));
  }

  predicate AtRest(w: Receiving) {
    w.at == Polling(OTHER) && w.v.sys.busy == Free && w.v.phase == Ready
  }

  lemma TwoTurns(cfg: Config, xs: seq<LoopStep>, w: Receiving) returns (xs': seq<LoopStep>, w': Receiving)
    requires Now(cfg, xs, w, Tally(Idle, 0, 0, 4, 0, 0, 0)) && AtRest(w)
    ensures Now(cfg, xs', w', Tally(Idle, 2, 0, 2, 0, 2, 0)) && AtRest(w')
  {
    xs', w' := Turn(cfg, xs, w, Tally(Idle, 0, 0, 4, 0, 0, 0));
    xs', w' := Turn(cfg, xs', w', Tally(Idle, 1, 0, 3, 0, 1, 0));
  }

  lemma TwoMoreTurns(cfg: Config, xs: seq<LoopStep>, w: Receiving) returns (xs': seq<LoopStep>, w': Receiving)
    requires Now(cfg, xs, w, Tally(Idle, 2, 0, 2, 0, 2, 0)) && AtRest(w)
    ensures Now(cfg, xs', w', Tally(Idle, 2, 0, 0, 2, 2, 0)) && AtRest(w')
  {
    xs', w' := Turn(cfg, xs, w, Tally(Idle, 2, 0, 2, 0, 2, 0));
    xs', w' := Turn(cfg, xs', w', Tally(Idle, 2, 0, 1, 1, 2, 0));
  }

  /** The other operation completes with an event of its own. */
  lemma EndOther(cfg: Config, xs: seq<LoopStep>, w: Receiving, n: Tally) returns (xs': seq<LoopStep>, w': Receiving)
    requires Now(cfg, xs, w, n) && w.at == Polling(OTHER) && w.v.sys.busy == Free && w.v.phase == Ready
    requires n.copied == 2 && n.seen == 0
    ensures Now(cfg, xs', w', n) && w'.at == Outside && w'.v == w.v
  {
    DrainEnds(cfg, xs, w, n);
    Next(cfg, xs, w, OtherEvent);
    xs', w' := xs + [OtherEvent], Do(cfg, w, OtherEvent);
    xs', w' := EndOne(cfg, xs', w', n);
    xs', w' := DecideOne(cfg, xs', w', n, true);
  }

  // ----- two requests are served without a turn, and the third is waited for -----

  const OWN := Call(true, false)

  lemma CreateNext(cfg: Config, xs: seq<LoopStep>, w: Receiving, n: Tally)
    returns (xs': seq<LoopStep>, w': Receiving)
    requires Now(cfg, xs, w, n) && w.at == Outside && w.v.phase == Ready
    ensures Now(cfg, xs', w', n) && w'.at == Outside && w'.v.phase.Holding? && w'.v.sys == w.v.sys
  {
    GetsInv(cfg, xs, w);
    CreateAttachesNextSlot(cfg, w.v);
    Next(cfg, xs, w, CreateRequest);
    xs', w' := xs + [CreateRequest], Do(cfg, w, CreateRequest);
  }

  lemma CopiedIsComplete(cfg: Config, v: Served)
    requires ServedInv(cfg, v) && v.phase.Holding? && v.sys.busy == Free && |v.seen| < |v.sys.copied|
    ensures IsComplete(cfg, v)
  {
    assert v.sys.copied[Returned(v)].conn == SlotOf(cfg, v.sys, Returned(v)).from;
  }

  /** The request is complete already: the wait comes back at once and executes no backlog. */
  lemma WaitAtOnce(cfg: Config, xs: seq<LoopStep>, w: Receiving, n: Tally)
    returns (xs': seq<LoopStep>, w': Receiving)
    requires Now(cfg, xs, w, n) && w.at == Outside && w.v.phase.Holding? && w.v.sys.busy == Free && n.seen < n.copied
    ensures Now(cfg, xs', w', n.(seen := n.seen + 1)) && w'.at == Outside && w'.v.phase.Waited?
    ensures w'.v.sys.busy == Free
  {
    GetsInv(cfg, xs, w);
    CopiedIsComplete(cfg, w.v);
    Next(cfg, xs, w, BeginWait(OWN));
    xs', w' := xs + [BeginWait(OWN)], Do(cfg, w, BeginWait(OWN));
  }

  lemma GiveBack(cfg: Config, xs: seq<LoopStep>, w: Receiving, n: Tally)
    returns (xs': seq<LoopStep>, w': Receiving)
    requires Now(cfg, xs, w, n) && w.at == Outside && w.v.phase.Waited? && w.v.sys.busy == Free
    requires n.seen % 2 == 0 ==> (n.copied + n.backlog) % 2 == 0
    ensures Now(cfg, xs', w', n) && w'.at == Outside && w'.v.phase == Ready && w'.v.sys.busy == Free
  {
    Next(cfg, xs, w, DestroyRequest);
    xs', w' := xs + [DestroyRequest], Do(cfg, w, DestroyRequest);
  }

  lemma Round(cfg: Config, xs: seq<LoopStep>, w: Receiving, n: Tally) returns (xs': seq<LoopStep>, w': Receiving)
    requires Now(cfg, xs, w, n) && w.at == Outside && w.v.phase == Ready && w.v.sys.busy == Free
    requires n.seen < n.copied && (n.copied + n.backlog) % 2 == 0
    ensures Now(cfg, xs', w', n.(seen := n.seen + 1))
    ensures w'.at == Outside && w'.v.phase == Ready && w'.v.sys.busy == Free
  {
    xs', w' := CreateNext(cfg, xs, w, n);
    xs', w' := WaitAtOnce(cfg, xs', w', n);
    xs', w' := GiveBack(cfg, xs', w', n.(seen := n.seen + 1));
  }

  lemma TwoCopied(cfg: Config) returns (xs: seq<LoopStep>, w: Receiving)
    requires cfg == Config(4, 2)
    ensures Now(cfg, xs, w, Tally(Idle, 2, 0, 0, 2, 2, 0)) && w.at == Outside && w.v.phase == Ready
    ensures w.v.sys.busy == Free
  {
    xs, w := Connect(cfg);
    xs, w := SendAll(cfg, xs, w, Tally(Idle, 4, 0, 0, 0, 0, 0));
    xs, w := BeginOther(cfg, xs, w, Tally(Idle, 0, 0, 4, 0, 0, 0));
    GetsInv(cfg, xs, w);
    xs, w := TwoTurns(cfg, xs, w);
    xs, w := TwoMoreTurns(cfg, xs, w);
    xs, w := EndOther(cfg, xs, w, Tally(Idle, 2, 0, 0, 2, 2, 0));
  }

  lemma NotComplete(cfg: Config, v: Served)
    requires ServedInv(cfg, v) && v.phase.Holding? && |v.seen| == |v.sys.copied| && v.sys.recv.backlog != []
    requires v.sys.busy == Free
    ensures !IsComplete(cfg, v) && CanCopy(cfg, v.sys.recv)
  {
    FrontFits(cfg, v);
    assert SlotOf(cfg, v.sys, Returned(v)).state == Posted;
  }

  lemma ThirdIsTrapped(cfg: Config, xs: seq<LoopStep>, w: Receiving)
    requires Now(cfg, xs, w, Tally(Idle, 2, 0, 0, 2, 2, 2))
    requires w.at == Outside && w.v.phase.Holding? && w.v.sys.busy == Free
    ensures CanDo(cfg, w, BeginWait(OWN)) && !MayWait(cfg, w.v, OWN)
    ensures Trapped(cfg, Do(cfg, w, BeginWait(OWN)))
  {
    GetsInv(cfg, xs, w);
    NotComplete(cfg, w.v);
    StepKeepsLoop(cfg, w, BeginWait(OWN));
    ImprudentIsTrapped(cfg, Do(cfg, w, BeginWait(OWN)));
  }

  /** The whole run: the sender has posted four messages, the user has seen two and waits without a timeout for the
      third, which lies in the backlog and could be copied; nothing makes this wait return but something new. */
  lemma WaitIsTrapped() returns (cfg: Config, xs: seq<LoopStep>)
    ensures cfg == Config(4, 2) && LoopRun(cfg, LoopInit(cfg), xs) && RunKeepsStep(cfg, LoopInit(cfg), xs)
    ensures var w := LoopAfter(cfg, LoopInit(cfg), xs);
      && |w.v.seen| == 2 && |w.v.sys.recv.backlog| == 2 && NothingComes(w.v.sys)
      && CanDo(cfg, w, BeginWait(OWN)) && !MayWait(cfg, w.v, OWN) && Trapped(cfg, Do(cfg, w, BeginWait(OWN)))
  {
    cfg := Config(4, 2);
    var w;
    xs, w := TwoCopied(cfg);
    xs, w := Round(cfg, xs, w, Tally(Idle, 2, 0, 0, 2, 2, 0));
    xs, w := Round(cfg, xs, w, Tally(Idle, 2, 0, 0, 2, 2, 1));
    xs, w := CreateNext(cfg, xs, w, Tally(Idle, 2, 0, 0, 2, 2, 2));
    ThirdIsTrapped(cfg, xs, w);
  }
}
