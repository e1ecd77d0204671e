/** Who executes the backlog: the receiver's thread, after an arrival event and at the end of each turn of a wait.
    A turn ends on an event, or when the time is up; a wait without a timeout has no turn without an event. */
module WaitLoop {
  import opened Common
  import opened FlowControl
  import opened FlowSafety
  import opened ServedQueue

  /** A wait for the receive request held, or for some other operation; `timed` if its timeout is not negative. */
  datatype Call = Call(own: bool, timed: bool)

  /** Where the thread is: polling for events, executing the backlog for an event just taken or after a turn,
      or about to look whether what it waits for is complete. */
  datatype Place = Outside | Polling(call: Call) | InEvent(call: Call) | AfterTurn(call: Call) | Checking(call: Call)

  datatype Receiving = Receiving(v: Served, at: Place)

  /** `Move` is a step of a sender, of the network, or of executing the backlog.  `OtherEvent` is an event that is no
      arrival.  `Decide` ends a turn, `back` if the wait is over. */
  datatype LoopStep =
    | Move(t: Step)
    | CreateRequest
    | DestroyRequest
    | BeginWait(call: Call)
    | TakeEvent
    | OtherEvent
    | Expire
    | EndDrain
    | Decide(back: bool)

  predicate Draining(at: Place) {
    at.InEvent? || at.AfterTurn?
  }

  predicate Drains(t: Step) {
    t.CopyFront? || t.SendBackCredit? || t.FinishCopy?
  }

  /** The receive request that the user holds is complete. */
  predicate IsComplete(cfg: Config, v: Served)
    requires ServedShape(cfg, v)
  {
    UserEnabled(cfg, v, Wait)
  }

  /** What the step is to the served queue, if anything. */
  function ServedStep(cfg: Config, w: Receiving, x: LoopStep): Option<UserStep>
    requires ServedShape(cfg, w.v)
  {
    match x
    case Move(t) => Some(Protocol(t))
    case CreateRequest => Some(Create)
    case DestroyRequest => Some(Destroy)
    case TakeEvent => Some(Protocol(HandleArrival))
    case BeginWait(call) => if call.own && IsComplete(cfg, w.v) then Some(Wait) else None
    case Decide(_) => if w.at.Checking? && w.at.call.own && IsComplete(cfg, w.v) then Some(Wait) else None
    case _ => None
  }

  predicate InPlace(cfg: Config, w: Receiving, x: LoopStep)
    requires ServedShape(cfg, w.v)
  {
    match x
    case Move(t) => !t.HandleArrival? && (Drains(t) ==> Draining(w.at))
    case CreateRequest | DestroyRequest => w.at == Outside
    case BeginWait(call) => w.at == Outside && (call.own ==> w.v.phase.Holding?)
    case TakeEvent | OtherEvent => w.at.Polling?
    case Expire => w.at.Polling? && w.at.call.timed
    case EndDrain => Draining(w.at) && w.v.sys.busy == Free && !CanCopy(cfg, w.v.sys.recv)
    case Decide(back) =>
      w.at.Checking? && (w.at.call.own ==> if IsComplete(cfg, w.v) then back else back ==> w.at.call.timed)
  }

  predicate CanDo(cfg: Config, w: Receiving, x: LoopStep)
    requires ServedShape(cfg, w.v)
  {
    InPlace(cfg, w, x) &&
    match ServedStep(cfg, w, x) case Some(u) => UserEnabled(cfg, w.v, u) case None => true
  }

  function NextPlace(cfg: Config, w: Receiving, x: LoopStep): Place
    requires ServedShape(cfg, w.v) && InPlace(cfg, w, x)
  {
    match x
    case Move(_) | CreateRequest | DestroyRequest => w.at
    case BeginWait(call) => if call.own && IsComplete(cfg, w.v) then Outside else Polling(call)
    case TakeEvent => InEvent(w.at.call)
    case OtherEvent | Expire => AfterTurn(w.at.call)
    case EndDrain => if w.at.InEvent? then AfterTurn(w.at.call) else Checking(w.at.call)
    case Decide(back) => if back then Outside else Polling(w.at.call)
  }

  function Do(cfg: Config, w: Receiving, x: LoopStep): (w': Receiving)
    requires ServedShape(cfg, w.v) && CanDo(cfg, w, x)
    ensures ServedShape(cfg, w'.v)
  {
    Receiving(match ServedStep(cfg, w, x) case Some(u) => UserApply(cfg, w.v, u) case None => w.v, NextPlace(cfg, w, x))
  }

  function LoopInit(cfg: Config): Receiving {
    Receiving(ServedInit(cfg), Outside)
  }

  // ----- the invariant -----

  ghost predicate LoopInv(cfg: Config, w: Receiving) {
    ServedInv(cfg, w.v) && Inv(cfg, w.v.sys) && PlaceInv(cfg, w)
  }

  /** Copies are made only while the backlog is executed, which leaves nothing to copy, and a request that is complete
      is not polled for. */
  predicate PlaceInv(cfg: Config, w: Receiving)
    requires ServedShape(cfg, w.v)
  {
    && (w.v.sys.busy != Free ==> Draining(w.at))
    && (w.at.Checking? ==> !CanCopy(cfg, w.v.sys.recv))
    && (w.at != Outside && w.at.call.own ==>
          w.v.phase.Holding? && (w.at.Polling? ==> !IsComplete(cfg, w.v)))
  }

  /** A destroy finds the numbering of arrivals in step. */
  predicate KeepsStep(cfg: Config, w: Receiving, x: LoopStep)
    requires ServedShape(cfg, w.v)
  {
    x.DestroyRequest? ==> InStep(cfg, w.v)
  }

  lemma InStepUserStep(cfg: Config, v: Served, u: UserStep)
    requires ServedInv(cfg, v) && Inv(cfg, v.sys) && UserEnabled(cfg, v, u) && (u.Destroy? ==> InStep(cfg, v))
    ensures ServedInv(cfg, UserApply(cfg, v, u)) && Inv(cfg, UserApply(cfg, v, u).sys)
  {
    StepKeepsServed(cfg, v, u);
    UserStepKeepsInv(cfg, v, u);
  }

  lemma ServedPartKept(cfg: Config, w: Receiving, x: LoopStep)
    requires ServedInv(cfg, w.v) && Inv(cfg, w.v.sys) && CanDo(cfg, w, x) && KeepsStep(cfg, w, x)
    ensures ServedInv(cfg, Do(cfg, w, x).v) && Inv(cfg, Do(cfg, w, x).v.sys)
  {
    match ServedStep(cfg, w, x)
    case Some(u) =>
      InStepUserStep(cfg, w.v, u);
    case None =>
  }

  /** A step of a sender or of the network does not concern the backlog and the slots. */
  lemma OutsideMove(cfg: Config, v: Served, t: Step)
    requires ServedShape(cfg, v) && UserEnabled(cfg, v, Protocol(t)) && !t.HandleArrival? && !Drains(t)
    ensures var v' := UserApply(cfg, v, Protocol(t));
      && v'.sys.busy == v.sys.busy && v'.phase == v.phase
      && v'.sys.recv.slots == v.sys.recv.slots && v'.sys.recv.backlog == v.sys.recv.backlog
      && (CanCopy(cfg, v'.sys.recv) <==> CanCopy(cfg, v.sys.recv)) && (IsComplete(cfg, v') <==> IsComplete(cfg, v))
  {
  }

  lemma DrainKeepsPlace(cfg: Config, w: Receiving, t: Step)
    requires ServedShape(cfg, w.v) && PlaceInv(cfg, w) && CanDo(cfg, w, Move(t)) && Drains(t)
    ensures PlaceInv(cfg, Do(cfg, w, Move(t)))
  {
  }

  lemma OutsideKeepsPlace(cfg: Config, w: Receiving, t: Step)
    requires ServedShape(cfg, w.v) && PlaceInv(cfg, w) && CanDo(cfg, w, Move(t)) && !Drains(t)
    ensures PlaceInv(cfg, Do(cfg, w, Move(t)))
  {
    OutsideMove(cfg, w.v, t);
  }

  lemma UserKeepsPlace(cfg: Config, w: Receiving, x: LoopStep)
    requires ServedShape(cfg, w.v) && PlaceInv(cfg, w) && CanDo(cfg, w, x)
    requires x.CreateRequest? || x.DestroyRequest? || x.BeginWait?
    ensures PlaceInv(cfg, Do(cfg, w, x))
  {
  }

  lemma TurnKeepsPlace(cfg: Config, w: Receiving, x: LoopStep)
    requires ServedShape(cfg, w.v) && PlaceInv(cfg, w) && CanDo(cfg, w, x)
    requires x.OtherEvent? || x.Expire? || x.EndDrain? || x.TakeEvent?
    ensures PlaceInv(cfg, Do(cfg, w, x))
  {
  }

  lemma DecideKeepsPlace(cfg: Config, w: Receiving, back: bool)
    requires ServedShape(cfg, w.v) && PlaceInv(cfg, w) && CanDo(cfg, w, Decide(back))
    ensures PlaceInv(cfg, Do(cfg, w, Decide(back)))
  {
  }

  lemma StepKeepsPlace(cfg: Config, w: Receiving, x: LoopStep)
    requires ServedShape(cfg, w.v) && PlaceInv(cfg, w) && CanDo(cfg, w, x)
    ensures PlaceInv(cfg, Do(cfg, w, x))
  {
    match x
    case Move(t) =>
      if Drains(t) {
        DrainKeepsPlace(cfg, w, t);
      } else {
        OutsideKeepsPlace(cfg, w, t);
      }
    case CreateRequest | DestroyRequest | BeginWait(_) => UserKeepsPlace(cfg, w, x);
    case Decide(back) => DecideKeepsPlace(cfg, w, back);
    case _ => TurnKeepsPlace(cfg, w, x);
  }

  lemma StepKeepsLoop(cfg: Config, w: Receiving, x: LoopStep)
    requires LoopInv(cfg, w) && CanDo(cfg, w, x) && KeepsStep(cfg, w, x)
    ensures LoopInv(cfg, Do(cfg, w, x))
  {
    ServedPartKept(cfg, w, x);
    StepKeepsPlace(cfg, w, x);
  }

  // ----- runs -----

  predicate LoopRun(cfg: Config, w: Receiving, xs: seq<LoopStep>)
    requires ServedShape(cfg, w.v)
    decreases |xs|
  {
    xs == [] || (CanDo(cfg, w, xs[0]) && LoopRun(cfg, Do(cfg, w, xs[0]), xs[1..]))
  }

  function LoopAfter(cfg: Config, w: Receiving, xs: seq<LoopStep>): (w': Receiving)
    requires ServedShape(cfg, w.v) && LoopRun(cfg, w, xs)
    ensures ServedShape(cfg, w'.v)
    decreases |xs|
  {
    if xs == [] then w else LoopAfter(cfg, Do(cfg, w, xs[0]), xs[1..])
  }

  /** Every destroy of the run finds the numbering in step. */
  predicate RunKeepsStep(cfg: Config, w: Receiving, xs: seq<LoopStep>)
    requires ServedShape(cfg, w.v) && LoopRun(cfg, w, xs)
    decreases |xs|
  {
    xs == [] || (KeepsStep(cfg, w, xs[0]) && RunKeepsStep(cfg, Do(cfg, w, xs[0]), xs[1..]))
  }

  lemma {:induction false} RunKeepsLoop(cfg: Config, w: Receiving, xs: seq<LoopStep>)
    requires LoopInv(cfg, w) && LoopRun(cfg, w, xs) && RunKeepsStep(cfg, w, xs)
    ensures LoopInv(cfg, LoopAfter(cfg, w, xs))
    decreases |xs|
  {
    if xs != [] {
      StepKeepsLoop(cfg, w, xs[0]);
      RunKeepsLoop(cfg, Do(cfg, w, xs[0]), xs[1..]);
    }
  }

  /** The steps of the served queue in a run of the receiver's thread. */
  function ServedSteps(cfg: Config, w: Receiving, xs: seq<LoopStep>): seq<UserStep>
    requires ServedShape(cfg, w.v) && LoopRun(cfg, w, xs)
    decreases |xs|
  {
    if xs == [] then []
    else
      (match ServedStep(cfg, w, xs[0]) case Some(u) => [u] case None => [])
      + ServedSteps(cfg, Do(cfg, w, xs[0]), xs[1..])
  }

  /** Every run of the receiver's thread is a run of the served queue, so that what holds in all runs of that
      holds here too. */
  lemma {:induction false} LoopIsServed(cfg: Config, w: Receiving, xs: seq<LoopStep>)
    requires ServedShape(cfg, w.v) && LoopRun(cfg, w, xs)
    ensures ValidServedRun(cfg, w.v, ServedSteps(cfg, w, xs))
    ensures ServedAfter(cfg, w.v, ServedSteps(cfg, w, xs)) == LoopAfter(cfg, w, xs).v
    decreases |xs|
  {
    if xs != [] {
      var rest := ServedSteps(cfg, Do(cfg, w, xs[0]), xs[1..]);
      LoopIsServed(cfg, Do(cfg, w, xs[0]), xs[1..]);
      match ServedStep(cfg, w, xs[0])
      case Some(u) => assert ([u] + rest)[0] == u && ([u] + rest)[1..] == rest;
      case None => assert [] + rest == rest;
    }
  }
}
