/** The gate in front of the progress engine: a lock, a flag, and a condition variable let one thread at
    a time poll for completions while the others wait for it.  Every shared access is one step of one
    thread; any number of threads interleave freely. */
module ProgressGate {
  import opened Common

  /** How a call comes back: from the waiting side, or as the thread that has made progress. */
  datatype Result = Ok | TimedOut | Made

  /** Where a thread is.  From `Checking`, `Claiming`, `Claimed`, `Leaving` and from `Clearing` to
      `Releasing` it holds the lock. */
  datatype Pc =
    | Outside
    | Entering
    | Checking
    | Claiming
    | Claimed
    | Making
    | Finishing
    | Clearing
    | Broadcasting
    | Releasing
    | Blocked
    | Waking(why: Result)
    | Leaving(result: Result)
    | Returned(value: Result)

  /** A negative timeout waits for ever.  `done` says whether the thread's request was complete when it last looked. */
  datatype Thread = Thread(pc: Pc, timeout: int, done: bool)

  /** `events` counts the events that have come and that nobody has taken yet. */
  datatype Gate = Gate(lock: Option<nat>, inProgress: bool, threads: seq<Thread>, events: nat)

  datatype Step =
    | Call(timeout: int)
    | Acquire
    | Check(complete: bool)
    | SetFlag
    | Release
    | EndProgress(event: bool)
    | ClearFlag
    | Broadcast
    | Expire
    | WakeSpuriously
    | Event

  function Init(n: nat): Gate {
    Gate(None, false, seq(n, _ => Thread(Outside, 0, false)), 0)
  }

  /** The progress section ends on an event, and without one if the maker's request was complete when it entered
      or if its time is up. */
  predicate Enabled(g: Gate, t: nat, s: Step) {
    t < |g.threads| &&
    var pc := g.threads[t].pc;
    match s
    case Call(_) => pc.Outside? || pc.Returned?
    case Acquire => g.lock == None && (pc.Entering? || pc.Finishing? || pc.Waking?)
    case Check(_) => pc.Checking?
    case SetFlag => pc.Claiming?
    case Release => pc.Claimed? || pc.Releasing? || pc.Leaving?
    case EndProgress(event) =>
      pc.Making? && if event then g.events > 0 else g.threads[t].done || g.threads[t].timeout >= 0
    case ClearFlag => pc.Clearing?
    case Broadcast => pc.Broadcasting?
    case Expire => pc.Blocked? && g.threads[t].timeout > 0
    case WakeSpuriously => pc.Blocked?
    case Event => true
  }

  function Move(g: Gate, t: nat, pc: Pc): Gate
    requires t < |g.threads|
  {
    g.(threads := g.threads[t := g.threads[t].(pc := pc)])
  }

  /** The decision taken under the lock; `complete` says whether the caller's request is done already. */
  function Decide(g: Gate, t: nat, complete: bool): Gate
    requires t < |g.threads|
  {
    if !g.inProgress then g.(threads := g.threads[t := g.threads[t].(pc := Claiming, done := complete)])
    else if complete then Move(g, t, Leaving(Ok))
    else if g.threads[t].timeout != 0 then Move(g, t, Blocked).(lock := None)
    else Move(g, t, Leaving(TimedOut))
  }

  function Woken(x: Thread): Thread {
    if x.pc.Blocked? then x.(pc := Waking(Ok)) else x
  }

  function Apply(g: Gate, t: nat, s: Step): Gate
    requires Enabled(g, t, s)
  {
    var pc := g.threads[t].pc;
    match s
    case Call(timeout) => g.(threads := g.threads[t := Thread(Entering, timeout, false)])
    case Acquire =>
      Move(g, t, if pc.Entering? then Checking else if pc.Finishing? then Clearing else Leaving(pc.why))
        .(lock := Some(t))
    case Check(complete) => Decide(g, t, complete)
    case SetFlag => Move(g, t, Claimed).(inProgress := true)
    case Release =>
      Move(g, t, if pc.Claimed? then Making else if pc.Releasing? then Returned(Made) else Returned(pc.result))
        .(lock := None)
    case EndProgress(event) => Move(g, t, Finishing).(events := if event then g.events - 1 else g.events)
    case ClearFlag => Move(g, t, Broadcasting).(inProgress := false)
    case Broadcast =>
      Move(g.(threads := seq(|g.threads|, i requires 0 <= i < |g.threads| => Woken(g.threads[i]))), t, Releasing)
    case Expire => Move(g, t, Waking(TimedOut))
    case WakeSpuriously => Move(g, t, Waking(Ok))
    case Event => g.(events := g.events + 1)
  }

  // ----- the invariant -----

  predicate Holds(pc: Pc) {
    pc.Checking? || pc.Claiming? || pc.Claimed? || pc.Clearing? || pc.Broadcasting? || pc.Releasing? || pc.Leaving?
  }

  /** The thread has set the flag and not yet taken it back. */
  predicate InSection(pc: Pc) {
    pc.Claimed? || pc.Making? || pc.Finishing? || pc.Clearing?
  }

  /** The thread will wake everyone who is blocked: it is the maker, or it is about to broadcast. */
  predicate Waker(pc: Pc) {
    InSection(pc) || pc.Broadcasting?
  }

  predicate LockInv(g: Gate) {
    && (forall t | 0 <= t < |g.threads| :: Holds(g.threads[t].pc) <==> g.lock == Some(t))
    && (g.lock.Some? ==> g.lock.value < |g.threads|)
  }

  predicate FlagInv(g: Gate) {
    && (forall t | 0 <= t < |g.threads| :: InSection(g.threads[t].pc) ==> g.inProgress)
    && (forall t | 0 <= t < |g.threads| :: g.threads[t].pc.Claiming? || g.threads[t].pc.Broadcasting? ==> !g.inProgress)
    && (forall t, u | 0 <= t < u < |g.threads| :: !(InSection(g.threads[t].pc) && InSection(g.threads[u].pc)))
  }

  /** The flag is never left set without a thread that will clear it. */
  predicate MakerInv(g: Gate) {
    g.inProgress ==> exists t :: 0 <= t < |g.threads| && InSection(g.threads[t].pc)
  }

  predicate WakeInv(g: Gate) {
    forall t | 0 <= t < |g.threads| && g.threads[t].pc.Blocked? ::
      exists u :: 0 <= u < |g.threads| && Waker(g.threads[u].pc)
  }

  /** Only a call with a timeout can come back with a timeout from waiting, and a call with timeout zero
      never blocks. */
  predicate TimeoutInv(g: Gate) {
    forall t | 0 <= t < |g.threads| :: var pc := g.threads[t].pc;
      && (pc == Waking(TimedOut) || pc == Leaving(TimedOut) || pc == Returned(TimedOut) ==> g.threads[t].timeout >= 0)
      && (pc.Blocked? || pc.Waking? ==> g.threads[t].timeout != 0)
  }

  predicate Inv(g: Gate) {
    LockInv(g) && FlagInv(g) && MakerInv(g) && WakeInv(g) && TimeoutInv(g)
  }

  lemma StepKeepsLock(g: Gate, t: nat, s: Step)
    requires LockInv(g) && Enabled(g, t, s)
    ensures LockInv(Apply(g, t, s))
  {
  }

  lemma StepKeepsTimeout(g: Gate, t: nat, s: Step)
    requires TimeoutInv(g) && Enabled(g, t, s)
    ensures TimeoutInv(Apply(g, t, s))
  {
  }

  lemma StepKeepsFlag(g: Gate, t: nat, s: Step)
    requires LockInv(g) && FlagInv(g) && Enabled(g, t, s)
    ensures FlagInv(Apply(g, t, s))
  {
  }

  lemma StepKeepsMaker(g: Gate, t: nat, s: Step)
    requires LockInv(g) && FlagInv(g) && MakerInv(g) && Enabled(g, t, s)
    ensures MakerInv(Apply(g, t, s))
  {
    var g' := Apply(g, t, s);
    if g'.inProgress {
      if s.SetFlag? {
        assert InSection(g'.threads[t].pc);
      } else {
        var u :| 0 <= u < |g.threads| && InSection(g.threads[u].pc);
        assert InSection(g'.threads[u].pc);
      }
    }
  }

  lemma StepKeepsWake(g: Gate, t: nat, s: Step)
    requires MakerInv(g) && WakeInv(g) && Enabled(g, t, s)
    ensures WakeInv(Apply(g, t, s))
  {
    var g' := Apply(g, t, s);
    if s.Broadcast? {
      assert forall j | 0 <= j < |g'.threads| :: !g'.threads[j].pc.Blocked?;
    } else {
      forall j | 0 <= j < |g'.threads| && g'.threads[j].pc.Blocked?
        ensures exists u :: 0 <= u < |g'.threads| && Waker(g'.threads[u].pc)
      {
        assert g.threads[j].pc.Blocked? || g.inProgress;
        var u :| 0 <= u < |g.threads| && Waker(g.threads[u].pc);
        assert Waker(g.threads[u].pc) && Waker(g'.threads[u].pc);
      }
    }
  }

  lemma StepKeepsInv(g: Gate, t: nat, s: Step)
    requires Inv(g) && Enabled(g, t, s)
    ensures Inv(Apply(g, t, s))
  {
    StepKeepsLock(g, t, s);
    StepKeepsFlag(g, t, s);
    StepKeepsMaker(g, t, s);
    StepKeepsWake(g, t, s);
    StepKeepsTimeout(g, t, s);
  }

  // ----- whole runs -----

  predicate ValidRun(g: Gate, ts: seq<(nat, Step)>)
    decreases |ts|
  {
    ts == [] || (Enabled(g, ts[0].0, ts[0].1) && ValidRun(Apply(g, ts[0].0, ts[0].1), ts[1..]))
  }

  function After(g: Gate, ts: seq<(nat, Step)>): Gate
    requires ValidRun(g, ts)
    decreases |ts|
  {
    if ts == [] then g else After(Apply(g, ts[0].0, ts[0].1), ts[1..])
  }

  lemma {:induction false} RunKeepsInv(g: Gate, ts: seq<(nat, Step)>)
    requires Inv(g) && ValidRun(g, ts)
    ensures Inv(After(g, ts))
    decreases |ts|
  {
    if ts != [] {
      StepKeepsInv(g, ts[0].0, ts[0].1);
      RunKeepsInv(Apply(g, ts[0].0, ts[0].1), ts[1..]);
    }
  }

  /** At most one thread is ever in the progress section. */
  lemma {:induction false} AtMostOneMaker(n: nat, ts: seq<(nat, Step)>, t: nat, u: nat)
    requires ValidRun(Init(n), ts)
    ensures var g := After(Init(n), ts);
      t < |g.threads| && u < |g.threads| && InSection(g.threads[t].pc) && InSection(g.threads[u].pc) ==> t == u
  {
    RunKeepsInv(Init(n), ts);
  }

  /** Whoever is blocked is waited for: the flag is set and some thread is the maker, or the thread that
      has just cleared it still holds the lock and is about to broadcast. */
  lemma {:induction false} BlockedHasWaker(n: nat, ts: seq<(nat, Step)>, t: nat) returns (u: nat)
    requires ValidRun(Init(n), ts)
    requires var g := After(Init(n), ts); t < |g.threads| && g.threads[t].pc.Blocked?
    ensures var g := After(Init(n), ts);
      u < |g.threads| &&
      if g.inProgress then InSection(g.threads[u].pc) else g.threads[u].pc.Broadcasting? && g.lock == Some(u)
  {
    RunKeepsInv(Init(n), ts);
    var g := After(Init(n), ts);
    if g.inProgress {
      u :| 0 <= u < |g.threads| && InSection(g.threads[u].pc);
    } else {
      u :| 0 <= u < |g.threads| && Waker(g.threads[u].pc);
    }
  }

  /** An untimed call never comes back with a timeout, and a call with timeout zero never blocks. */
  lemma {:induction false} TimeoutsAreKept(n: nat, ts: seq<(nat, Step)>, t: nat)
    requires ValidRun(Init(n), ts)
    ensures var g := After(Init(n), ts);
      t < |g.threads| ==>
        && (g.threads[t].pc == Returned(TimedOut) ==> g.threads[t].timeout >= 0)
        && (g.threads[t].pc.Blocked? ==> g.threads[t].timeout != 0)
  {
    RunKeepsInv(Init(n), ts);
  }

  /** A call waits exactly when another thread is making progress, its own request is not done, and it
      may wait at all; it becomes the maker exactly when nobody is.  Otherwise it leaves at once: with success
      exactly if its request is done, and with a timeout exactly if it is not and the timeout is zero. */
  lemma CallWaitsIff(g: Gate, t: nat, complete: bool)
    requires Inv(g) && Enabled(g, t, Check(complete))
    ensures var pc := Apply(g, t, Check(complete)).threads[t].pc;
      var busy := exists u :: 0 <= u < |g.threads| && InSection(g.threads[u].pc);
      && (pc.Claiming? <==> !busy)
      && (pc.Blocked? <==> busy && !complete && g.threads[t].timeout != 0)
      && (pc == Leaving(TimedOut) <==> busy && !complete && g.threads[t].timeout == 0)
      && (pc == Leaving(Ok) <==> busy && complete)
  {
    if u :| 0 <= u < |g.threads| && InSection(g.threads[u].pc) {
      assert g.inProgress;
    }
  }

  // ----- why a call comes back -----

  /** What has happened to a thread since its call: it has been refused without waiting, its request was complete, its
      wait has expired, it has been woken, or it has made progress. */
  datatype Cause = Nothing | Refused | AlreadyDone | Expired | WasWoken | MadeProgress

  ghost predicate SectionTaken(g: Gate) {
    exists u :: 0 <= u < |g.threads| && InSection(g.threads[u].pc)
  }

  /** What step `s` of thread `u` means for thread `t`. */
  ghost function NextCause(g: Gate, u: nat, s: Step, t: nat, c: Cause): Cause
    requires Enabled(g, u, s)
  {
    if s.Broadcast? && t != u && t < |g.threads| && g.threads[t].pc.Blocked? then WasWoken
    else if t != u then c
    else
      match s
      case Call(_) => Nothing
      case Check(complete) =>
        if !SectionTaken(g) then c
        else if complete then AlreadyDone
        else if g.threads[t].timeout == 0 then Refused
        else c
      case EndProgress(_) => MadeProgress
      case Expire => Expired
      case WakeSpuriously => WasWoken
      case _ => c
  }

  ghost function CauseAfter(g: Gate, ts: seq<(nat, Step)>, t: nat, c: Cause): Cause
    requires ValidRun(g, ts)
    decreases |ts|
  {
    if ts == [] then c
    else CauseAfter(Apply(g, ts[0].0, ts[0].1), ts[1..], t, NextCause(g, ts[0].0, ts[0].1, t, c))
  }

  predicate Matches(r: Result, c: Cause) {
    match r
    case Ok => c == AlreadyDone || c == WasWoken
    case TimedOut => c == Refused || c == Expired
    case Made => c == MadeProgress
  }

  /** The result that a thread carries is that of its cause. */
  predicate ResultInv(pc: Pc, c: Cause) {
    match pc
    case Waking(why) => Matches(why, c)
    case Leaving(r) => Matches(r, c)
    case Returned(r) => Matches(r, c)
    case Finishing | Clearing | Broadcasting | Releasing => c == MadeProgress
    case _ => true
  }

  lemma SectionIsFlag(g: Gate)
    requires Inv(g)
    ensures SectionTaken(g) <==> g.inProgress
  {
  }

  lemma StepKeepsResult(g: Gate, u: nat, s: Step, t: nat, c: Cause)
    requires Inv(g) && Enabled(g, u, s) && t < |g.threads| && ResultInv(g.threads[t].pc, c)
    ensures |Apply(g, u, s).threads| == |g.threads|
    ensures ResultInv(Apply(g, u, s).threads[t].pc, NextCause(g, u, s, t, c))
  {
    SectionIsFlag(g);
  }

  lemma {:induction false} RunKeepsResult(g: Gate, ts: seq<(nat, Step)>, t: nat, c: Cause)
    requires Inv(g) && ValidRun(g, ts) && t < |g.threads| && ResultInv(g.threads[t].pc, c)
    ensures t < |After(g, ts).threads| && ResultInv(After(g, ts).threads[t].pc, CauseAfter(g, ts, t, c))
    decreases |ts|
  {
    if ts != [] {
      StepKeepsInv(g, ts[0].0, ts[0].1);
      StepKeepsResult(g, ts[0].0, ts[0].1, t, c);
      RunKeepsResult(Apply(g, ts[0].0, ts[0].1), ts[1..], t, NextCause(g, ts[0].0, ts[0].1, t, c));
    }
  }

  /** In every run a call comes back with a timeout if and only if it was refused, having timeout zero while another
      thread was in the section and its request not complete, or its wait has expired; with success if and only if its
      request was complete or it was woken; and as the maker if and only if it has made progress. */
  lemma {:induction false} ResultsHaveCauses(n: nat, ts: seq<(nat, Step)>, t: nat)
    requires ValidRun(Init(n), ts) && t < n
    ensures t < |After(Init(n), ts).threads|
    ensures var pc, c := After(Init(n), ts).threads[t].pc, CauseAfter(Init(n), ts, t, Nothing);
      pc.Returned? ==>
        && (pc.value == TimedOut <==> c == Refused || c == Expired)
        && (pc.value == Ok <==> c == AlreadyDone || c == WasWoken)
        && (pc.value == Made <==> c == MadeProgress)
  {
    RunKeepsResult(Init(n), ts, t, Nothing);
  }

  /** A blocked call can come back by itself exactly if its timeout is not negative. */
  lemma {:induction false} TimedWaitsExpireIff(n: nat, ts: seq<(nat, Step)>, t: nat)
    requires ValidRun(Init(n), ts)
    requires t < |After(Init(n), ts).threads| && After(Init(n), ts).threads[t].pc.Blocked?
    ensures var g := After(Init(n), ts); Enabled(g, t, Expire) <==> g.threads[t].timeout >= 0
  {
    RunKeepsInv(Init(n), ts);
  }

  /** What thread `t` found when it last looked whether its request is complete, since its last call. */
  function Looked(ts: seq<(nat, Step)>, t: nat, before: bool): bool {
    if ts == [] then before
    else
      Looked(ts[1..], t, if ts[0].0 != t then before else
        match ts[0].1 case Call(_) => false case Check(complete) => complete case _ => before)
  }

  lemma {:induction false} RunKeepsLook(g: Gate, ts: seq<(nat, Step)>, t: nat, before: bool)
    requires ValidRun(g, ts) && t < |g.threads|
    requires var x := g.threads[t]; x.pc.Claiming? || x.pc.Claimed? || x.pc.Making? ==> x.done == before
    ensures t < |After(g, ts).threads|
    ensures var x := After(g, ts).threads[t];
      x.pc.Claiming? || x.pc.Claimed? || x.pc.Making? ==> x.done == Looked(ts, t, before)
    decreases |ts|
  {
    if ts != [] {
      var looked := if ts[0].0 != t then before else
        match ts[0].1 case Call(_) => false case Check(complete) => complete case _ => before;
      RunKeepsLook(Apply(g, ts[0].0, ts[0].1), ts[1..], t, looked);
    }
  }

  /** In every run the thread in the section can end it by itself exactly if its request was complete when it entered
      or its timeout is not negative. */
  lemma {:induction false} SectionEndsIff(n: nat, ts: seq<(nat, Step)>, t: nat)
    requires ValidRun(Init(n), ts) && t < n
    ensures t < |After(Init(n), ts).threads|
    ensures var g := After(Init(n), ts);
      g.threads[t].pc.Making? ==>
        (Enabled(g, t, EndProgress(false)) <==> Looked(ts, t, false) || g.threads[t].timeout >= 0)
  {
    RunKeepsLook(Init(n), ts, t, false);
  }

  // ----- every call comes back -----

  /** How far a thread is from coming back, in steps of its own and in being woken. */
  function Rank(pc: Pc): nat {
    match pc
    case Outside | Returned(_) => 0
    case Entering => 10
    case Checking => 9
    case Claiming => 8
    case Claimed => 7
    case Making => 6
    case Finishing => 5
    case Clearing => 4
    case Broadcasting => 3
    case Blocked => 3
    case Releasing => 2
    case Waking(_) => 2
    case Leaving(_) => 1
  }

  function Work(xs: seq<Thread>): nat {
    if xs == [] then 0 else Rank(xs[0].pc) + Work(xs[1..])
  }

  lemma {:induction false} WorkUpdate(xs: seq<Thread>, t: nat, x: Thread)
    requires t < |xs|
    ensures Work(xs[t := x]) == Work(xs) - Rank(xs[t].pc) + Rank(x.pc)
  {
    if t > 0 {
      assert xs[t := x][1..] == xs[1..][t - 1 := x];
      WorkUpdate(xs[1..], t - 1, x);
    }
  }

  lemma {:induction false} WorkWoken(xs: seq<Thread>, ys: seq<Thread>)
    requires |xs| == |ys| && forall i | 0 <= i < |xs| :: ys[i] == Woken(xs[i])
    ensures Work(ys) <= Work(xs)
  {
    if xs != [] {
      WorkWoken(xs[1..], ys[1..]);
    }
  }

  lemma BroadcastDoesWork(g: Gate, t: nat)
    requires Enabled(g, t, Broadcast)
    ensures Work(Apply(g, t, Broadcast).threads) < Work(g.threads)
  {
    var mid := seq(|g.threads|, i requires 0 <= i < |g.threads| => Woken(g.threads[i]));
    WorkWoken(g.threads, mid);
    WorkUpdate(mid, t, g.threads[t].(pc := Releasing));
  }

  lemma StepDoesWork(g: Gate, t: nat, s: Step)
    requires Enabled(g, t, s)
    ensures if s.Call? then Work(Apply(g, t, s).threads) == Work(g.threads) + 10
            else if s.Event? then Work(Apply(g, t, s).threads) == Work(g.threads)
            else Work(Apply(g, t, s).threads) < Work(g.threads)
  {
    if s.Broadcast? {
      BroadcastDoesWork(g, t);
    } else if !s.Event? {
      WorkUpdate(g.threads, t, Apply(g, t, s).threads[t]);
    }
  }

  function Calls(ts: seq<(nat, Step)>): nat {
    if ts == [] then 0 else (if ts[0].1.Call? then 1 else 0) + Calls(ts[1..])
  }

  function Events(ts: seq<(nat, Step)>): nat {
    if ts == [] then 0 else (if ts[0].1.Event? then 1 else 0) + Events(ts[1..])
  }

  /** The sections of a run that an event has ended. */
  function EndedByEvent(ts: seq<(nat, Step)>): nat {
    if ts == [] then 0 else (if ts[0].1 == EndProgress(true) then 1 else 0) + EndedByEvent(ts[1..])
  }

  /** Every event ends one section at most. */
  lemma {:induction false} EventsAreTaken(g: Gate, ts: seq<(nat, Step)>)
    requires ValidRun(g, ts)
    ensures After(g, ts).events + EndedByEvent(ts) == g.events + Events(ts)
    decreases |ts|
  {
    if ts != [] {
      EventsAreTaken(Apply(g, ts[0].0, ts[0].1), ts[1..]);
    }
  }

  /** A run takes at most ten steps for every call besides the calls and the events themselves. */
  lemma {:induction false} RunsAreBounded(g: Gate, ts: seq<(nat, Step)>)
    requires ValidRun(g, ts)
    ensures |ts| + Work(After(g, ts).threads) <= Work(g.threads) + 11 * Calls(ts) + Events(ts)
    decreases |ts|
  {
    if ts != [] {
      StepDoesWork(g, ts[0].0, ts[0].1);
      RunsAreBounded(Apply(g, ts[0].0, ts[0].1), ts[1..]);
    }
  }

  /** A thread takes this step by itself: nobody has to call, no event has to come, and no wait has to expire. */
  predicate OwnStep(s: Step) {
    !s.Call? && !s.Expire? && !s.WakeSpuriously? && !s.Event?
  }

  predicate Back(pc: Pc) {
    pc.Outside? || pc.Returned?
  }

  predicate Idle(g: Gate) {
    forall t | 0 <= t < |g.threads| :: Back(g.threads[t].pc)
  }

  /** The thread is in the progress section and stays there until an event comes. */
  predicate Polls(g: Gate, t: nat)
    requires t < |g.threads|
  {
    g.threads[t].pc.Making? && !g.threads[t].done && g.threads[t].timeout < 0 && g.events == 0
  }

  predicate NonePolls(g: Gate) {
    forall t | 0 <= t < |g.threads| :: !Polls(g, t)
  }

  /** As long as some call has not come back and nobody polls for an event, some thread can go on by itself. */
  lemma NoDeadlock(g: Gate) returns (t: nat, s: Step)
    requires Inv(g) && !Idle(g) && NonePolls(g)
    ensures Enabled(g, t, s) && OwnStep(s)
  {
    if g.lock.Some? {
      HolderGoesOn(g);
      t, s := g.lock.value, HolderStep(g, g.lock.value);
    } else {
      t :| 0 <= t < |g.threads| && !Back(g.threads[t].pc);
      if g.threads[t].pc.Blocked? {
        t :| 0 <= t < |g.threads| && Waker(g.threads[t].pc);
      }
      s := if g.threads[t].pc.Making? then EndProgress(g.events > 0) else Acquire;
      assert !Polls(g, t);
    }
  }

  /** What the thread that holds the lock does next. */
  function HolderStep(g: Gate, t: nat): Step
    requires t < |g.threads|
  {
    var pc := g.threads[t].pc;
    if pc.Checking? then Check(false) else if pc.Claiming? then SetFlag
    else if pc.Clearing? then ClearFlag else if pc.Broadcasting? then Broadcast else Release
  }

  ghost predicate Stuck(g: Gate) {
    forall t, s :: OwnStep(s) ==> !Enabled(g, t, s)
  }

  /** When no thread can go on by itself, a thread that polls for an event has all other calls blocked behind it. */
  lemma OthersAreBlocked(g: Gate, t: nat, u: nat)
    requires Inv(g) && Stuck(g) && t < |g.threads| && Polls(g, t) && u < |g.threads| && u != t
    ensures Back(g.threads[u].pc) || g.threads[u].pc.Blocked?
  {
    LockIsFree(g);
    assert !Enabled(g, u, Acquire);
  }

  lemma HolderGoesOn(g: Gate)
    requires LockInv(g) && g.lock.Some?
    ensures Enabled(g, g.lock.value, HolderStep(g, g.lock.value)) && OwnStep(HolderStep(g, g.lock.value))
  {
  }

  lemma LockIsFree(g: Gate)
    requires LockInv(g) && Stuck(g)
    ensures g.lock == None
  {
    if g.lock.Some? {
      HolderGoesOn(g);
    }
  }

  /** No wakeup is lost: when no thread can go on by itself, every call has come back if and only if no thread polls
      for an event without a timeout; and then all others that have not come back are blocked behind that one. */
  lemma {:induction false} EveryCallComesBackIff(n: nat, ts: seq<(nat, Step)>)
    requires ValidRun(Init(n), ts)
    ensures |ts| <= 11 * Calls(ts) + Events(ts)
    ensures var g := After(Init(n), ts); Stuck(g) ==>
      && (Idle(g) <==> NonePolls(g))
      && forall t, u | 0 <= t < |g.threads| && Polls(g, t) && 0 <= u < |g.threads| && u != t ::
           Back(g.threads[u].pc) || g.threads[u].pc.Blocked?
  {
    IdleHasNoWork(Init(n).threads);
    RunsAreBounded(Init(n), ts);
    RunKeepsInv(Init(n), ts);
    var g := After(Init(n), ts);
    if Stuck(g) {
      if !Idle(g) && NonePolls(g) {
        var t, s := NoDeadlock(g);
      }
      forall t, u | 0 <= t < |g.threads| && Polls(g, t) && 0 <= u < |g.threads| && u != t
        ensures Back(g.threads[u].pc) || g.threads[u].pc.Blocked?
      {
        OthersAreBlocked(g, t, u);
      }
    }
  }

  lemma RunCons(g: Gate, t: nat, s: Step, ts: seq<(nat, Step)>)
    requires Enabled(g, t, s) && ValidRun(Apply(g, t, s), ts)
    ensures ValidRun(g, [(t, s)] + ts) && After(g, [(t, s)] + ts) == After(Apply(g, t, s), ts)
  {
    assert ([(t, s)] + ts)[1..] == ts;
  }

  /** This comes about: one call without a timeout, whose request is not complete, while no event comes. */
  lemma PollingIsReachable() returns (ts: seq<(nat, Step)>)
    ensures ValidRun(Init(1), ts)
    ensures var g := After(Init(1), ts); |g.threads| == 1 && Polls(g, 0) && !Idle(g) && Stuck(g)
  {
    var a := Apply(Init(1), 0, Call(-1));
    var b := Apply(a, 0, Acquire);
    var c := Apply(b, 0, Check(false));
    var d := Apply(c, 0, SetFlag);
    RunCons(d, 0, Release, []);
    RunCons(c, 0, SetFlag, [(0, Release)] + []);
    RunCons(b, 0, Check(false), [(0, SetFlag)] + ([(0, Release)] + []));
    RunCons(a, 0, Acquire, [(0, Check(false))] + ([(0, SetFlag)] + ([(0, Release)] + [])));
    ts := [(0, Acquire)] + ([(0, Check(false))] + ([(0, SetFlag)] + ([(0, Release)] + [])));
    RunCons(Init(1), 0, Call(-1), ts);
    ts := [(0, Call(-1))] + ts;
  }

  lemma {:induction false} IdleHasNoWork(xs: seq<Thread>)
    requires forall x | x in xs :: x.pc.Outside?
    ensures Work(xs) == 0
  {
    if xs != [] {
      IdleHasNoWork(xs[1..]);
    }
  }
}
