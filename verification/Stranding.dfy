/** What a reset out of step does to messages for good: from any state in which it can happen a run goes on to
    a state in which nobody can go on and a message has not been seen. */
module Stranding {
  import opened Common
  import opened RequestRing
  import opened FlowControl
  import opened FlowSafety
  import opened ServedQueue
  import opened ServedProgress
  import opened ServedOrder
  import opened OutOfStep
  import opened LostOrder
  import opened SlotTally

  // ----- the tally of a run that stays in step -----

  lemma InStepGoesRound(cfg: Config, v: Served)
    requires ServedInv(cfg, v)
    ensures GoesRound(cfg, v)
  {
    if v.sys.busy != Free {
      assert SlotOf(cfg, v.sys, Done(v.sys)).state == Posted;
    }
    if v.phase.Waited? {
      assert v.sys.copied[Returned(v)].conn == SlotOf(cfg, v.sys, Returned(v)).from;
    }
  }

  lemma {:induction false} InStepTally(cfg: Config, v: Served, us: seq<UserStep>)
    requires ServedInv(cfg, v) && ValidServedRun(cfg, v, us) && StaysInStep(cfg, v, us)
    requires MeantForZero(cfg, v) == Turns(Handled(v.sys), cfg.reqCount)
    ensures var w := ServedAfter(cfg, v, us); MeantForZero(cfg, w) == Turns(Handled(w.sys), cfg.reqCount)
    decreases |us|
  {
    if us != [] {
      StepKeepsServed(cfg, v, us[0]);
      StepMatchesTurns(cfg, v, us[0]);
      InStepTally(cfg, UserApply(cfg, v, us[0]), us[1..]);
    }
  }

  lemma StepHandles(cfg: Config, v: Served, u: UserStep)
    requires ServedShape(cfg, v) && UserEnabled(cfg, v, u)
    ensures Handled(UserApply(cfg, v, u).sys) == Handled(v.sys) + if u == Protocol(HandleArrival) then 1 else 0
  {
    if u != Protocol(HandleArrival) {
      RenumberedStep(cfg, v, 0, u);
    }
  }

  lemma StepMatchesTurns(cfg: Config, v: Served, u: UserStep)
    requires ServedInv(cfg, v) && UserEnabled(cfg, v, u)
    requires MeantForZero(cfg, v) == Turns(Handled(v.sys), cfg.reqCount)
    ensures var w := UserApply(cfg, v, u); MeantForZero(cfg, w) == Turns(Handled(w.sys), cfg.reqCount)
  {
    InStepGoesRound(cfg, v);
    StepTally(cfg, v, u);
    StepHandles(cfg, v, u);
    NumberedNext(cfg, v);
  }

  // ----- everything under way is numbered -----

  /** What holds in every run. */
  ghost predicate Sound(cfg: Config, t: Tracked) {
    TrackedInv(cfg, t) && GoesRound(cfg, t.v) && Inv(cfg, t.v.sys)
  }

  lemma StepKeepsSound(cfg: Config, t: Tracked, u: UserStep)
    requires Sound(cfg, t) && UserEnabled(cfg, t.v, u)
    ensures Sound(cfg, Track(cfg, t, u))
  {
    StepKeepsTracked(cfg, t, u);
    StepGoesRound(cfg, t.v, u);
    UserStepKeepsInv(cfg, t.v, u);
  }

  /** After a reset to zero with `a` arrivals numbered before, the others are numbered from zero on. */
  predicate CountsOn(cfg: Config, v: Served, a: nat)
    requires ServedShape(cfg, v)
  {
    && Handled(v.sys) == a + v.sys.recv.reqIndex
    && MeantForZero(cfg, v) == Turns(a, cfg.reqCount) + Turns(v.sys.recv.reqIndex, cfg.reqCount)
  }

  ghost predicate Gathering(cfg: Config, t: Tracked, a: nat) {
    Sound(cfg, t) && CountsOn(cfg, t.v, a)
  }

  lemma IndexMoves(cfg: Config, s: System, x: Step)
    requires Shape(cfg, s) && Enabled(cfg, s, x) && !x.User?
    ensures Apply(cfg, s, x).recv.reqIndex == s.recv.reqIndex + if x.HandleArrival? then 1 else 0
  {
  }

  lemma StepCountsOn(cfg: Config, v: Served, a: nat, x: Step)
    requires GoesRound(cfg, v) && CountsOn(cfg, v, a) && Enabled(cfg, v.sys, x) && !x.User?
    ensures CountsOn(cfg, UserApply(cfg, v, Protocol(x)), a)
  {
    StepTally(cfg, v, Protocol(x));
    StepHandles(cfg, v, Protocol(x));
    IndexMoves(cfg, v.sys, x);
  }

  lemma GatherStep(cfg: Config, t: Tracked, a: nat, x: Step)
    requires Gathering(cfg, t, a) && Enabled(cfg, t.v.sys, x) && !x.User?
    ensures Gathering(cfg, Track(cfg, t, Protocol(x)), a)
  {
    StepKeepsSound(cfg, t, Protocol(x));
    StepCountsOn(cfg, t.v, a, x);
  }

  lemma GatherOne(cfg: Config, t0: Tracked, us: seq<UserStep>, t: Tracked, a: nat, x: Step)
    returns (us': seq<UserStep>, t': Tracked)
    requires Continues(cfg, t0, us, t) && Gathering(cfg, t, a) && Enabled(cfg, t.v.sys, x) && !x.User?
    ensures Continues(cfg, t0, us', t') && Gathering(cfg, t', a) && t'.v.sys == Apply(cfg, t.v.sys, x)
  {
    GatherStep(cfg, t, a, x);
    ContinueOne(cfg, t0, us, t, Protocol(x));
    us', t' := us + [Protocol(x)], Track(cfg, t, Protocol(x));
  }

  /** How far the messages under way on connections below `n` are from being numbered. */
  function ToCome(s: System, n: nat): nat {
    2 * OnWires(s.senders, n) + |s.arrivals|
  }

  lemma HandleBrings(cfg: Config, s: System, n: nat)
    requires Shape(cfg, s) && Enabled(cfg, s, HandleArrival)
    ensures var s' := Apply(cfg, s, HandleArrival); ToCome(s', n) == ToCome(s, n) - 1 && s'.senders == s.senders
  {
  }

  lemma DeliverBrings(cfg: Config, s: System, c: ConnId, n: nat)
    requires Shape(cfg, s) && Enabled(cfg, s, Deliver(c)) && c < n
    ensures var s' := Apply(cfg, s, Deliver(c));
      ToCome(s', n) == ToCome(s, n) - 1 && s'.senders.Keys == s.senders.Keys
  {
    OneWire(s.senders, c, s.senders[c].(wire := s.senders[c].wire[1..]), n);
  }

  /** Whatever is on a wire or in the event queue arrives and is numbered. */
  lemma {:induction false} GatherAll(cfg: Config, t0: Tracked, us: seq<UserStep>, t: Tracked, a: nat, n: nat)
    returns (us': seq<UserStep>, t': Tracked)
    requires Continues(cfg, t0, us, t) && Gathering(cfg, t, a) && forall c | c in t.v.sys.senders :: c < n
    ensures Continues(cfg, t0, us', t') && Gathering(cfg, t', a) && NothingComes(t'.v.sys)
    decreases ToCome(t.v.sys, n)
  {
    us', t' := us, t;
    if t.v.sys.arrivals != [] {
      HandleBrings(cfg, t.v.sys, n);
      us', t' := GatherOne(cfg, t0, us, t, a, HandleArrival);
      us', t' := GatherAll(cfg, t0, us', t', a, n);
    } else if c :| c in t.v.sys.senders && t.v.sys.senders[c].wire != [] {
      DeliverBrings(cfg, t.v.sys, c, n);
      us', t' := GatherOne(cfg, t0, us, t, a, Deliver(c));
      us', t' := GatherAll(cfg, t0, us', t', a, n);
    }
  }

  // ----- one message more, until the ring is full once more -----

  lemma NewSender(cfg: Config, s: System, c: ConnId)
    requires Shape(cfg, s) && NothingComes(s) && c !in s.senders
    ensures var s' := Connected(cfg, s, c);
      NothingComes(s') && s'.senders[c].pc == Idle && s'.recv.inbound[c].credits > 0
  {
  }

  lemma NewFetch(cfg: Config, s: System, c: ConnId)
    requires Shape(cfg, s) && NothingComes(s) && c in s.senders
    requires s.senders[c].pc == Idle && s.recv.inbound[c].credits > 0
    ensures var s' := CreditsFetched(cfg, s, c);
      NothingComes(s') && c in s'.senders && s'.senders[c].pc == Fetched(s'.recv.inbound[c].credits)
  {
  }

  lemma NewSwap(cfg: Config, s: System, c: ConnId)
    requires Shape(cfg, s) && NothingComes(s) && c in s.senders
    requires s.senders[c].pc == Fetched(s.recv.inbound[c].credits)
    ensures var s' := CreditsSwapped(cfg, s, c); NothingComes(s') && c in s'.senders && s'.senders[c].pc == Credited
  {
  }

  lemma NewPost(cfg: Config, s: System, c: ConnId)
    requires Shape(cfg, s) && NothingComes(s) && c in s.senders && s.senders[c].pc == Credited
    ensures var s' := MessagePosted(cfg, s, c, []);
      && s'.arrivals == [] && c in s'.senders && |s'.senders[c].wire| == 1
      && forall d | d in s'.senders && d != c :: s'.senders[d].wire == []
  {
  }

  lemma NewDeliver(cfg: Config, s: System, c: ConnId)
    requires Shape(cfg, s) && s.arrivals == [] && c in s.senders && |s.senders[c].wire| == 1
    requires forall d | d in s.senders && d != c :: s.senders[d].wire == []
    ensures var s' := PacketDelivered(cfg, s, c);
      |s'.arrivals| == 1 && forall d | d in s'.senders :: s'.senders[d].wire == []
  {
  }

  lemma GetCredit(cfg: Config, t0: Tracked, us: seq<UserStep>, t: Tracked, a: nat)
    returns (us': seq<UserStep>, t': Tracked, c: ConnId)
    requires Continues(cfg, t0, us, t) && Gathering(cfg, t, a) && NothingComes(t.v.sys)
    ensures Continues(cfg, t0, us', t') && Gathering(cfg, t', a) && NothingComes(t'.v.sys)
    ensures c in t'.v.sys.senders && t'.v.sys.senders[c].pc == Credited
    ensures t'.v.sys.recv.reqIndex == t.v.sys.recv.reqIndex
  {
    c := Fresh(t.v.sys.senders.Keys);
    NewSender(cfg, t.v.sys, c);
    us', t' := GatherOne(cfg, t0, us, t, a, Connect(c));
    NewFetch(cfg, t'.v.sys, c);
    us', t' := GatherOne(cfg, t0, us', t', a, Fetch(c));
    NewSwap(cfg, t'.v.sys, c);
    us', t' := GatherOne(cfg, t0, us', t', a, CompareSwap(c));
  }

  lemma HandleLast(cfg: Config, s: System)
    requires Shape(cfg, s) && |s.arrivals| == 1 && forall d | d in s.senders :: s.senders[d].wire == []
    ensures var s' := ArrivalHandled(cfg, s); NothingComes(s') && s'.recv.reqIndex == s.recv.reqIndex + 1
  {
  }

  lemma SendNew(cfg: Config, t0: Tracked, us: seq<UserStep>, t: Tracked, a: nat, c: ConnId)
    returns (us': seq<UserStep>, t': Tracked)
    requires Continues(cfg, t0, us, t) && Gathering(cfg, t, a) && NothingComes(t.v.sys)
    requires c in t.v.sys.senders && t.v.sys.senders[c].pc == Credited
    ensures Continues(cfg, t0, us', t') && Gathering(cfg, t', a) && |t'.v.sys.arrivals| == 1
    ensures forall d | d in t'.v.sys.senders :: t'.v.sys.senders[d].wire == []
    ensures t'.v.sys.recv.reqIndex == t.v.sys.recv.reqIndex
  {
    NewPost(cfg, t.v.sys, c);
    us', t' := GatherOne(cfg, t0, us, t, a, Post(c, []));
    NewDeliver(cfg, t'.v.sys, c);
    us', t' := GatherOne(cfg, t0, us', t', a, Deliver(c));
  }

  lemma SendAndHandle(cfg: Config, t0: Tracked, us: seq<UserStep>, t: Tracked, a: nat, c: ConnId)
    returns (us': seq<UserStep>, t': Tracked)
    requires Continues(cfg, t0, us, t) && Gathering(cfg, t, a) && NothingComes(t.v.sys)
    requires c in t.v.sys.senders && t.v.sys.senders[c].pc == Credited
    ensures Continues(cfg, t0, us', t') && Gathering(cfg, t', a) && NothingComes(t'.v.sys)
    ensures t'.v.sys.recv.reqIndex == t.v.sys.recv.reqIndex + 1
  {
    us', t' := SendNew(cfg, t0, us, t, a, c);
    HandleLast(cfg, t'.v.sys);
    us', t' := GatherOne(cfg, t0, us', t', a, HandleArrival);
  }

  lemma BringNew(cfg: Config, t0: Tracked, us: seq<UserStep>, t: Tracked, a: nat)
    returns (us': seq<UserStep>, t': Tracked)
    requires Continues(cfg, t0, us, t) && Gathering(cfg, t, a) && NothingComes(t.v.sys)
    ensures Continues(cfg, t0, us', t') && Gathering(cfg, t', a) && NothingComes(t'.v.sys)
    ensures Handled(t'.v.sys) == Handled(t.v.sys) + 1
  {
    var c;
    us', t', c := GetCredit(cfg, t0, us, t, a);
    us', t' := SendAndHandle(cfg, t0, us', t', a, c);
  }

  lemma {:induction false} BringMany(cfg: Config, t0: Tracked, us: seq<UserStep>, t: Tracked, a: nat, m: nat)
    returns (us': seq<UserStep>, t': Tracked)
    requires Continues(cfg, t0, us, t) && Gathering(cfg, t, a) && NothingComes(t.v.sys)
    ensures Continues(cfg, t0, us', t') && Gathering(cfg, t', a) && NothingComes(t'.v.sys)
    ensures Handled(t'.v.sys) == Handled(t.v.sys) + m
    decreases m
  {
    us', t' := us, t;
    if m > 0 {
      us', t' := BringNew(cfg, t0, us, t, a);
      us', t' := BringMany(cfg, t0, us', t', a, m - 1);
    }
  }

  /** The end of the round that `k` arrivals have begun. */
  lemma FullRound(k: nat, n: nat) returns (full: nat)
    requires n > 0
    ensures full >= k && full % n == 0
  {
    full := if k % n == 0 then k else k + (n - k % n);
    ModUnique(full, k / n + if k % n == 0 then 0 else 1, 0, n);
  }

  // ----- the receiver's side goes on as long as it can -----

  /** Nothing more comes, every further destroy is in step, and too much is meant for slot zero. */
  ghost predicate Lopsided(cfg: Config, t: Tracked) {
    && Sound(cfg, t) && NothingComes(t.v.sys) && Handled(t.v.sys) % cfg.reqCount == 0
    && MeantForZero(cfg, t.v) > Turns(Handled(t.v.sys), cfg.reqCount)
  }

  lemma GatheredIsLopsided(cfg: Config, t: Tracked, a: nat, k: nat)
    requires Gathering(cfg, t, a) && NothingComes(t.v.sys)
    requires a % cfg.reqCount != 0 && k == Handled(t.v.sys) && k % cfg.reqCount == 0
    ensures Lopsided(cfg, t)
  {
    OneTurnTooMany(a, t.v.sys.recv.reqIndex, cfg.reqCount);
  }

  lemma NothingStillComes(cfg: Config, v: Served, u: UserStep)
    requires ServedShape(cfg, v) && UserEnabled(cfg, v, u) && Service(u) && NothingComes(v.sys)
    ensures u != Protocol(HandleArrival) && (u.Protocol? ==> !u.t.Deliver?) && NothingComes(UserApply(cfg, v, u).sys)
  {
    OneStepLess(cfg, v, u);
    ArrivalsStay(cfg, v, u);
  }

  lemma FullRoundIsInStep(cfg: Config, v: Served)
    requires cfg.reqCount > 0 && Handled(v.sys) % cfg.reqCount == 0
    ensures InStep(cfg, v)
  {
  }

  lemma StaysLopsided(cfg: Config, t: Tracked, u: UserStep)
    requires Lopsided(cfg, t) && UserEnabled(cfg, t.v, u) && Service(u)
    ensures Lopsided(cfg, Track(cfg, t, u)) && (u.Destroy? ==> InStep(cfg, t.v))
  {
    FullRoundIsInStep(cfg, t.v);
    NothingStillComes(cfg, t.v, u);
    StepKeepsSound(cfg, t, u);
    StepTally(cfg, t.v, u);
    StepHandles(cfg, t.v, u);
  }

  /** In every run no more messages have been seen than copied. */
  lemma SeenIsCopied(cfg: Config, t: Tracked)
    requires TrackedInv(cfg, t)
    ensures |t.v.seen| <= |t.v.sys.copied|
  {
    DistinctBelow(t.order, |t.v.sys.copied|);
  }

  /** Neither the network nor the copying nor the user can go on. */
  ghost predicate Stuck(cfg: Config, v: Served)
    requires ServedShape(cfg, v)
  {
    forall u | Service(u) :: !UserEnabled(cfg, v, u)
  }

  lemma GoesOn(cfg: Config, t0: Tracked, us: seq<UserStep>, t: Tracked, u: UserStep)
    requires Continues(cfg, t0, us, t) && Lopsided(cfg, t) && Service(u) && UserEnabled(cfg, t.v, u)
    ensures Continues(cfg, t0, us + [u], Track(cfg, t, u)) && Lopsided(cfg, Track(cfg, t, u))
  {
    StaysLopsided(cfg, t, u);
    ContinueOne(cfg, t0, us, t, u);
  }

  lemma LopsidedTakesOne(cfg: Config, t: Tracked, u: UserStep)
    requires Lopsided(cfg, t) && Service(u) && UserEnabled(cfg, t.v, u)
    ensures 0 <= StepsLeft(t.v, 0) && StepsLeft(Track(cfg, t, u).v, 0) < StepsLeft(t.v, 0)
  {
    SeenIsCopied(cfg, t);
    NothingStillComes(cfg, t.v, u);
    OneStepLess(cfg, t.v, u);
  }

  lemma {:induction false} GoOn(cfg: Config, t0: Tracked, us: seq<UserStep>, t: Tracked)
    returns (us': seq<UserStep>, t': Tracked)
    requires Continues(cfg, t0, us, t) && Lopsided(cfg, t)
    ensures Continues(cfg, t0, us', t') && Lopsided(cfg, t')
    ensures Stuck(cfg, t'.v)
    decreases StepsLeft(t.v, 0)
  {
    us', t' := us, t;
    if u :| Service(u) && UserEnabled(cfg, t.v, u) {
      GoesOn(cfg, t0, us, t, u);
      LopsidedTakesOne(cfg, t, u);
      us', t' := GoOn(cfg, t0, us + [u], Track(cfg, t, u));
    }
  }

  // ----- and has not seen everything -----

  lemma ZeroIsUnseen(cfg: Config, t: Tracked)
    requires TrackedInv(cfg, t) && ZeroTaken(t.v.sys)
    ensures |t.v.seen| < |t.v.sys.copied|
  {
    assert SlotTracked(cfg, t, 0);
    DistinctBelow(t.order + [t.filled[0]], |t.v.sys.copied|);
  }

  lemma LopsidedIsUnseen(cfg: Config, t: Tracked)
    requires Lopsided(cfg, t)
    ensures |t.v.seen| < Handled(t.v.sys)
  {
    SeenIsCopied(cfg, t);
    TurnsGrow(|t.v.seen|, Handled(t.v.sys), cfg.reqCount);
    if t.v.sys.recv.backlog == [] {
      ZeroIsUnseen(cfg, t);
    }
  }

  function Senders<T>(xs: seq<Tagged<T>>): seq<Tagged<()>> {
    seq(|xs|, i requires 0 <= i < |xs| => Tagged(xs[i].conn, ()))
  }

  lemma {:induction false} SendersOf<T>(c: ConnId, xs: seq<Tagged<T>>)
    ensures |Of(c, Senders(xs))| == |Of(c, xs)|
  {
    if xs != [] {
      assert Senders(xs)[1..] == Senders(xs[1..]);
      SendersOf(c, xs[1..]);
    }
  }

  lemma {:induction false} FindOne<T>(c: ConnId, xs: seq<Tagged<T>>) returns (i: nat)
    requires Of(c, xs) != []
    ensures i < |xs| && xs[i].conn == c
  {
    if xs[0].conn == c {
      i := 0;
    } else {
      i := FindOne(c, xs[1..]);
      i := i + 1;
    }
  }

  lemma WithoutOne<T>(c: ConnId, xs: seq<Tagged<T>>, i: nat)
    requires i < |xs|
    ensures |Of(c, xs)| == |Of(c, xs[..i] + xs[i + 1..])| + if xs[i].conn == c then 1 else 0
  {
    assert xs == xs[..i] + ([xs[i]] + xs[i + 1..]);
    OfConcat(c, xs[..i], [xs[i]] + xs[i + 1..]);
    OfConcat(c, [xs[i]], xs[i + 1..]);
    OfConcat(c, xs[..i], xs[i + 1..]);
  }

  /** As many of every sender are as many in all. */
  lemma {:induction false} AsManyInAll<S, T>(xs: seq<Tagged<S>>, ys: seq<Tagged<T>>)
    requires forall c: ConnId :: |Of(c, xs)| >= |Of(c, ys)|
    ensures |xs| >= |ys|
    decreases |ys|
  {
    if ys != [] {
      var i := FindOne(ys[0].conn, xs);
      forall c: ConnId
        ensures |Of(c, xs[..i] + xs[i + 1..])| >= |Of(c, ys[1..])|
      {
        WithoutOne(c, xs, i);
        FrontOf(c, ys);
      }
      AsManyInAll(xs[..i] + xs[i + 1..], ys[1..]);
    }
  }

  lemma PostedIsHandled(cfg: Config, v: Served, c: ConnId)
    requires Inv(cfg, v.sys) && AllSeen(v)
    ensures |Of(c, v.seen)| >= |Of(c, Senders(v.sys.copied) + Senders(v.sys.recv.backlog))|
  {
    OfConcat(c, Senders(v.sys.copied), Senders(v.sys.recv.backlog));
    SendersOf(c, v.sys.copied);
    SendersOf(c, v.sys.recv.backlog);
    if c in v.sys.senders {
      assert InvAt(cfg, v.sys, c);
    } else {
      OfAbsent(c, v.sys.copied);
      OfAbsent(c, v.sys.recv.backlog);
    }
  }

  lemma AllSeenIsHandled(cfg: Config, v: Served)
    requires Inv(cfg, v.sys) && AllSeen(v)
    ensures |v.seen| >= Handled(v.sys)
  {
    var all := Senders(v.sys.copied) + Senders(v.sys.recv.backlog);
    forall c: ConnId
      ensures |Of(c, v.seen)| >= |Of(c, all)|
    {
      PostedIsHandled(cfg, v, c);
    }
    AsManyInAll(v.seen, all);
  }

  // ----- exactly a reset out of step strands messages -----

  /** In no run that goes on from `v`, and resets nothing out of step itself, does it come to a state in which
      nobody can go on, even if the backlog is executed whenever it can be, and some message has not been seen. */
  ghost predicate StrandsNone(cfg: Config, v: Served)
    requires ServedShape(cfg, v)
  {
    forall us: seq<UserStep> {:trigger ServedAfter(cfg, v, us)} |
      ValidServedRun(cfg, v, us) && StaysInStep(cfg, v, us) && Stuck(cfg, ServedAfter(cfg, v, us)) ::
        AllSeen(ServedAfter(cfg, v, us))
  }

  lemma InStepStrandsNone(cfg: Config, v: Served)
    requires ServedInv(cfg, v) && Inv(cfg, v.sys)
    ensures StrandsNone(cfg, v)
  {
    forall us: seq<UserStep> |
      ValidServedRun(cfg, v, us) && StaysInStep(cfg, v, us) && Stuck(cfg, ServedAfter(cfg, v, us))
      ensures AllSeen(ServedAfter(cfg, v, us))
    {
      var w := ServedAfter(cfg, v, us);
      ServedRunKeeps(cfg, v, us);
      forall c | c in w.sys.senders
        ensures Of(c, w.seen) == w.sys.senders[c].posted
      {
        if Of(c, w.seen) != w.sys.senders[c].posted {
          var u := CanGoOn(cfg, w, c);
        }
      }
    }
  }

  lemma GatherFirst(cfg: Config, t: Tracked, a: nat) returns (us: seq<UserStep>, t': Tracked)
    requires Gathering(cfg, t, a)
    ensures Continues(cfg, t, us, t') && Gathering(cfg, t', a) && NothingComes(t'.v.sys)
  {
    var n := Fresh(t.v.sys.senders.Keys);
    us, t' := GatherAll(cfg, t, [], t, a, n);
  }

  lemma FillRounds(cfg: Config, t: Tracked, a: nat) returns (us: seq<UserStep>, t': Tracked)
    requires Gathering(cfg, t, a) && a % cfg.reqCount != 0
    ensures Continues(cfg, t, us, t') && Lopsided(cfg, t')
  {
    us, t' := GatherFirst(cfg, t, a);
    var full := FullRound(Handled(t'.v.sys), cfg.reqCount);
    us, t' := BringMany(cfg, t, us, t', a, full - Handled(t'.v.sys));
    GatheredIsLopsided(cfg, t', a, full);
  }

  lemma LopsidedIsNotAllSeen(cfg: Config, t: Tracked)
    requires Lopsided(cfg, t)
    ensures !AllSeen(t.v)
  {
    LopsidedIsUnseen(cfg, t);
    if AllSeen(t.v) {
      AllSeenIsHandled(cfg, t.v);
    }
  }

  /** From a reset out of step, whatever is under way: everything is numbered, with some messages more that fill
      the last round, and when nobody can go on one of them has not been seen. */
  lemma OutOfStepStrands(cfg: Config, t: Tracked) returns (us: seq<UserStep>, t': Tracked)
    requires Gathering(cfg, t, Handled(t.v.sys)) && Handled(t.v.sys) % cfg.reqCount != 0
    ensures Continues(cfg, t, us, t') && Stuck(cfg, t'.v) && !AllSeen(t'.v)
  {
    us, t' := FillRounds(cfg, t, Handled(t.v.sys));
    us, t' := GoOn(cfg, t, us, t');
    LopsidedIsNotAllSeen(cfg, t');
  }

  lemma LeadsTally(cfg: Config, us: seq<UserStep>, t: Tracked)
    requires Leads(cfg, us, t)
    ensures MeantForZero(cfg, t.v) == Turns(Handled(t.v.sys), cfg.reqCount)
  {
    ServedInitInv(cfg);
    InStepTally(cfg, ServedInit(cfg), us);
  }

  lemma LeadsSound(cfg: Config, us: seq<UserStep>, t: Tracked)
    requires Leads(cfg, us, t)
    ensures Sound(cfg, t)
  {
    ReachedInv(cfg, us, t.v);
    InStepGoesRound(cfg, t.v);
    TrackInitInv(cfg);
    RunKeepsTracked(cfg, TrackInit(cfg), us);
  }

  lemma ResetGathers(cfg: Config, us: seq<UserStep>, t: Tracked)
    requires Leads(cfg, us, t) && t.v.phase.Waited? && !InStep(cfg, t.v)
    ensures var t' := Track(cfg, t, Destroy);
      Gathering(cfg, t', Handled(t'.v.sys)) && Handled(t'.v.sys) % cfg.reqCount != 0
  {
    LeadsSound(cfg, us, t);
    LeadsTally(cfg, us, t);
    LeadsSettled(cfg, us, t);
    OutOfStepIsServing(cfg, t);
    StepKeepsSound(cfg, t, Destroy);
    StepTally(cfg, t.v, Destroy);
    StepHandles(cfg, t.v, Destroy);
  }

  /** After any run that stays in step, giving a request back strands no message in any run that goes on from
      there, whatever is under way, if and only if the destroy finds the numbering in step. */
  lemma StrandsNoneIff(cfg: Config, us: seq<UserStep>, t: Tracked)
    requires Leads(cfg, us, t) && t.v.phase.Waited?
    ensures StrandsNone(cfg, UserApply(cfg, t.v, Destroy)) <==> InStep(cfg, t.v)
  {
    var t' := Track(cfg, t, Destroy);
    ReachedInv(cfg, us, t.v);
    if InStep(cfg, t.v) {
      StepKeepsServed(cfg, t.v, Destroy);
      UserStepKeepsInv(cfg, t.v, Destroy);
      InStepStrandsNone(cfg, t'.v);
    } else {
      ResetGathers(cfg, us, t);
      var more, w := OutOfStepStrands(cfg, t');
      TrackingIsServing(cfg, t', more);
      assert !AllSeen(ServedAfter(cfg, t'.v, more));
    }
  }
}
