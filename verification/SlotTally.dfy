/** How many messages are meant for slot zero, in every run of the served queue: nothing but the numbering of
    arrivals adds to them, and nothing but the user's turns takes from them. */
module SlotTally {
  import opened Common
  import opened RequestRing
  import opened FlowControl
  import opened ServedQueue
  import opened SlotSafety

  // ----- the user goes round the ring -----

  /** Where the user and the ring stand in every run, in step or not. */
  ghost predicate GoesRound(cfg: Config, v: Served) {
    && cfg.reqCount >= 2 && ServedShape(cfg, v) && UserAtFront(cfg, v) && CopyIsApart(cfg, v.sys)
    && (v.phase.Waited? ==> v.sys.recv.slots[v.phase.index].state == WaitComplete)
  }

  lemma CreateGoesRound(cfg: Config, v: Served)
    requires GoesRound(cfg, v) && UserEnabled(cfg, v, Create)
    ensures GoesRound(cfg, UserApply(cfg, v, Create))
  {
    ModSuccessor(Returned(v), cfg.reqCount);
    assert Gap(v.tail, v.head, cfg.reqCount) == 0;
  }

  lemma DestroyGoesRound(cfg: Config, v: Served)
    requires GoesRound(cfg, v) && UserEnabled(cfg, v, Destroy)
    ensures GoesRound(cfg, UserApply(cfg, v, Destroy))
  {
    var n := cfg.reqCount;
    ModSuccessor(Returned(v), n);
    assert Gap(v.tail, v.head, n) == 1;
    assert RunEnd(States(cfg, v), v.tail, 0, 1) == 1;
  }

  lemma ProtocolGoesRound(cfg: Config, v: Served, t: Step)
    requires GoesRound(cfg, v) && !t.User? && Enabled(cfg, v.sys, t)
    ensures GoesRound(cfg, v.(sys := Apply(cfg, v.sys, t)))
  {
    StepKeepsApart(cfg, v.sys, t);
    if v.phase.Waited? {
      FullSlotIsKept(cfg, v.sys, t, v.phase.index);
    }
  }

  lemma StepGoesRound(cfg: Config, v: Served, u: UserStep)
    requires GoesRound(cfg, v) && UserEnabled(cfg, v, u)
    ensures GoesRound(cfg, UserApply(cfg, v, u))
  {
    match u
    case Protocol(t) => ProtocolGoesRound(cfg, v, t);
    case Create => CreateGoesRound(cfg, v);
    case Wait =>
    case Destroy => DestroyGoesRound(cfg, v);
  }

  // ----- counting by slot zero -----

  /** How many of the first `k` counters name slot zero of `n`. */
  function Turns(k: nat, n: nat): nat
    requires n > 0
  {
    if k == 0 then 0 else Turns(k - 1, n) + if (k - 1) % n == 0 then 1 else 0
  }

  lemma {:induction false} TurnsAre(k: nat, n: nat)
    requires n > 0
    ensures Turns(k, n) == k / n + if k % n == 0 then 0 else 1
  {
    if k > 0 {
      TurnsAre(k - 1, n);
      DivSuccessor(k - 1, n);
    }
  }

  lemma DivUnique(a: nat, q: int, r: int, m: nat)
    requires m > 0 && a == q * m + r && 0 <= r < m
    ensures a / m == q && a % m == r
  {
    ModUnique(a, q, r, m);
    var d := a / m - q;
    assert d * m == 0 by {
      assert a == a / m * m + r;
      assert d * m == a / m * m - q * m;
    }
    MultipleBounds(d, m);
  }

  lemma DivSuccessor(a: nat, m: nat)
    requires m > 0
    ensures (a + 1) / m == if a % m + 1 == m then a / m + 1 else a / m
    ensures (a + 1) % m == if a % m + 1 == m then 0 else a % m + 1
  {
    var q := a / m;
    assert a == q * m + a % m;
    if a % m + 1 == m {
      assert (q + 1) * m == q * m + m;
      DivUnique(a + 1, q + 1, 0, m);
    } else {
      DivUnique(a + 1, q, a % m + 1, m);
    }
  }

  lemma {:induction false} TurnsGrow(j: nat, k: nat, n: nat)
    requires n > 0 && j <= k
    ensures Turns(j, n) <= Turns(k, n)
  {
    if j < k {
      TurnsGrow(j, k - 1, n);
    }
  }

  lemma OneMultiple(d: int, n: nat, s: int)
    requires d * n == s && 0 < s < 2 * n
    ensures d == 1 && s == n
  {
    MultipleBounds(d, n);
    assert (d - 1) * n == s - n;
    MultipleBounds(d - 1, n);
  }

  lemma RemaindersAddUp(a: nat, b: nat, n: nat)
    requires n > 0 && a % n != 0 && (a + b) % n == 0
    ensures b % n != 0 && (a + b) / n == a / n + b / n + 1
  {
    var p, q, r := a / n, b / n, (a + b) / n;
    assert a == p * n + a % n && b == q * n + b % n && a + b == r * n;
    assert (r - p - q) * n == r * n - p * n - q * n;
    OneMultiple(r - p - q, n, a % n + b % n);
  }

  /** Counting on from zero in the middle of a round gives slot zero one turn too many by the end of it. */
  lemma OneTurnTooMany(a: nat, b: nat, n: nat)
    requires n > 0 && a % n != 0 && (a + b) % n == 0
    ensures Turns(a, n) + Turns(b, n) == Turns(a + b, n) + 1
  {
    TurnsAre(a, n);
    TurnsAre(b, n);
    TurnsAre(a + b, n);
    RemaindersAddUp(a, b, n);
  }

  /** The waiting arrivals numbered for slot zero. */
  function ForZero(backlog: seq<Tagged<Waiting>>): nat {
    if backlog == [] then 0 else (if backlog[0].item.queueIndex == 0 then 1 else 0) + ForZero(backlog[1..])
  }

  lemma {:induction false} ForZeroAppend(backlog: seq<Tagged<Waiting>>, e: Tagged<Waiting>)
    ensures ForZero(backlog + [e]) == ForZero(backlog) + if e.item.queueIndex == 0 then 1 else 0
  {
    if backlog == [] {
      assert backlog + [e] == [e] && [e][1..] == [];
    } else {
      ConcatTail(backlog, [e]);
      ForZeroAppend(backlog[1..], e);
    }
  }

  /** Slot zero holds a copy that has not been seen, or is being copied into. */
  predicate ZeroTaken(s: System)
    requires |s.recv.slots| > 0
  {
    s.recv.slots[0].state == RdmaComplete || (s.busy != Free && s.busy.index == 0)
  }

  /** The messages ever meant for slot zero: the user has been there once in a round, and the rest is to come. */
  function MeantForZero(cfg: Config, v: Served): nat
    requires cfg.reqCount > 0 && |v.sys.recv.slots| > 0
  {
    Turns(|v.seen|, cfg.reqCount) + ForZero(v.sys.recv.backlog) + if ZeroTaken(v.sys) then 1 else 0
  }

  lemma ArrivalTally(cfg: Config, v: Served)
    requires GoesRound(cfg, v) && UserEnabled(cfg, v, Protocol(HandleArrival))
    ensures MeantForZero(cfg, UserApply(cfg, v, Protocol(HandleArrival))) ==
            MeantForZero(cfg, v) + if v.sys.recv.reqIndex % cfg.reqCount == 0 then 1 else 0
  {
    var r := v.sys.recv;
    var c := v.sys.arrivals[0].conn;
    assert v.sys.arrivals[0] in v.sys.arrivals;
    ForZeroAppend(r.backlog, Tagged(c, Waiting(r.reqIndex % cfg.reqCount, r.inbound[c].reqsReceived % cfg.maxCredits)));
  }

  lemma CopyTally(cfg: Config, v: Served)
    requires GoesRound(cfg, v) && UserEnabled(cfg, v, Protocol(CopyFront))
    ensures MeantForZero(cfg, UserApply(cfg, v, Protocol(CopyFront))) == MeantForZero(cfg, v)
  {
    assert v.sys.recv.backlog[0] in v.sys.recv.backlog;
  }

  lemma OtherProtocolTally(cfg: Config, v: Served, t: Step)
    requires GoesRound(cfg, v) && Enabled(cfg, v.sys, t) && !t.User? && !t.HandleArrival? && !t.CopyFront?
    ensures MeantForZero(cfg, v.(sys := Apply(cfg, v.sys, t))) == MeantForZero(cfg, v)
  {
    if !t.FinishCopy? {
      QuietStep(cfg, v.sys, t);
    }
  }

  lemma WaitTally(cfg: Config, v: Served)
    requires GoesRound(cfg, v) && UserEnabled(cfg, v, Wait)
    ensures MeantForZero(cfg, UserApply(cfg, v, Wait)) == MeantForZero(cfg, v)
  {
  }

  lemma DestroyTally(cfg: Config, v: Served)
    requires GoesRound(cfg, v) && UserEnabled(cfg, v, Destroy)
    ensures MeantForZero(cfg, UserApply(cfg, v, Destroy)) == MeantForZero(cfg, v)
  {
  }

  /** In every run only an arrival adds to what is meant for slot zero, and only if it is numbered for it. */
  lemma StepTally(cfg: Config, v: Served, u: UserStep)
    requires GoesRound(cfg, v) && UserEnabled(cfg, v, u)
    ensures MeantForZero(cfg, UserApply(cfg, v, u)) == MeantForZero(cfg, v) +
            if u == Protocol(HandleArrival) && v.sys.recv.reqIndex % cfg.reqCount == 0 then 1 else 0
  {
    match u
    case Protocol(t) =>
      if t.HandleArrival? {
        ArrivalTally(cfg, v);
      } else if t.CopyFront? {
        CopyTally(cfg, v);
      } else {
        OtherProtocolTally(cfg, v, t);
      }
    case Create =>
    case Wait => WaitTally(cfg, v);
    case Destroy => DestroyTally(cfg, v);
  }
}
