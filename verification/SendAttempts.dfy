/** One attempt to take a credit and post, with whatever the other senders, the network, the receiver and
    its user do between its atomic operations. */
module SendAttempts {
  import opened Common
  import opened FlowControl
  import opened FlowSafety

  /** A step that is not one of the sender of `c`. */
  predicate NotBy(c: ConnId, t: Step) {
    match t
    case Fetch(x) => x != c
    case CompareSwap(x) => x != c
    case Post(x, _) => x != c
    case _ => true
  }

  predicate NoneBy(c: ConnId, ts: seq<Step>) {
    forall t | t in ts :: NotBy(c, t)
  }

  /** How many credits the receiver gives back on `c` in the course of a run. */
  function ReturnsTo(cfg: Config, s: System, ts: seq<Step>, c: ConnId): nat
    requires Shape(cfg, s) && ValidRun(cfg, s, ts)
    decreases |ts|
  {
    if ts == [] then 0
    else
      (if ts[0].SendBackCredit? && s.busy.conn == c then 1 else 0) + ReturnsTo(cfg, Apply(cfg, s, ts[0]), ts[1..], c)
  }

  lemma {:induction false} SplitRun(cfg: Config, s: System, xs: seq<Step>, ys: seq<Step>, c: ConnId)
    requires Shape(cfg, s) && ValidRun(cfg, s, xs + ys)
    ensures ValidRun(cfg, s, xs) && ValidRun(cfg, After(cfg, s, xs), ys)
    ensures After(cfg, s, xs + ys) == After(cfg, After(cfg, s, xs), ys)
    ensures ReturnsTo(cfg, s, xs + ys, c) == ReturnsTo(cfg, s, xs, c) + ReturnsTo(cfg, After(cfg, s, xs), ys, c)
    decreases |xs|
  {
    if xs == [] {
      assert xs + ys == ys;
    } else {
      assert (xs + ys)[0] == xs[0] && (xs + ys)[1..] == xs[1..] + ys;
      SplitRun(cfg, Apply(cfg, s, xs[0]), xs[1..], ys, c);
    }
  }

  /** `s'` differs from `s`, as far as the sender of `c` can tell, by `returned` credits more. */
  predicate Waited(s: System, s': System, c: ConnId, returned: nat) {
    && c in s.senders && c in s'.senders && c in s.recv.inbound && c in s'.recv.inbound
    && s'.senders[c] == s.senders[c].(wire := s'.senders[c].wire)
    && s'.recv.inbound[c].credits == s.recv.inbound[c].credits + returned
  }

  lemma OtherStep(cfg: Config, s: System, t: Step, c: ConnId)
    requires Shape(cfg, s) && Enabled(cfg, s, t) && c in s.senders && NotBy(c, t)
    ensures Waited(s, Apply(cfg, s, t), c, if t.SendBackCredit? && s.busy.conn == c then 1 else 0)
  {
  }

  lemma {:induction false} Interlude(cfg: Config, s: System, ts: seq<Step>, c: ConnId)
    requires Shape(cfg, s) && ValidRun(cfg, s, ts) && c in s.senders && NoneBy(c, ts)
    ensures Waited(s, After(cfg, s, ts), c, ReturnsTo(cfg, s, ts, c))
    decreases |ts|
  {
    if ts != [] {
      OtherStep(cfg, s, ts[0], c);
      Interlude(cfg, Apply(cfg, s, ts[0]), ts[1..], c);
    }
  }

  /** One round of an attempt: what the others do before the fetch, and between the fetch and the swap. */
  datatype Round = Round(before: seq<Step>, between: seq<Step>)

  function RoundSteps(c: ConnId, r: Round): seq<Step> {
    r.before + ([Fetch(c)] + (r.between + [CompareSwap(c)]))
  }

  function Attempt(c: ConnId, rs: seq<Round>): seq<Step> {
    if rs == [] then [] else RoundSteps(c, rs[0]) + Attempt(c, rs[1..])
  }

  predicate OthersOnly(c: ConnId, rs: seq<Round>) {
    forall r | r in rs :: NoneBy(c, r.before) && NoneBy(c, r.between)
  }

  function CreditsAt(s: System, c: ConnId): int {
    if c in s.recv.inbound then s.recv.inbound[c].credits else 0
  }

  /** What rounds that have begun in `s` have come to in `s'`: every credit returned is there, less the one
      taken, and nothing has been posted. */
  predicate CameTo(s: System, s': System, c: ConnId, returned: nat) {
    && c in s.senders && c in s'.senders
    && (s'.senders[c].pc == Idle || s'.senders[c].pc == Credited)
    && s'.senders[c] == s.senders[c].(pc := s'.senders[c].pc, wire := s'.senders[c].wire)
    && CreditsAt(s', c) == CreditsAt(s, c) + returned - if s'.senders[c].pc == Credited then 1 else 0
  }

  lemma OneStep(cfg: Config, s: System, t: Step, ts: seq<Step>, c: ConnId)
    requires Shape(cfg, s) && ValidRun(cfg, s, [t] + ts) && !t.SendBackCredit?
    ensures Enabled(cfg, s, t) && ValidRun(cfg, Apply(cfg, s, t), ts)
    ensures After(cfg, s, [t] + ts) == After(cfg, Apply(cfg, s, t), ts)
    ensures ReturnsTo(cfg, s, [t] + ts, c) == ReturnsTo(cfg, Apply(cfg, s, t), ts, c)
  {
    assert ([t] + ts)[1..] == ts;
  }

  lemma SwapOutcome(cfg: Config, s: System, between: seq<Step>, c: ConnId)
    requires Shape(cfg, s) && c in s.senders && s.senders[c].pc.Fetched? && NoneBy(c, between)
    requires s.senders[c].pc.seen == s.recv.inbound[c].credits
    requires ValidRun(cfg, s, between + [CompareSwap(c)])
    ensures ValidRun(cfg, s, between)
    ensures var ts := between + [CompareSwap(c)];
      var s', returned := After(cfg, s, ts), ReturnsTo(cfg, s, ts, c);
      && CameTo(s, s', c, returned)
      && (s'.senders[c].pc == Credited <==> returned == 0) && returned == ReturnsTo(cfg, s, between, c)
  {
    SplitRun(cfg, s, between, [CompareSwap(c)], c);
    Interlude(cfg, s, between, c);
    assert [CompareSwap(c)] + [] == [CompareSwap(c)];
    OneStep(cfg, After(cfg, s, between), CompareSwap(c), [], c);
  }

  /** A run that gets as far as the swap has left the fetch with a credit in sight. */
  lemma SwapNeedsCredit(cfg: Config, s: System, between: seq<Step>, c: ConnId)
    requires Shape(cfg, s) && c in s.senders && NoneBy(c, between)
    requires ValidRun(cfg, s, between + [CompareSwap(c)])
    ensures s.senders[c].pc.Fetched?
  {
    SplitRun(cfg, s, between, [CompareSwap(c)], c);
    Interlude(cfg, s, between, c);
    assert [CompareSwap(c)] + [] == [CompareSwap(c)];
    OneStep(cfg, After(cfg, s, between), CompareSwap(c), [], c);
  }

  /** The rest of a round, from its fetch on. */
  lemma FetchOutcome(cfg: Config, s: System, between: seq<Step>, c: ConnId)
    requires Shape(cfg, s) && c in s.senders && s.senders[c].pc == Idle && NoneBy(c, between)
    requires ValidRun(cfg, s, [Fetch(c)] + (between + [CompareSwap(c)]))
    ensures var ts := [Fetch(c)] + (between + [CompareSwap(c)]);
      var s', returned := After(cfg, s, ts), ReturnsTo(cfg, s, ts, c);
      && CameTo(s, s', c, returned) && CreditsAt(s, c) > 0
      && (s'.senders[c].pc == Idle ==> CreditsAt(s', c) > CreditsAt(s, c))
  {
    OneStep(cfg, s, Fetch(c), between + [CompareSwap(c)], c);
    var s1 := Apply(cfg, s, Fetch(c));
    SwapNeedsCredit(cfg, s1, between, c);
    SwapOutcome(cfg, s1, between, c);
  }

  /** The state in which the fetch of a round finds the counter. */
  function AtFetch(cfg: Config, s: System, r: Round): System
    requires Shape(cfg, s) && ValidRun(cfg, s, r.before)
  {
    After(cfg, s, r.before)
  }

  /** A round that gets as far as its swap has found a credit.  It takes one exactly if none came back between
      the fetch and the swap; otherwise the sender is where it was. */
  lemma RoundOutcome(cfg: Config, s: System, r: Round, c: ConnId)
    requires Shape(cfg, s) && c in s.senders && s.senders[c].pc == Idle && OthersOnly(c, [r])
    requires ValidRun(cfg, s, RoundSteps(c, r))
    ensures var s', returned := After(cfg, s, RoundSteps(c, r)), ReturnsTo(cfg, s, RoundSteps(c, r), c);
      && CameTo(s, s', c, returned)
      && ValidRun(cfg, s, r.before) && CreditsAt(s, c) <= CreditsAt(AtFetch(cfg, s, r), c)
      && CreditsAt(AtFetch(cfg, s, r), c) > 0
      && (s'.senders[c].pc == Idle ==> CreditsAt(s', c) > CreditsAt(AtFetch(cfg, s, r), c))
  {
    assert r in [r];
    var rest := r.between + [CompareSwap(c)];
    SplitRun(cfg, s, r.before, [Fetch(c)] + rest, c);
    Interlude(cfg, s, r.before, c);
    FetchOutcome(cfg, After(cfg, s, r.before), r.between, c);
  }

  lemma OthersOnlyTail(c: ConnId, rs: seq<Round>)
    requires OthersOnly(c, rs) && rs != []
    ensures OthersOnly(c, [rs[0]]) && OthersOnly(c, rs[1..])
  {
    assert rs[0] in rs;
    forall r | r in rs[1..]
      ensures NoneBy(c, r.before) && NoneBy(c, r.between)
    {
      assert r in rs;
    }
  }

  function Max(a: int, b: int): int {
    if a < b then b else a
  }

  /** After its swap has succeeded the sender does not fetch again. */
  lemma NoRoundWhenCredited(cfg: Config, s: System, rs: seq<Round>, c: ConnId)
    requires Shape(cfg, s) && c in s.senders && s.senders[c].pc == Credited && OthersOnly(c, rs)
    requires ValidRun(cfg, s, Attempt(c, rs))
    ensures rs == []
  {
    if rs != [] {
      OthersOnlyTail(c, rs);
      var rest := rs[0].between + [CompareSwap(c)];
      SplitRun(cfg, s, RoundSteps(c, rs[0]), Attempt(c, rs[1..]), c);
      SplitRun(cfg, s, rs[0].before, [Fetch(c)] + rest, c);
      assert rs[0] in [rs[0]];
      Interlude(cfg, s, rs[0].before, c);
      OneStep(cfg, After(cfg, s, rs[0].before), Fetch(c), rest, c);
    }
  }

  lemma CreditsInRange(cfg: Config, s: System, c: ConnId)
    requires Inv(cfg, s) && c in s.senders
    ensures 0 <= CreditsAt(s, c) <= cfg.maxCredits && cfg.maxCredits > 0
  {
    assert InvAt(cfg, s, c);
  }

  /** A first round in a run that keeps the invariant: the counter stays in its range, and a failure raises it. */
  lemma RoundRaisesCounter(cfg: Config, s: System, r: Round, c: ConnId)
    requires Inv(cfg, s) && c in s.senders && s.senders[c].pc == Idle && OthersOnly(c, [r])
    requires ValidRun(cfg, s, RoundSteps(c, r))
    ensures var s', returned := After(cfg, s, RoundSteps(c, r)), ReturnsTo(cfg, s, RoundSteps(c, r), c);
      && Inv(cfg, s') && CameTo(s, s', c, returned) && Max(CreditsAt(s, c), 1) <= cfg.maxCredits
      && (s'.senders[c].pc == Idle ==> CreditsAt(s', c) > Max(CreditsAt(s, c), 1))
  {
    RoundOutcome(cfg, s, r, c);
    RunKeepsInv(cfg, s, RoundSteps(c, r));
    CreditsInRange(cfg, s, c);
  }

  /** An attempt of any number of rounds, with anything the others do in between: every round but the last has
      failed, each because credits came back; the last either took exactly one credit or failed as well, and
      nothing else has happened to the connection but the returns.  As each failure saw the counter rise,
      there are no more rounds than the counter can rise. */
  lemma {:induction false} AttemptOutcome(cfg: Config, s: System, rs: seq<Round>, c: ConnId)
    requires Inv(cfg, s) && c in s.senders && s.senders[c].pc == Idle && OthersOnly(c, rs)
    requires ValidRun(cfg, s, Attempt(c, rs))
    ensures CameTo(s, After(cfg, s, Attempt(c, rs)), c, ReturnsTo(cfg, s, Attempt(c, rs), c))
    ensures |rs| <= cfg.maxCredits + 1 - Max(CreditsAt(s, c), 1)
    decreases |rs|
  {
    CreditsInRange(cfg, s, c);
    if rs != [] {
      OthersOnlyTail(c, rs);
      SplitRun(cfg, s, RoundSteps(c, rs[0]), Attempt(c, rs[1..]), c);
      RoundRaisesCounter(cfg, s, rs[0], c);
      var s' := After(cfg, s, RoundSteps(c, rs[0]));
      if s'.senders[c].pc == Credited {
        NoRoundWhenCredited(cfg, s', rs[1..], c);
      } else {
        AttemptOutcome(cfg, s', rs[1..], c);
      }
    }
  }

  /** Between `s` and `s'` message `m` was posted in turn and `returned` credits came back. */
  predicate Posts(cfg: Config, s: System, s': System, c: ConnId, m: Message, returned: nat)
    requires cfg.Valid()
  {
    && c in s.senders && c in s'.senders && s'.senders[c].wire != []
    && var o, wire := s.senders[c], s'.senders[c].wire;
    && s'.senders[c] == Outbound(Idle, o.mboxIndex + 1, wire, o.posted + [m])
    && wire[|wire| - 1] == Packet(o.mboxIndex % cfg.maxCredits, m)
    && CreditsAt(s', c) == CreditsAt(s, c) + returned - if o.pc == Idle then 1 else 0
  }

  lemma PostOutcome(cfg: Config, s: System, between: seq<Step>, c: ConnId, m: Message)
    requires Shape(cfg, s) && c in s.senders && NoneBy(c, between)
    requires ValidRun(cfg, s, between + [Post(c, m)])
    ensures s.senders[c].pc == Credited
    ensures var ts := between + [Post(c, m)]; Posts(cfg, s, After(cfg, s, ts), c, m, ReturnsTo(cfg, s, ts, c))
  {
    SplitRun(cfg, s, between, [Post(c, m)], c);
    Interlude(cfg, s, between, c);
    assert [Post(c, m)] + [] == [Post(c, m)];
    OneStep(cfg, After(cfg, s, between), Post(c, m), [], c);
  }

  /** A successful attempt: after its rounds and once more anything of the others, the message is posted into
      the slot after the previous one, and one credit is gone for it. */
  lemma AttemptPosts(cfg: Config, s: System, rs: seq<Round>, between: seq<Step>, c: ConnId, m: Message)
    requires Inv(cfg, s) && c in s.senders && s.senders[c].pc == Idle && OthersOnly(c, rs) && NoneBy(c, between)
    requires ValidRun(cfg, s, Attempt(c, rs) + (between + [Post(c, m)]))
    ensures var ts := Attempt(c, rs) + (between + [Post(c, m)]);
      Posts(cfg, s, After(cfg, s, ts), c, m, ReturnsTo(cfg, s, ts, c))
  {
    SplitRun(cfg, s, Attempt(c, rs), between + [Post(c, m)], c);
    AttemptOutcome(cfg, s, rs, c);
    PostOutcome(cfg, After(cfg, s, Attempt(c, rs)), between, c, m);
  }
}
