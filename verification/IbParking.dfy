/** Receives of the InfiniBand transport that are never handed to the adapter: how they come about, and how
    many receives may be posted without one. */
module IbParking {
  import opened IbWorkRequests

  /** A receive that was not handed over because the shared queue was at its limit. */
  predicate Parked(s: Ib, i: nat) {
    i < |s.requests| && s.requests[i].op == Receive && s.requests[i].state == Posted && s.requests[i].key !in s.srq
  }

  /** Posting a receive for the first time hands it over if and only if there is room. */
  lemma PostedIffRoom(s: Ib)
    requires Inv(s)
    ensures Parked(PostRecv(s), |s.requests|) <==> |s.srq| == s.limit
  {
  }

  /** So does posting it again. */
  lemma RepostedIffRoom(s: Ib, i: nat)
    requires Inv(s) && i < |s.requests| && s.requests[i].op == Receive && s.requests[i].state == WaitComplete
    ensures Parked(Destroy(s, i), i) <==> |s.srq| == s.limit
  {
  }

  lemma DestroyKeepsParked(s: Ib, j: nat, i: nat)
    requires Keys(s) && Recorded(s) && Parked(s, i) && j < |s.requests|
    ensures Parked(Destroy(s, j), i)
  {
    assert RecordedAt(s, i);
  }

  lemma CompletionKeepsParked(s: Ib, k: nat, i: nat)
    requires Recorded(s) && Receives(s) && ByKind(s, k) && (k in s.srq ==> s.wrmap[k] == s.srq[k])
    requires (k in s.sent ==> s.sent[k] < |s.requests| && s.requests[s.sent[k]].op == Transfer) && Parked(s, i)
    ensures Parked(Complete(s, k), i)
  {
    assert RecordedAt(s, i);
  }

  lemma StepKeepsParked(s: Ib, t: Step, i: nat)
    requires Inv(s) && Allowed(s, t) && Parked(s, i)
    ensures Parked(Apply(s, t), i)
  {
    assert RecordedAt(s, i);
    match t
    case Completion(k) =>
      OutstandingIsByKind(s, k);
      CompletionKeepsParked(s, k, i);
    case Destroyed(j) => DestroyKeepsParked(s, j, i);
    case _ =>
  }

  /** Such a receive is never handed over later: only completed requests are posted again. */
  lemma {:induction false} ParkedForever(s: Ib, ts: seq<Step>, i: nat)
    requires Inv(s) && ValidRun(s, ts) && Parked(s, i)
    ensures Parked(After(s, ts), i)
    decreases |ts|
  {
    if ts != [] {
      StepKeepsInv(s, ts[0]);
      StepKeepsParked(s, ts[0], i);
      ParkedForever(Apply(s, ts[0]), ts[1..], i);
    }
  }

  // ----- how many receives fit -----

  /** The receives posted so far; none of them ever goes away. */
  function ReceivesOf(s: Ib): set<nat> {
    ReceivesIn(s.requests)
  }

  function ReceivesIn(requests: seq<Request>): set<nat> {
    set i | 0 <= i < |requests| && requests[i].op == Receive
  }

  function Targets(m: map<nat, nat>): set<nat> {
    set k | k in m :: m[k]
  }

  predicate Injective(m: map<nat, nat>) {
    forall k, l | k in m && l in m && m[k] == m[l] :: k == l
  }

  lemma TargetsWithout(m: map<nat, nat>, k: nat)
    requires Injective(m) && k in m
    ensures Injective(m - {k}) && Targets(m) == Targets(m - {k}) + {m[k]} && m[k] !in Targets(m - {k})
    ensures |m| == |m - {k}| + 1
  {
    var rest := m - {k};
    assert m == rest[k := m[k]];
    forall x | x in Targets(m)
      ensures x in Targets(rest) + {m[k]}
    {
      var l :| l in m && m[l] == x;
      assert l != k ==> l in rest && rest[l] == x;
    }
  }

  lemma {:induction false} TargetsOfInjective(m: map<nat, nat>)
    requires Injective(m)
    ensures |Targets(m)| == |m|
    decreases |m|
  {
    if m != map[] {
      var k :| k in m;
      TargetsWithout(m, k);
      TargetsOfInjective(m - {k});
    }
  }

  lemma {:induction false} SubsetSize(a: set<nat>, b: set<nat>)
    requires a <= b
    ensures |a| <= |b|
  {
    assert b == a + (b - a);
  }

  /** Each outstanding receive belongs to another request, and to none of those that are not posted. */
  lemma OutstandingAreReceives(s: Ib, others: set<nat>)
    requires Receives(s) && others <= ReceivesOf(s) && forall i | i in others :: s.requests[i].state != Posted
    ensures |s.srq| + |others| <= |ReceivesOf(s)|
  {
    TargetsOfInjective(s.srq);
    assert Targets(s.srq) !! others;
    SubsetSize(Targets(s.srq) + others, ReceivesOf(s));
  }

  ghost predicate NoneParked(s: Ib) {
    forall i: nat :: !Parked(s, i)
  }

  lemma DestroyParksNone(s: Ib, j: nat)
    requires Inv(s) && NoneParked(s) && |ReceivesOf(s)| <= s.limit && j < |s.requests|
    ensures NoneParked(Destroy(s, j))
  {
    if s.requests[j].op == Receive && s.requests[j].state == WaitComplete {
      OutstandingAreReceives(s, {j});
      forall i: nat
        ensures !Parked(Destroy(s, j), i)
      {
        assert !Parked(s, i);
      }
    }
  }

  lemma PostParksNone(s: Ib)
    requires Inv(s) && NoneParked(s) && |ReceivesOf(s)| < s.limit
    ensures NoneParked(PostRecv(s))
  {
    OutstandingAreReceives(s, {});
    forall i: nat
      ensures !Parked(PostRecv(s), i)
    {
      assert !Parked(s, i);
    }
  }

  lemma CompletionParksNone(s: Ib, k: nat, i: nat)
    requires Inv(s) && ByKind(s, k) && (k in s.srq ==> s.wrmap[k] == s.srq[k]) && !Parked(s, i)
    ensures !Parked(Complete(s, k), i)
  {
    assert i < |s.requests| ==> RecordedAt(s, i);
  }

  lemma OthersParkNone(s: Ib, t: Step, i: nat)
    requires Inv(s) && Allowed(s, t) && !Parked(s, i) && !t.NewReceive? && !t.Destroyed?
    ensures !Parked(Apply(s, t), i)
  {
    match t
    case Completion(k) =>
      OutstandingIsByKind(s, k);
      CompletionParksNone(s, k, i);
    case _ =>
  }

  /** A step parks no receive as long as no more receives have been posted than the limit. */
  lemma StepParksNone(s: Ib, t: Step)
    requires Inv(s) && Allowed(s, t) && NoneParked(s) && |ReceivesOf(Apply(s, t))| <= s.limit
    ensures NoneParked(Apply(s, t))
  {
    StepLosesNoReceive(s, t);
    if t.NewReceive? {
      PostParksNone(s);
    } else if t.Destroyed? {
      DestroyParksNone(s, t.i);
    } else {
      forall i: nat
        ensures !Parked(Apply(s, t), i)
      {
        OthersParkNone(s, t, i);
      }
    }
  }

  lemma ReceivesStay(s: Ib, t: Step, i: nat)
    requires Inv(s) && Allowed(s, t) && i in ReceivesOf(s)
    ensures i in ReceivesOf(Apply(s, t))
  {
    match t
    case Completion(k) => OutstandingIsByKind(s, k);
    case _ =>
  }

  lemma LimitStays(s: Ib, t: Step)
    requires Inv(s) && Allowed(s, t)
    ensures Apply(s, t).limit == s.limit
  {
  }

  lemma StepLosesNoReceive(s: Ib, t: Step)
    requires Inv(s) && Allowed(s, t)
    ensures |ReceivesOf(s)| <= |ReceivesOf(Apply(s, t))|
    ensures t == NewReceive ==> |ReceivesOf(s)| < |ReceivesOf(Apply(s, t))|
  {
    var before, after := ReceivesOf(s), ReceivesOf(Apply(s, t));
    forall i | i in before
      ensures i in after
    {
      ReceivesStay(s, t, i);
    }
    SubsetSize(before, after);
    if t == NewReceive {
      assert before + {|s.requests|} <= after;
      SubsetSize(before + {|s.requests|}, after);
    }
  }

  lemma {:induction false} RunParksNone(s: Ib, ts: seq<Step>)
    requires Inv(s) && ValidRun(s, ts) && NoneParked(s) && |ReceivesOf(After(s, ts))| <= s.limit
    ensures NoneParked(After(s, ts))
    decreases |ts|
  {
    if ts != [] {
      StepKeepsInv(s, ts[0]);
      LimitStays(s, ts[0]);
      RunLosesNoReceive(Apply(s, ts[0]), ts[1..]);
      StepParksNone(s, ts[0]);
      RunParksNone(Apply(s, ts[0]), ts[1..]);
    }
  }

  lemma {:induction false} RunLosesNoReceive(s: Ib, ts: seq<Step>)
    requires Inv(s) && ValidRun(s, ts)
    ensures |ReceivesOf(s)| <= |ReceivesOf(After(s, ts))|
    decreases |ts|
  {
    if ts != [] {
      StepKeepsInv(s, ts[0]);
      StepLosesNoReceive(s, ts[0]);
      RunLosesNoReceive(Apply(s, ts[0]), ts[1..]);
    }
  }

  // ----- one receive too many -----

  function NewReceives(n: nat): seq<Step> {
    if n == 0 then [] else [NewReceive] + NewReceives(n - 1)
  }

  lemma AppendReceive(requests: seq<Request>, r: Request)
    requires r.op == Receive
    ensures |ReceivesIn(requests + [r])| == |ReceivesIn(requests)| + 1
  {
    var before, after := ReceivesIn(requests), ReceivesIn(requests + [r]);
    forall i | i in after
      ensures i in before + {|requests|}
    {
    }
    forall i | i in before
      ensures i in after
    {
      assert (requests + [r])[i] == requests[i];
    }
    assert |requests| in after;
    assert after == before + {|requests|} && |requests| !in before;
  }

  lemma OneMoreReceive(s: Ib)
    ensures |ReceivesOf(PostRecv(s))| == |ReceivesOf(s)| + 1
  {
    AppendReceive(s.requests, Request(Receive, Posted, s.nextKey, false, 0, 0));
  }

  lemma OneMoreOutstanding(s: Ib)
    requires (forall k | k in s.srq :: k < s.nextKey) && s.reqSrqCount == |s.srq| < s.limit
    ensures |PostRecv(s).srq| == |s.srq| + 1
  {
    assert PostRecv(s).srq == s.srq[s.nextKey := |s.requests|];
  }

  lemma NextReceive(s: Ib)
    requires Inv(s) && s.nextKey < KEY_LIMIT
    ensures var t := PostRecv(s);
      && Inv(t) && t.nextKey == s.nextKey + 1 && t.limit == s.limit && |ReceivesOf(t)| == |ReceivesOf(s)| + 1
      && (|s.srq| < s.limit ==> |t.srq| == |s.srq| + 1)
      && (|s.srq| == s.limit ==> !NoneParked(t))
  {
    PostRecvKeeps(s);
    OneMoreReceive(s);
    PostedIffRoom(s);
    if |s.srq| < s.limit {
      OneMoreOutstanding(s);
    }
  }

  lemma FirstReceive(s: Ib, n: nat)
    requires Inv(s) && s.nextKey < KEY_LIMIT && Inv(PostRecv(s)) && ValidRun(PostRecv(s), NewReceives(n))
    ensures ValidRun(s, NewReceives(n + 1))
    ensures After(s, NewReceives(n + 1)) == After(PostRecv(s), NewReceives(n))
  {
    RunCons(s, NewReceive, NewReceives(n));
  }

  /** Posting one receive after the other fills the shared queue and then parks the next one. */
  lemma {:induction false} OneTooMany(s: Ib, n: nat)
    requires Inv(s) && s.nextKey + n < KEY_LIMIT && |s.srq| + n == s.limit
    ensures ValidRun(s, NewReceives(n + 1))
    ensures var t := After(s, NewReceives(n + 1)); |ReceivesOf(t)| == |ReceivesOf(s)| + n + 1 && !NoneParked(t)
    decreases n
  {
    NextReceive(s);
    if n > 0 {
      OneTooMany(PostRecv(s), n - 1);
    }
    FirstReceive(s, n);
  }

  /** No run with at most `m` receives ever parks one. */
  ghost predicate ParksNone(srqCount: nat, m: nat) {
    forall ts {:trigger After(Init(srqCount), ts)} |
      ValidRun(Init(srqCount), ts) && |ReceivesOf(After(Init(srqCount), ts))| <= m ::
        NoneParked(After(Init(srqCount), ts))
  }

  /** That no receive is ever parked can be relied on exactly up to half of `srqCount` receives. */
  lemma ParksNoneIff(srqCount: nat, m: nat)
    requires srqCount < KEY_LIMIT
    ensures ParksNone(srqCount, m) <==> m <= srqCount / 2
  {
    InitInv(srqCount);
    if m <= srqCount / 2 {
      forall ts | ValidRun(Init(srqCount), ts) && |ReceivesOf(After(Init(srqCount), ts))| <= m
        ensures NoneParked(After(Init(srqCount), ts))
      {
        RunParksNone(Init(srqCount), ts);
      }
    } else {
      OneTooMany(Init(srqCount), srqCount / 2);
      assert ReceivesOf(Init(srqCount)) == {};
      assert !NoneParked(After(Init(srqCount), NewReceives(srqCount / 2 + 1)));
    }
  }
}
