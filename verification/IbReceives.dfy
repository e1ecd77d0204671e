/** The life of a receive of the InfiniBand transport: outstanding, complete, waited for, given back and outstanding
    again under a new key. */
module IbReceives {
  import opened IbWorkRequests

  predicate IsReceive(s: Ib, i: nat, state: WrState) {
    i < |s.requests| && s.requests[i].op == Receive && s.requests[i].state == state
  }

  /** A completion of an outstanding receive completes it and takes it out of the shared queue. */
  lemma OutstandingCompletes(s: Ib, k: nat)
    requires Inv(s) && k in s.srq
    ensures IsReceive(s, s.srq[k], Posted) && Enabled(s, Completion(k)) && ByKind(s, k)
    ensures IsReceive(Complete(s, k), s.srq[k], RdmaComplete) && k !in Complete(s, k).srq
    ensures Complete(s, k).reqSrqCount == s.reqSrqCount - 1
  {
    OutstandingIsByKind(s, k);
    CompletesItsOwn(s, k);
  }

  /** A wait marks a completed receive and changes nothing else. */
  lemma WaitMarks(s: Ib, i: nat)
    requires Inv(s) && IsReceive(s, i, RdmaComplete)
    ensures Allowed(s, Waited(i))
    ensures Wait(s, i) == s.(requests := s.requests[i := s.requests[i].(state := WaitComplete)])
  {
  }

  /** A receive that has been waited for may be waited for again, which does nothing. */
  lemma WaitAgainDoesNothing(s: Ib, i: nat)
    requires IsReceive(s, i, WaitComplete)
    ensures Allowed(s, Waited(i)) && Wait(s, i) == s
  {
    assert s.requests[i := s.requests[i].(state := WaitComplete)] == s.requests;
  }

  lemma CompletionLeavesWaited(s: Ib, k: nat, i: nat)
    requires Inv(s) && (k in s.srq || k in s.sent) && IsReceive(s, i, WaitComplete)
    ensures ByKind(s, k) && s.wrmap[k] != i
  {
    OutstandingIsByKind(s, k);
  }

  /** Nothing but its own destroy touches a receive that has been waited for. */
  lemma StaysWaited(s: Ib, t: Step, i: nat)
    requires Inv(s) && Allowed(s, t) && IsReceive(s, i, WaitComplete) && t != Destroyed(i)
    ensures i < |Apply(s, t).requests| && Apply(s, t).requests[i] == s.requests[i]
  {
    match t
    case Completion(k) => CompletionLeavesWaited(s, k, i);
    case _ =>
  }

  lemma {:induction false} StaysWaitedInRun(s: Ib, ts: seq<Step>, i: nat)
    requires Inv(s) && ValidRun(s, ts) && IsReceive(s, i, WaitComplete) && Destroyed(i) !in ts
    ensures i < |After(s, ts).requests| && After(s, ts).requests[i] == s.requests[i]
    decreases |ts|
  {
    if ts != [] {
      assert ts[0] in ts && forall t | t in ts[1..] :: t in ts;
      StepKeepsInv(s, ts[0]);
      StaysWaited(s, ts[0], i);
      StaysWaitedInRun(Apply(s, ts[0]), ts[1..], i);
    }
  }

  /** Giving back a receive that has been waited for posts it under a new key, and hands it over exactly if there
      is room. */
  lemma DestroyPostsAgain(s: Ib, i: nat)
    requires Inv(s) && IsReceive(s, i, WaitComplete)
    ensures var t := Destroy(s, i);
      && IsReceive(t, i, Posted) && t.requests[i].key == s.nextKey && s.nextKey !in s.wrmap
      && s.nextKey in t.wrmap && t.wrmap[s.nextKey] == i && s.requests[i].key !in t.wrmap
      && (s.nextKey in t.srq <==> |s.srq| < s.limit) && (s.nextKey in t.srq ==> t.srq[s.nextKey] == i)
  {
    assert RecordedAt(s, i);
  }

  /** Giving back any other receive does nothing. */
  lemma DestroyNeedsWait(s: Ib, i: nat)
    requires i < |s.requests| && !IsReceive(s, i, WaitComplete)
    ensures Destroy(s, i) == s
  {
  }

  lemma CompletedMayBeWaitedFor(s: Ib, i: nat)
    requires Inv(s) && IsReceive(s, i, RdmaComplete)
    ensures Inv(Wait(s, i))
  {
    WaitKeepsIff(s, i);
  }

  /** The whole round, with any run in between: a completed receive that is waited for and at last destroyed is posted
      under a key that was never in use, decodes under it, and is outstanding again if and only if there is room. */
  lemma {:induction false} ReceiveRound(s: Ib, i: nat, ts: seq<Step>)
    requires Inv(s) && IsReceive(s, i, RdmaComplete) && Destroyed(i) !in ts
    requires (CompletedMayBeWaitedFor(s, i); ValidRun(Wait(s, i), ts))
    ensures Allowed(s, Waited(i))
    ensures var t := (CompletedMayBeWaitedFor(s, i); After(Wait(s, i), ts));
      i < |t.requests| &&
      var u := Destroy(t, i);
      && IsReceive(u, i, Posted) && u.requests[i].key == t.nextKey > s.requests[i].key
      && t.nextKey in u.wrmap && u.wrmap[t.nextKey] == i
      && (t.nextKey in u.srq <==> |t.srq| < t.limit) && (t.nextKey in u.srq ==> u.srq[t.nextKey] == i)
  {
    CompletedMayBeWaitedFor(s, i);
    WaitMarks(s, i);
    RunKeepsInv(Wait(s, i), ts);
    StaysWaitedInRun(Wait(s, i), ts, i);
    var t := After(Wait(s, i), ts);
    DestroyPostsAgain(t, i);
    assert RecordedAt(t, i);
  }
}
