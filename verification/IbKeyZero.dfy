/** Runs of the InfiniBand bookkeeping in which waits do harm: nothing but key zero ever goes missing. */
module IbKeyZero {
  import opened IbWorkRequests

  /** `s` with key zero taken out of the map. */
  function WithoutZero(s: Ib): Ib {
    s.(wrmap := s.wrmap - {0})
  }

  /** `s` is `r`, in which everything is in order, or lacks key zero, which is outstanding. */
  predicate Lacks(s: Ib, r: Ib) {
    Inv(r) && (s == r || (s == WithoutZero(r) && (0 in r.srq || 0 in r.sent)))
  }

  /** Any step: waits may do harm; only a completion that cannot be decoded is not gone on from. */
  predicate CanHappen(s: Ib, t: Step) {
    Enabled(s, t) && (t.Completion? ==> t.k in s.wrmap)
  }

  function Happen(s: Ib, t: Step): Ib
    requires CanHappen(s, t)
  {
    match t
    case NewReceive => PostRecv(s)
    case NewTransfer(n, contiguous) => Start(s, n, contiguous)
    case Completion(k) => if s.wrmap[k] < |s.requests| then Complete(s, k) else s
    case Waited(i) => Wait(s, i)
    case Destroyed(i) => Destroy(s, i)
  }

  lemma PostWithoutZero(r: Ib)
    requires r.nextKey > 0
    ensures PostRecv(WithoutZero(r)) == WithoutZero(PostRecv(r))
    ensures r.srq.Keys <= PostRecv(r).srq.Keys && r.sent == PostRecv(r).sent
  {
  }

  lemma StartWithoutZero(r: Ib, n: nat, contiguous: bool, keys: map<nat, nat>)
    requires 0 !in keys
    ensures StartWith(WithoutZero(r), n, contiguous, keys) == WithoutZero(StartWith(r, n, contiguous, keys))
    ensures r.srq == StartWith(r, n, contiguous, keys).srq && r.sent.Keys <= StartWith(r, n, contiguous, keys).sent.Keys
  {
    assert (r.wrmap - {0}) + keys == (r.wrmap + keys) - {0};
  }

  lemma CompleteWithoutZero(r: Ib, k: nat)
    requires k != 0 && k in r.wrmap && r.wrmap[k] < |r.requests|
    ensures Complete(WithoutZero(r), k) == WithoutZero(Complete(r, k))
    ensures 0 in r.srq ==> 0 in Complete(r, k).srq
    ensures 0 in r.sent ==> 0 in Complete(r, k).sent
  {
  }

  lemma WaitWithoutZero(r: Ib, i: nat)
    requires i < |r.requests|
    ensures Wait(WithoutZero(r), i) == WithoutZero(Wait(r, i))
  {
    var m, k := r.wrmap, r.requests[i].key;
    assert (m - {0}) - {k} == (m - {k}) - {0};
  }

  lemma DestroyWithoutZero(r: Ib, i: nat)
    requires i < |r.requests| && r.nextKey > 0
    ensures Destroy(WithoutZero(r), i) == WithoutZero(Destroy(r, i))
    ensures r.srq.Keys <= Destroy(r, i).srq.Keys && r.sent == Destroy(r, i).sent
  {
    var m, k := r.wrmap, r.requests[i].key;
    assert (m - {0} - {k})[r.nextKey := i] == (m - {k})[r.nextKey := i] - {0};
  }

  /** Request `i` as a wait leaves it. */
  function Marked(s: Ib, i: nat): Ib
    requires i < |s.requests|
  {
    s.(requests := s.requests[i := s.requests[i].(state := WaitComplete)])
  }

  /** A wait that does harm does nothing but to take key zero out of the map. */
  lemma HarmfulWaitTakesZero(r: Ib, i: nat)
    requires Inv(r) && Enabled(r, Waited(i)) && !HarmlessWait(r, i)
    ensures Wait(r, i) == WithoutZero(Marked(r, i)) && (0 in r.srq || 0 in r.sent)
  {
    assert RecordedAt(r, i);
  }

  lemma MarkedInv(r: Ib, i: nat)
    requires Inv(r) && Enabled(r, Waited(i)) && !HarmlessWait(r, i)
    ensures Inv(Marked(r, i))
  {
    MarkedKeys(r, i);
    MarkedReceives(r, i);
    MarkedTransfers(r, i);
  }

  lemma MarkedKeys(r: Ib, i: nat)
    requires Keys(r) && Recorded(r) && Current(r) && Decodes(r) && i < |r.requests| && !r.requests[i].contiguous
    ensures Keys(Marked(r, i)) && Recorded(Marked(r, i)) && Current(Marked(r, i)) && Decodes(Marked(r, i))
  {
    forall j | 0 <= j < |r.requests|
      ensures RecordedAt(Marked(r, i), j)
    {
      assert RecordedAt(r, j);
    }
  }

  lemma MarkedReceives(r: Ib, i: nat)
    requires Receives(r) && i < |r.requests| && r.requests[i].op == Transfer
    ensures Receives(Marked(r, i))
  {
  }

  lemma MarkedTransfers(r: Ib, i: nat)
    requires Transfers(r) && Enabled(r, Waited(i))
    ensures Transfers(Marked(r, i))
  {
    var t := Marked(r, i);
    forall j | 0 <= j < |t.requests| && t.requests[j].op == Transfer
      ensures TransferInv(t, j)
    {
      assert TransferInv(r, j);
      assert FragmentsOf(t, j) == FragmentsOf(r, j);
    }
  }

  // ----- every step -----

  lemma StepFromWhole(r: Ib, t: Step) returns (r': Ib)
    requires Inv(r) && CanHappen(r, t)
    ensures Lacks(Happen(r, t), r')
  {
    if t.Waited? && !HarmlessWait(r, t.i) {
      HarmfulWaitTakesZero(r, t.i);
      MarkedInv(r, t.i);
      r' := Marked(r, t.i);
    } else {
      if t.Completion? {
        OutstandingIsByKind(r, t.k);
      }
      StepKeepsInv(r, t);
      r' := Apply(r, t);
    }
  }

  lemma OutstandingZero(r: Ib)
    requires Keys(r) && (0 in r.srq || 0 in r.sent)
    ensures r.nextKey > 0
  {
  }

  lemma StartStaysWithoutZero(r: Ib, n: nat, contiguous: bool)
    requires Inv(r) && r.nextKey > 0 && n >= 1 && (contiguous ==> n == 1)
    ensures Inv(Start(r, n, contiguous)) && Start(WithoutZero(r), n, contiguous) == WithoutZero(Start(r, n, contiguous))
    ensures r.srq == Start(r, n, contiguous).srq && r.sent.Keys <= Start(r, n, contiguous).sent.Keys
  {
    StartKeeps(r, n, contiguous);
    FragmentKeysAreNew(r, n);
    StartWithoutZero(r, n, contiguous, FragmentKeys(r.nextKey, n, |r.requests|));
  }

  lemma WaitStaysWithoutZero(r: Ib, i: nat) returns (r': Ib)
    requires Inv(r) && (0 in r.srq || 0 in r.sent) && Enabled(r, Waited(i))
    ensures Lacks(Wait(WithoutZero(r), i), r')
  {
    WaitWithoutZero(r, i);
    if HarmlessWait(r, i) {
      WaitKeeps(r, i);
      r' := Wait(r, i);
    } else {
      HarmfulWaitTakesZero(r, i);
      MarkedInv(r, i);
      r' := Marked(r, i);
      assert r'.wrmap - {0} - {0} == r'.wrmap - {0};
    }
  }

  lemma CompletionStaysWithoutZero(r: Ib, k: nat)
    requires Inv(r) && (0 in r.srq || 0 in r.sent) && CanHappen(WithoutZero(r), Completion(k))
    ensures ByKind(r, k) && Lacks(Happen(WithoutZero(r), Completion(k)), Complete(r, k))
  {
    CompleteKeeps(r, k);
    CompleteWithoutZero(r, k);
  }

  lemma StepWithoutZero(r: Ib, t: Step) returns (r': Ib)
    requires Inv(r) && (0 in r.srq || 0 in r.sent) && CanHappen(WithoutZero(r), t)
    ensures Lacks(Happen(WithoutZero(r), t), r')
  {
    OutstandingZero(r);
    match t
    case NewReceive =>
      PostRecvKeeps(r);
      PostWithoutZero(r);
      r' := PostRecv(r);
    case NewTransfer(n, contiguous) =>
      StartStaysWithoutZero(r, n, contiguous);
      r' := Start(r, n, contiguous);
    case Completion(k) =>
      CompletionStaysWithoutZero(r, k);
      r' := Complete(r, k);
    case Waited(i) => r' := WaitStaysWithoutZero(r, i);
    case Destroyed(i) =>
      DestroyKeeps(r, i);
      DestroyWithoutZero(r, i);
      r' := Destroy(r, i);
  }

  // ----- all runs -----

  predicate AnyRun(s: Ib, ts: seq<Step>)
    decreases |ts|
  {
    ts == [] || (CanHappen(s, ts[0]) && AnyRun(Happen(s, ts[0]), ts[1..]))
  }

  function AfterAny(s: Ib, ts: seq<Step>): Ib
    requires AnyRun(s, ts)
    decreases |ts|
  {
    if ts == [] then s else AfterAny(Happen(s, ts[0]), ts[1..])
  }

  lemma {:induction false} RunLacks(s: Ib, r: Ib, ts: seq<Step>) returns (r': Ib)
    requires Lacks(s, r) && AnyRun(s, ts)
    ensures Lacks(AfterAny(s, ts), r')
    decreases |ts|
  {
    r' := r;
    if ts != [] {
      if s == r {
        r' := StepFromWhole(r, ts[0]);
      } else {
        r' := StepWithoutZero(r, ts[0]);
      }
      r' := RunLacks(Happen(s, ts[0]), r', ts[1..]);
    }
  }

  /** In every run at all, however many waits do harm, each outstanding key but zero finds the request it was
      posted for, and key zero finds its own or none. */
  lemma {:induction false} OnlyZeroGoesMissing(srqCount: nat, ts: seq<Step>, k: nat)
    requires AnyRun(Init(srqCount), ts)
    ensures var s := AfterAny(Init(srqCount), ts);
      && (k in s.srq && (k != 0 || k in s.wrmap) ==>
            (k in s.wrmap && s.wrmap[k] == s.srq[k] < |s.requests| && s.requests[s.wrmap[k]].op == Receive))
      && (k in s.sent && (k != 0 || k in s.wrmap) ==>
            (k in s.wrmap && s.wrmap[k] == s.sent[k] < |s.requests| && s.requests[s.wrmap[k]].op == Transfer))
      && s.reqSrqCount == |s.srq| <= s.limit
  {
    InitInv(srqCount);
    var r := RunLacks(Init(srqCount), Init(srqCount), ts);
    if k in r.srq || k in r.sent {
      OutstandingIsByKind(r, k);
    }
  }
}
