/** Work-request bookkeeping of the InfiniBand transport: keys and the map from keys to requests, the
    shared receive queue of the request buffer, and transfers that are split into several fragments.
    The adapter may complete whatever is outstanding in any order. */
module IbWorkRequests {
  const KEY_LIMIT := 0x1_0000_0000

  datatype Op = Receive | Transfer

  datatype WrState = Posted | Started | RdmaComplete | WaitComplete

  /** A work request.  A transfer that is split over several segments never records a key of its own,
      so that its `key` keeps the zero it was allocated with. */
  datatype Request = Request(op: Op, state: WrState, key: nat, contiguous: bool, fragments: nat, completed: nat)

  /** `srq` and `sent` are the adapter's side: the receives and the fragments handed to it and not yet
      completed, with the request for which each of them was posted. */
  datatype Ib = Ib(limit: nat, requests: seq<Request>, wrmap: map<nat, nat>, nextKey: nat, reqSrqCount: int,
                   srq: map<nat, nat>, sent: map<nat, nat>)

  function Init(srqCount: nat): Ib {
    Ib(srqCount / 2, [], map[], 0, 0, map[], map[])
  }

  // ----- operations -----

  /** Hands the receive of request `i` to the shared receive queue if the count allows it. */
  function HandToSrq(s: Ib, i: nat): Ib
    requires i < |s.requests|
  {
    if s.reqSrqCount < s.limit then
      s.(srq := s.srq[s.requests[i].key := i], reqSrqCount := s.reqSrqCount + 1)
    else s
  }

  /** A new receive has been handed over, if there was room, and its key is not in the map yet. */
  function NotRecorded(s: Ib): Ib {
    HandToSrq(s.(requests := s.requests + [Request(Receive, Posted, s.nextKey, false, 0, 0)], nextKey := s.nextKey + 1),
              |s.requests|)
  }

  function Record(s: Ib, k: nat, i: nat): Ib {
    s.(wrmap := s.wrmap[k := i])
  }

  function PostRecv(s: Ib): Ib {
    Record(NotRecorded(s), s.nextKey, |s.requests|)
  }

  /** The keys of `n` fragments, all for request `i`. */
  function FragmentKeys(first: nat, n: nat, i: nat): map<nat, nat> {
    if n == 0 then map[] else FragmentKeys(first, n - 1, i)[first + n - 1 := i]
  }

  /** A put or get of `n` fragments.  Only a transfer to a contiguous remote buffer records its key. */
  function Start(s: Ib, n: nat, contiguous: bool): Ib {
    StartWith(s, n, contiguous, FragmentKeys(s.nextKey, n, |s.requests|))
  }

  function StartWith(s: Ib, n: nat, contiguous: bool, keys: map<nat, nat>): Ib {
    s.(requests := s.requests + [Request(Transfer, Started, if contiguous then s.nextKey else 0, contiguous, n, 0)],
       wrmap := s.wrmap + keys,
       sent := s.sent + keys,
       nextKey := s.nextKey + n)
  }

  /** What a successful completion does to the request it decodes to. */
  function Process(r: Request, recv: bool): Request {
    match r.op
    case Receive => if recv then r.(state := RdmaComplete) else r
    case Transfer =>
      if recv then r
      else
        var t := if r.state == Started then r.(completed := r.completed + 1) else r;
        if t.completed == t.fragments then t.(state := RdmaComplete) else t
  }

  /** The completion of key `k`, which the map has to know. */
  function Complete(s: Ib, k: nat): Ib
    requires k in s.wrmap && s.wrmap[k] < |s.requests|
  {
    var i := s.wrmap[k];
    var recv := k in s.srq;
    s.(requests := s.requests[i := Process(s.requests[i], recv)],
       reqSrqCount := if recv && s.requests[i].op == Receive then s.reqSrqCount - 1 else s.reqSrqCount,
       srq := s.srq - {k},
       sent := s.sent - {k})
  }

  /** The user has waited for request `i`: a transfer is over and its recorded key leaves the map. */
  function Wait(s: Ib, i: nat): Ib
    requires i < |s.requests|
  {
    var r := s.requests[i];
    s.(requests := s.requests[i := r.(state := WaitComplete)],
       wrmap := if r.op == Transfer then s.wrmap - {r.key} else s.wrmap)
  }

  /** The user gives a waited-for receive back: it gets a new key and is posted again. */
  function Destroy(s: Ib, i: nat): Ib
    requires i < |s.requests|
  {
    var r := s.requests[i];
    if r.op != Receive || r.state != WaitComplete then s
    else
      HandToSrq(s.(requests := s.requests[i := r.(state := Posted, key := s.nextKey)],
                   wrmap := (s.wrmap - {r.key})[s.nextKey := i],
                   nextKey := s.nextKey + 1), i)
  }

  // ----- steps -----

  datatype Step =
    | NewReceive
    | NewTransfer(n: nat, contiguous: bool)
    | Completion(k: nat)
    | Waited(i: nat)
    | Destroyed(i: nat)

  /** Waiting for a transfer that was split over segments takes key zero out of the map; that does no
      harm unless key zero is outstanding. */
  predicate HarmlessWait(s: Ib, i: nat)
    requires i < |s.requests|
  {
    var r := s.requests[i];
    r.op == Transfer && !r.contiguous ==> 0 !in s.srq && 0 !in s.sent
  }

  /** Keys are 32 bits wide and are not used up. */
  predicate Enabled(s: Ib, t: Step) {
    match t
    case NewReceive => s.nextKey < KEY_LIMIT
    case NewTransfer(n, contiguous) => 1 <= n && s.nextKey + n <= KEY_LIMIT && (contiguous ==> n == 1)
    case Completion(k) => k in s.srq || k in s.sent
    case Waited(i) =>
      i < |s.requests| && var r := s.requests[i];
      r.state == RdmaComplete || (r.state == WaitComplete && r.op == Receive)
    case Destroyed(i) => i < |s.requests| && s.nextKey < KEY_LIMIT
  }

  // ----- the invariant -----

  function KeysFor(m: map<nat, nat>, i: nat): set<nat> {
    set k | k in m && m[k] == i
  }

  /** The outstanding fragments of transfer `i`. */
  function FragmentsOf(s: Ib, i: nat): set<nat> {
    KeysFor(s.sent, i)
  }

  /** Every outstanding key decodes to the request for which it was posted. */
  predicate Decodes(s: Ib) {
    && (forall k | k in s.srq :: k in s.wrmap && s.wrmap[k] == s.srq[k])
    && (forall k | k in s.sent :: k in s.wrmap && s.wrmap[k] == s.sent[k])
  }

  predicate Keys(s: Ib) {
    && (forall k | k in s.srq :: k < s.nextKey && k !in s.sent)
    && (forall k | k in s.sent :: k < s.nextKey)
    && (forall k | k in s.wrmap :: k < s.nextKey && s.wrmap[k] < |s.requests|)
  }

  /** A key recorded in a request decodes to that request as long as it is in the map; a transfer over
      several segments records none. */
  predicate Recorded(s: Ib) {
    forall i | 0 <= i < |s.requests| :: RecordedAt(s, i)
  }

  predicate RecordedAt(s: Ib, i: nat)
    requires i < |s.requests|
  {
    var r := s.requests[i];
    && (r.contiguous ==> r.op == Transfer)
    && if r.op == Receive || r.contiguous then r.key < s.nextKey && (r.key in s.wrmap ==> s.wrmap[r.key] == i)
       else r.key == 0
  }

  /** No old key of a receive, and no key of a contiguous transfer that is over, stays in the map. */
  predicate Current(s: Ib) {
    forall k | k in s.wrmap && s.wrmap[k] < |s.requests| :: var r := s.requests[s.wrmap[k]];
      (r.op == Receive || r.contiguous ==> r.key == k) && (r.contiguous ==> r.state != WaitComplete)
  }

  /** An outstanding receive belongs to a posted receive request under its current key. */
  predicate Receives(s: Ib) {
    && s.reqSrqCount == |s.srq| <= s.limit
    && forall k | k in s.srq ::
         s.srq[k] < |s.requests| && var r := s.requests[s.srq[k]]; r.op == Receive && r.state == Posted && r.key == k
  }

  /** A transfer has counted exactly the fragments that are no longer outstanding. */
  predicate Transfers(s: Ib) {
    && (forall k | k in s.sent :: s.sent[k] < |s.requests| && s.requests[s.sent[k]].op == Transfer)
    && forall i | 0 <= i < |s.requests| && s.requests[i].op == Transfer :: TransferInv(s, i)
  }

  predicate TransferInv(s: Ib, i: nat)
    requires i < |s.requests|
  {
    var r := s.requests[i];
    && r.completed + |FragmentsOf(s, i)| == r.fragments
    && (r.state == Started <==> r.completed < r.fragments)
    && r.state != Posted
  }

  predicate Inv(s: Ib) {
    Keys(s) && Recorded(s) && Current(s) && Decodes(s) && Receives(s) && Transfers(s)
  }

  // ----- every step keeps it -----

  /** What happens to receives alone does not touch the transfers. */
  lemma TransfersFrame(s: Ib, t: Ib)
    requires Transfers(s) && t.sent == s.sent
    requires |s.requests| <= |t.requests|
    requires forall i | 0 <= i < |s.requests| && s.requests[i].op == Transfer :: t.requests[i] == s.requests[i]
    requires forall i | 0 <= i < |t.requests| && t.requests[i].op == Transfer ::
               i < |s.requests| && s.requests[i].op == Transfer
    ensures Transfers(t)
  {
    forall i | 0 <= i < |t.requests| && t.requests[i].op == Transfer
      ensures TransferInv(t, i)
    {
      assert TransferInv(s, i);
      assert FragmentsOf(t, i) == FragmentsOf(s, i);
    }
  }

  lemma PostRecvKeepsKeys(s: Ib)
    requires Keys(s)
    ensures Keys(PostRecv(s))
  {
  }

  lemma PostRecvKeepsRecorded(s: Ib)
    requires Keys(s) && Recorded(s)
    ensures Recorded(PostRecv(s))
  {
    var t := PostRecv(s);
    forall j | 0 <= j < |t.requests|
      ensures RecordedAt(t, j)
    {
      assert j < |s.requests| ==> RecordedAt(s, j);
    }
  }

  lemma PostRecvKeepsCurrent(s: Ib)
    requires Keys(s) && Current(s)
    ensures Current(PostRecv(s))
  {
  }

  lemma PostRecvKeepsDecodes(s: Ib)
    requires Keys(s) && Decodes(s)
    ensures Decodes(PostRecv(s))
  {
  }

  lemma PostRecvKeepsReceives(s: Ib)
    requires Keys(s) && Receives(s)
    ensures Receives(PostRecv(s))
  {
  }

  lemma PostRecvKeepsTransfers(s: Ib)
    requires Keys(s) && Transfers(s)
    ensures Transfers(PostRecv(s))
  {
    TransfersFrame(s, PostRecv(s));
  }

  lemma DestroyKeepsKeys(s: Ib, i: nat)
    requires Keys(s) && i < |s.requests|
    ensures Keys(Destroy(s, i))
  {
  }

  lemma DestroyKeepsRecorded(s: Ib, i: nat)
    requires Keys(s) && Recorded(s) && i < |s.requests|
    ensures Recorded(Destroy(s, i))
  {
    var t := Destroy(s, i);
    forall j | 0 <= j < |t.requests|
      ensures RecordedAt(t, j)
    {
      assert j < |s.requests| ==> RecordedAt(s, j);
    }
  }

  lemma DestroyKeepsCurrent(s: Ib, i: nat)
    requires Keys(s) && Current(s) && i < |s.requests|
    ensures Current(Destroy(s, i))
  {
  }

  lemma DestroyKeepsDecodes(s: Ib, i: nat)
    requires Keys(s) && Recorded(s) && Decodes(s) && Receives(s) && Transfers(s) && i < |s.requests|
    ensures Decodes(Destroy(s, i))
  {
    assert RecordedAt(s, i);
  }

  lemma DestroyKeepsReceives(s: Ib, i: nat)
    requires Keys(s) && Receives(s) && i < |s.requests|
    ensures Receives(Destroy(s, i))
  {
  }

  lemma DestroyKeepsTransfers(s: Ib, i: nat)
    requires Keys(s) && Transfers(s) && i < |s.requests|
    ensures Transfers(Destroy(s, i))
  {
    TransfersFrame(s, Destroy(s, i));
  }


  ghost predicate IsRange(m: map<nat, nat>, first: nat, n: nat, i: nat) {
    (forall k :: k in m <==> first <= k < first + n) && (forall k | k in m :: m[k] == i) && |m.Keys| == n
  }

  /** `keys` are `n` new keys, all for the request about to be made. */
  ghost predicate NewKeys(s: Ib, n: nat, keys: map<nat, nat>) {
    IsRange(keys, s.nextKey, n, |s.requests|)
  }

  lemma ExtendRange(m: map<nat, nat>, first: nat, n: nat, i: nat)
    requires IsRange(m, first, n, i)
    ensures IsRange(m[first + n := i], first, n + 1, i)
  {
    assert m[first + n := i].Keys == m.Keys + {first + n};
  }

  lemma {:induction false} KeysInRange(first: nat, n: nat, i: nat)
    ensures IsRange(FragmentKeys(first, n, i), first, n, i)
  {
    if n > 0 {
      KeysInRange(first, n - 1, i);
      ExtendRange(FragmentKeys(first, n - 1, i), first, n - 1, i);
    }
  }

  lemma FragmentKeysAreNew(s: Ib, n: nat)
    ensures NewKeys(s, n, FragmentKeys(s.nextKey, n, |s.requests|))
  {
    KeysInRange(s.nextKey, n, |s.requests|);
  }

  lemma StartKeepsKeys(s: Ib, n: nat, contiguous: bool, keys: map<nat, nat>)
    requires Keys(s) && NewKeys(s, n, keys)
    ensures Keys(StartWith(s, n, contiguous, keys))
  {
  }

  lemma RecordedAfterStart(s: Ib, n: nat, contiguous: bool, keys: map<nat, nat>, j: nat)
    requires NewKeys(s, n, keys) && (contiguous ==> n == 1) && j <= |s.requests|
    requires j < |s.requests| ==> RecordedAt(s, j)
    ensures RecordedAt(StartWith(s, n, contiguous, keys), j)
  {
    if j < |s.requests| {
      assert s.requests[j].key < s.nextKey ==> s.requests[j].key !in keys;
    }
  }

  lemma StartKeepsRecorded(s: Ib, n: nat, contiguous: bool, keys: map<nat, nat>)
    requires Recorded(s) && NewKeys(s, n, keys) && (contiguous ==> n == 1)
    ensures Recorded(StartWith(s, n, contiguous, keys))
  {
    forall j | 0 <= j < |s.requests| + 1
      ensures RecordedAt(StartWith(s, n, contiguous, keys), j)
    {
      RecordedAfterStart(s, n, contiguous, keys, j);
    }
  }

  lemma StartKeepsCurrent(s: Ib, n: nat, contiguous: bool, keys: map<nat, nat>)
    requires Keys(s) && Current(s) && NewKeys(s, n, keys) && (contiguous ==> n == 1)
    ensures Current(StartWith(s, n, contiguous, keys))
  {
  }

  lemma StartKeepsDecodes(s: Ib, n: nat, contiguous: bool, keys: map<nat, nat>)
    requires Keys(s) && Decodes(s) && NewKeys(s, n, keys)
    ensures Decodes(StartWith(s, n, contiguous, keys))
  {
  }

  lemma StartKeepsReceives(s: Ib, n: nat, contiguous: bool, keys: map<nat, nat>)
    requires Receives(s)
    ensures Receives(StartWith(s, n, contiguous, keys))
  {
  }

  lemma KeysForAdded(m: map<nat, nat>, added: map<nat, nat>, j: nat, i: nat)
    requires forall k | k in added :: added[k] == j && k !in m
    requires forall k | k in m :: m[k] != j
    ensures KeysFor(m + added, i) == if i == j then added.Keys else KeysFor(m, i)
  {
  }

  lemma StartKeepsTransfer(s: Ib, n: nat, contiguous: bool, keys: map<nat, nat>, i: nat)
    requires forall k | k in s.sent :: k < s.nextKey && s.sent[k] < |s.requests|
    requires NewKeys(s, n, keys) && n >= 1
    requires if i < |s.requests| then TransferInv(s, i) else i == |s.requests|
    ensures TransferInv(StartWith(s, n, contiguous, keys), i)
  {
    KeysForAdded(s.sent, keys, |s.requests|, i);
    if i == |s.requests| {
      assert KeysFor(s.sent, i) == {};
    }
  }

  lemma StartKeepsTransfers(s: Ib, n: nat, contiguous: bool, keys: map<nat, nat>)
    requires Keys(s) && Transfers(s) && NewKeys(s, n, keys) && n >= 1
    ensures Transfers(StartWith(s, n, contiguous, keys))
  {
    var t := StartWith(s, n, contiguous, keys);
    forall i | 0 <= i < |t.requests| && t.requests[i].op == Transfer
      ensures TransferInv(t, i)
    {
      assert i < |s.requests| ==> s.requests[i] == t.requests[i];
      StartKeepsTransfer(s, n, contiguous, keys, i);
    }
  }

  lemma CompleteKeepsKeys(s: Ib, k: nat)
    requires Keys(s) && Recorded(s) && k in s.wrmap
    ensures Keys(Complete(s, k)) && Recorded(Complete(s, k))
  {
    var t := Complete(s, k);
    forall j | 0 <= j < |t.requests|
      ensures RecordedAt(t, j)
    {
      assert j < |s.requests| ==> RecordedAt(s, j);
    }
  }

  lemma CompleteKeepsCurrent(s: Ib, k: nat)
    requires Keys(s) && Current(s) && k in s.wrmap
    ensures Current(Complete(s, k))
  {
  }

  lemma CompleteKeepsDecodes(s: Ib, k: nat)
    requires Keys(s) && Decodes(s) && k in s.wrmap
    ensures Decodes(Complete(s, k))
  {
  }

  predicate ByKind(s: Ib, k: nat) {
    && k in s.wrmap && s.wrmap[k] < |s.requests|
    && if k in s.srq then k !in s.sent && s.requests[s.wrmap[k]].op == Receive
       else k in s.sent && s.wrmap[k] == s.sent[k]
  }

  lemma OutstandingIsByKind(s: Ib, k: nat)
    requires Keys(s) && Decodes(s) && Receives(s) && (k in s.srq || k in s.sent)
    ensures ByKind(s, k)
  {
  }

  lemma CompleteKeepsReceives(s: Ib, k: nat)
    requires Receives(s) && ByKind(s, k) && (k in s.srq ==> s.wrmap[k] == s.srq[k])
    requires k in s.sent ==> s.sent[k] < |s.requests| && s.requests[s.sent[k]].op == Transfer
    ensures Receives(Complete(s, k))
  {
    if k in s.srq {
      assert |s.srq - {k}| == |s.srq| - 1 by { RemoveKey(s.srq, k); }
    } else {
      assert s.srq - {k} == s.srq;
    }
  }

  lemma RemoveKey(m: map<nat, nat>, k: nat)
    requires k in m
    ensures |m - {k}| == |m| - 1
  {
    assert (m - {k})[k := m[k]] == m;
  }

  /** A completed fragment is one less outstanding for its own transfer and none for any other. */
  lemma FragmentsAfter(s: Ib, k: nat, i: nat)
    requires k in s.wrmap && s.wrmap[k] < |s.requests|
    ensures FragmentsOf(Complete(s, k), i) == FragmentsOf(s, i) - {k}
    ensures k in FragmentsOf(s, i) <==> k in s.sent && s.sent[k] == i
  {
  }

  lemma CompleteKeepsTransfer(s: Ib, k: nat, i: nat)
    requires k in s.wrmap && s.wrmap[k] < |s.requests| && i < |s.requests|
    requires TransferInv(s, i) && s.requests[i].op == Transfer
    requires if k in s.srq then k !in s.sent && s.wrmap[k] != i else k in s.sent && s.wrmap[k] == s.sent[k]
    ensures TransferInv(Complete(s, k), i)
  {
    FragmentsAfter(s, k, i);
  }

  lemma CompleteKeepsTransfers(s: Ib, k: nat)
    requires Transfers(s) && ByKind(s, k)
    ensures Transfers(Complete(s, k))
  {
    var t := Complete(s, k);
    forall i | 0 <= i < |t.requests| && t.requests[i].op == Transfer
      ensures TransferInv(t, i)
    {
      assert s.requests[i].op == Transfer;
      CompleteKeepsTransfer(s, k, i);
    }
  }

  lemma WaitKeepsKeys(s: Ib, i: nat)
    requires Keys(s) && Recorded(s) && i < |s.requests|
    ensures Keys(Wait(s, i)) && Recorded(Wait(s, i))
  {
    var t := Wait(s, i);
    forall j | 0 <= j < |t.requests|
      ensures RecordedAt(t, j)
    {
      assert j < |s.requests| ==> RecordedAt(s, j);
    }
  }

  lemma WaitKeepsCurrent(s: Ib, i: nat)
    requires Keys(s) && Recorded(s) && Current(s) && i < |s.requests|
    ensures Current(Wait(s, i))
  {
    assert RecordedAt(s, i);
  }

  lemma WaitKeepsReceives(s: Ib, i: nat)
    requires Receives(s) && Enabled(s, Waited(i))
    ensures Receives(Wait(s, i))
  {
  }

  lemma WaitKeepsTransfers(s: Ib, i: nat)
    requires Transfers(s) && Enabled(s, Waited(i))
    ensures Transfers(Wait(s, i))
  {
    var t := Wait(s, i);
    forall j | 0 <= j < |t.requests| && t.requests[j].op == Transfer
      ensures TransferInv(t, j)
    {
      assert TransferInv(s, j);
      assert FragmentsOf(t, j) == FragmentsOf(s, j);
    }
  }

  /** A finished transfer's own key is no longer outstanding. */
  lemma OwnKeyIsFree(s: Ib, i: nat)
    requires Recorded(s) && Decodes(s) && Receives(s) && i < |s.requests| && TransferInv(s, i)
    requires s.requests[i].op == Transfer && s.requests[i].contiguous && s.requests[i].state != Started
    ensures s.requests[i].key !in s.srq && s.requests[i].key !in s.sent
  {
    assert RecordedAt(s, i);
    assert FragmentsOf(s, i) == {};
    var k := s.requests[i].key;
    assert k !in KeysFor(s.sent, i);
  }

  /** Waiting keeps every outstanding key decodable if and only if it is not the end of a transfer over
      several segments while key zero is outstanding. */
  lemma WaitKeepsDecodesIff(s: Ib, i: nat)
    requires Inv(s) && Enabled(s, Waited(i))
    ensures Decodes(Wait(s, i)) <==> HarmlessWait(s, i)
  {
    var r := s.requests[i];
    if r.op == Transfer {
      assert TransferInv(s, i) && RecordedAt(s, i);
      if r.contiguous {
        OwnKeyIsFree(s, i);
      }
    }
  }

  // ----- whole runs -----

  lemma InitInv(srqCount: nat)
    ensures Inv(Init(srqCount))
  {
  }

  function Apply(s: Ib, t: Step): Ib
    requires Inv(s) && Enabled(s, t)
  {
    match t
    case NewReceive => PostRecv(s)
    case NewTransfer(n, contiguous) => Start(s, n, contiguous)
    case Completion(k) => (OutstandingIsByKind(s, k); Complete(s, k))
    case Waited(i) => Wait(s, i)
    case Destroyed(i) => Destroy(s, i)
  }

  lemma PostRecvKeeps(s: Ib)
    requires Inv(s)
    ensures Inv(PostRecv(s))
  {
    PostRecvKeepsKeys(s);
    PostRecvKeepsRecorded(s);
    PostRecvKeepsCurrent(s);
    PostRecvKeepsDecodes(s);
    PostRecvKeepsReceives(s);
    PostRecvKeepsTransfers(s);
  }

  /** Between handing a new receive over and recording its key, exactly that key is outstanding and not in the
      map, and it is outstanding exactly if there was room. */
  lemma OnlyTheNewKeyIsMissing(s: Ib, k: nat)
    requires Inv(s)
    ensures var t := NotRecorded(s);
      && (s.nextKey in t.srq <==> |s.srq| < s.limit)
      && (k in t.srq || k in t.sent ==>
            (k != s.nextKey <==> k in t.wrmap) && (k in t.wrmap ==> ByKind(t, k)))
  {
    if k in s.srq || k in s.sent {
      OutstandingIsByKind(s, k);
    }
  }

  /** Any other completion may come in between without making a difference. */
  lemma OtherCompletionsCommute(s: Ib, k: nat)
    requires Inv(s) && (k in s.srq || k in s.sent)
    ensures ByKind(NotRecorded(s), k) && ByKind(PostRecv(s), k)
    ensures Record(Complete(NotRecorded(s), k), s.nextKey, |s.requests|) == Complete(PostRecv(s), k)
  {
    OutstandingIsByKind(s, k);
  }

  /** The new keys of a started transfer, and nothing else, become outstanding, all of them for that transfer,
      and every one of them decodes to it. */
  lemma StartKeeps(s: Ib, n: nat, contiguous: bool)
    requires Inv(s) && n >= 1 && (contiguous ==> n == 1)
    ensures var t, i := Start(s, n, contiguous), |s.requests|;
      && Inv(t) && t.srq == s.srq && |t.requests| == i + 1 && t.requests[..i] == s.requests
      && t.requests[i].op == Transfer && t.requests[i].state == Started && t.requests[i].contiguous == contiguous
      && t.requests[i].fragments == n && t.requests[i].completed == 0
      && (forall k | s.nextKey <= k < s.nextKey + n :: k !in s.wrmap && k in t.sent && k in t.wrmap && t.wrmap[k] == i)
      && (forall k | k in t.sent :: k in s.sent || s.nextKey <= k < s.nextKey + n)
      && (forall k | k in s.sent :: k in t.sent && t.sent[k] == s.sent[k])
  {
    var keys := FragmentKeys(s.nextKey, n, |s.requests|);
    FragmentKeysAreNew(s, n);
    StartKeepsKeys(s, n, contiguous, keys);
    StartKeepsRecorded(s, n, contiguous, keys);
    StartKeepsCurrent(s, n, contiguous, keys);
    StartKeepsDecodes(s, n, contiguous, keys);
    StartKeepsReceives(s, n, contiguous, keys);
    StartKeepsTransfers(s, n, contiguous, keys);
    StartAddsKeys(s, n, contiguous, keys);
  }

  lemma StartAddsKeys(s: Ib, n: nat, contiguous: bool, keys: map<nat, nat>)
    requires Keys(s) && NewKeys(s, n, keys)
    ensures var t, i := StartWith(s, n, contiguous, keys), |s.requests|;
      && t.srq == s.srq && |t.requests| == i + 1 && t.requests[..i] == s.requests
      && (forall k | s.nextKey <= k < s.nextKey + n :: k !in s.wrmap && k in t.sent && k in t.wrmap && t.wrmap[k] == i)
      && (forall k | k in t.sent :: k in s.sent || s.nextKey <= k < s.nextKey + n)
      && (forall k | k in s.sent :: k in t.sent && t.sent[k] == s.sent[k])
  {
  }

  lemma CompleteKeeps(s: Ib, k: nat)
    requires Inv(s) && (k in s.srq || k in s.sent)
    ensures ByKind(s, k) && Inv(Complete(s, k))
  {
    OutstandingIsByKind(s, k);
    CompleteKeepsKeys(s, k);
    CompleteKeepsCurrent(s, k);
    CompleteKeepsDecodes(s, k);
    CompleteKeepsReceives(s, k);
    CompleteKeepsTransfers(s, k);
  }

  lemma WaitKeeps(s: Ib, i: nat)
    requires Inv(s) && Enabled(s, Waited(i)) && HarmlessWait(s, i)
    ensures Inv(Wait(s, i))
  {
    WaitKeepsKeys(s, i);
    WaitKeepsCurrent(s, i);
    WaitKeepsDecodesIff(s, i);
    WaitKeepsReceives(s, i);
    WaitKeepsTransfers(s, i);
  }

  lemma WaitKeepsIff(s: Ib, i: nat)
    requires Inv(s) && Enabled(s, Waited(i))
    ensures Inv(Wait(s, i)) <==> HarmlessWait(s, i)
  {
    WaitKeepsDecodesIff(s, i);
    if HarmlessWait(s, i) {
      WaitKeeps(s, i);
    }
  }

  predicate Completes(requests: seq<Request>, i: nat) {
    i < |requests| && requests[i].state == RdmaComplete
  }

  predicate CountsOne(before: seq<Request>, after: seq<Request>, i: nat) {
    i < |before| == |after| && after[i].completed == before[i].completed + 1
  }

  /** The completion of a key is counted for the request for which it was posted. */
  lemma CompletesItsOwn(s: Ib, k: nat)
    requires Inv(s) && ByKind(s, k)
    ensures k in s.srq ==>
      Completes(Complete(s, k).requests, s.srq[k]) && Complete(s, k).reqSrqCount == s.reqSrqCount - 1
    ensures k in s.sent ==> CountsOne(s.requests, Complete(s, k).requests, s.sent[k])
  {
    if k in s.sent {
      assert TransferInv(s, s.sent[k]);
      assert k in FragmentsOf(s, s.sent[k]);
    }
  }

  lemma DestroyKeeps(s: Ib, i: nat)
    requires Inv(s) && i < |s.requests|
    ensures Inv(Destroy(s, i))
  {
    DestroyKeepsKeys(s, i);
    DestroyKeepsRecorded(s, i);
    DestroyKeepsCurrent(s, i);
    DestroyKeepsDecodes(s, i);
    DestroyKeepsReceives(s, i);
    DestroyKeepsTransfers(s, i);
  }

  /** A step that a run may take: no wait removes a key that is still outstanding. */
  predicate Allowed(s: Ib, t: Step) {
    Enabled(s, t) && (t.Waited? ==> HarmlessWait(s, t.i))
  }

  lemma StepKeepsInv(s: Ib, t: Step)
    requires Inv(s) && Allowed(s, t)
    ensures Inv(Apply(s, t))
  {
    match t
    case NewReceive => PostRecvKeeps(s);
    case NewTransfer(n, contiguous) => StartKeeps(s, n, contiguous);
    case Completion(k) => CompleteKeeps(s, k);
    case Waited(i) => WaitKeeps(s, i);
    case Destroyed(i) => DestroyKeeps(s, i);
  }

  predicate ValidRun(s: Ib, ts: seq<Step>)
    requires Inv(s)
    decreases |ts|
  {
    ts == [] || (Allowed(s, ts[0]) && (StepKeepsInv(s, ts[0]); ValidRun(Apply(s, ts[0]), ts[1..])))
  }

  function After(s: Ib, ts: seq<Step>): Ib
    requires Inv(s) && ValidRun(s, ts)
    decreases |ts|
  {
    if ts == [] then s else (StepKeepsInv(s, ts[0]); After(Apply(s, ts[0]), ts[1..]))
  }

  lemma {:induction false} RunKeepsInv(s: Ib, ts: seq<Step>)
    requires Inv(s) && ValidRun(s, ts)
    ensures Inv(After(s, ts))
    decreases |ts|
  {
    if ts != [] {
      StepKeepsInv(s, ts[0]);
      RunKeepsInv(Apply(s, ts[0]), ts[1..]);
    }
  }

  lemma ReachableInv(srqCount: nat, ts: seq<Step>)
    requires (InitInv(srqCount); ValidRun(Init(srqCount), ts))
    ensures (InitInv(srqCount); Inv(After(Init(srqCount), ts)))
  {
    InitInv(srqCount);
    RunKeepsInv(Init(srqCount), ts);
  }

  /** In every reachable state each outstanding key finds the request it was posted for, so that the
      decoding of a completion cannot fail. */
  lemma {:induction false} EveryCompletionDecodes(srqCount: nat, ts: seq<Step>, k: nat)
    requires (InitInv(srqCount); ValidRun(Init(srqCount), ts))
    ensures var s := (InitInv(srqCount); After(Init(srqCount), ts));
      && (k in s.srq ==>
            (k in s.wrmap && s.wrmap[k] == s.srq[k] < |s.requests| && s.requests[s.wrmap[k]].op == Receive))
      && (k in s.sent ==>
            (k in s.wrmap && s.wrmap[k] == s.sent[k] < |s.requests| && s.requests[s.wrmap[k]].op == Transfer))
  {
    InitInv(srqCount);
    ReachableInv(srqCount, ts);
    var s := After(Init(srqCount), ts);
    if k in s.srq || k in s.sent {
      OutstandingIsByKind(s, k);
    }
  }

  /** The count of the shared receive queue is exact and never exceeds half of the queue. */
  lemma {:induction false} SrqCountIsExact(srqCount: nat, ts: seq<Step>)
    requires (InitInv(srqCount); ValidRun(Init(srqCount), ts))
    ensures var s := (InitInv(srqCount); After(Init(srqCount), ts));
      s.reqSrqCount == |s.srq| <= s.limit
  {
    InitInv(srqCount);
    ReachableInv(srqCount, ts);
    var s := After(Init(srqCount), ts);
  }

  /** Whatever the order of the completions, a put or get is complete exactly when none of its fragments
      is outstanding any more. */
  lemma {:induction false} CompleteExactlyWhenAllAre(srqCount: nat, ts: seq<Step>, i: nat)
    requires (InitInv(srqCount); ValidRun(Init(srqCount), ts))
    ensures var s := (InitInv(srqCount); After(Init(srqCount), ts));
      i < |s.requests| && s.requests[i].op == Transfer ==>
        && (s.requests[i].state == RdmaComplete || s.requests[i].state == WaitComplete <==> FragmentsOf(s, i) == {})
        && s.requests[i].completed == s.requests[i].fragments - |FragmentsOf(s, i)|
  {
    InitInv(srqCount);
    ReachableInv(srqCount, ts);
    var s := After(Init(srqCount), ts);
    if i < |s.requests| && s.requests[i].op == Transfer {
      assert TransferInv(s, i);
    }
  }

  /** A receive has at most one key in the map, and a contiguous transfer that has been waited for none. */
  lemma {:induction false} KeysLeaveTheMap(srqCount: nat, ts: seq<Step>, k: nat, l: nat)
    requires (InitInv(srqCount); ValidRun(Init(srqCount), ts))
    ensures var s := (InitInv(srqCount); After(Init(srqCount), ts));
      k in s.wrmap && l in s.wrmap && s.wrmap[k] == s.wrmap[l] ==>
        && s.wrmap[k] < |s.requests|
        && (s.requests[s.wrmap[k]].op == Receive ==> k == l)
        && (s.requests[s.wrmap[k]].contiguous ==> k == l && s.requests[s.wrmap[k]].state != WaitComplete)
  {
    ReachableInv(srqCount, ts);
  }

  lemma RunCons(s: Ib, t: Step, ts: seq<Step>)
    requires Inv(s) && Allowed(s, t) && (StepKeepsInv(s, t); ValidRun(Apply(s, t), ts))
    ensures ValidRun(s, [t] + ts) && After(s, [t] + ts) == (StepKeepsInv(s, t); After(Apply(s, t), ts))
  {
    assert ([t] + ts)[1..] == ts;
  }

  lemma SegmentedTransferEnds(a: Ib)
    requires Inv(a) && a.nextKey == 1 && |a.requests| == 1 && 0 in a.srq
    ensures var b := Start(a, 1, false); Inv(b) && 1 in b.sent && ByKind(b, 1)
    ensures var s := Complete(Start(a, 1, false), 1);
      Inv(s) && Enabled(s, Waited(1)) && 0 in s.srq && 0 !in Wait(s, 1).wrmap
  {
    StartKeeps(a, 1, false);
    var b := Start(a, 1, false);
    FragmentKeysAreNew(a, 1);
    CompleteKeeps(b, 1);
  }

  /** One receive is posted under key zero; a transfer between segmented buffers completes; waiting for
      it takes key zero out of the map, and the completion of the receive could not be decoded. */
  lemma HarmfulWaitExists() returns (ts: seq<Step>)
    ensures (InitInv(2); ValidRun(Init(2), ts))
    ensures var s := (InitInv(2); After(Init(2), ts));
      Enabled(s, Waited(1)) && 0 in s.srq && 0 !in Wait(s, 1).wrmap
  {
    InitInv(2);
    PostRecvKeeps(Init(2));
    var a := PostRecv(Init(2));
    SegmentedTransferEnds(a);
    RunCons(Start(a, 1, false), Completion(1), []);
    RunCons(a, NewTransfer(1, false), [Completion(1)] + []);
    ts := [NewTransfer(1, false)] + ([Completion(1)] + []);
    RunCons(Init(2), NewReceive, ts);
    ts := [NewReceive] + ts;
  }

  // ----- the transport, updated in place -----

  lemma AddOne(m: map<nat, nat>, added: map<nat, nat>, k: nat, v: nat)
    ensures (m + added)[k := v] == m + added[k := v]
  {
  }

  class Transport {
    const limit: nat
    var requests: seq<Request>
    var wrmap: map<nat, nat>
    var nextKey: nat
    var reqSrqCount: int
    var srq: map<nat, nat>
    var sent: map<nat, nat>

    ghost function View(): Ib
      reads this
    {
      Ib(limit, requests, wrmap, nextKey, reqSrqCount, srq, sent)
    }

    ghost predicate Valid()
      reads this
    {
      Inv(View())
    }

    constructor (srqCount: nat)
      ensures Valid() && View() == Init(srqCount)
    {
      limit := srqCount / 2;
      requests, wrmap, nextKey, reqSrqCount, srq, sent := [], map[], 0, 0, map[], map[];
    }

    method NextKey() returns (key: nat)
      modifies this`nextKey
      ensures key == old(nextKey) && nextKey == old(nextKey) + 1
    {
      key := nextKey;
      nextKey := nextKey + 1;
    }

    method PostToSrq(i: nat)
      requires i < |requests|
      modifies this`srq, this`reqSrqCount
      ensures View() == HandToSrq(old(View()), i)
    {
      if reqSrqCount < limit {
        srq := srq[requests[i].key := i];
        reqSrqCount := reqSrqCount + 1;
      }
    }

    method AddReceive()
      requires Keys(View())
      modifies this
      ensures View() == PostRecv(old(View()))
    {
      var key := NextKey();
      requests := requests + [Request(Receive, Posted, key, false, 0, 0)];
      PostToSrq(|requests| - 1);
      assert key !in wrmap;
      wrmap := wrmap[key := |requests| - 1];
    }

    /** A new receive, outstanding under a new key exactly if there was room for it. */
    method PostRecvWorkRequest()
      requires Valid()
      modifies this
      ensures Valid() && View() == PostRecv(old(View()))
      ensures old(nextKey) !in old(wrmap) && wrmap == old(wrmap)[old(nextKey) := |old(requests)|]
      ensures srq == if |old(srq)| < limit then old(srq)[old(nextKey) := |old(requests)|] else old(srq)
    {
      PostRecvKeeps(View());
      AddReceive();
    }

    /** The emitting loop of a put or get: one new key for every fragment. */
    method EmitFragments(n: nat)
      requires (forall k | k in wrmap :: k < nextKey) && n >= 1
      modifies this
      ensures View() == Start(old(View()), n, false)
    {
      var i := |requests|;
      requests := requests + [Request(Transfer, Started, 0, false, n, 0)];
      ghost var first, map0, sent0 := nextKey, wrmap, sent;
      ghost var keys: map<nat, nat> := map[];
      for f := 0 to n
        invariant requests == old(requests) + [Request(Transfer, Started, 0, false, n, 0)]
        invariant nextKey == first + f && reqSrqCount == old(reqSrqCount) && srq == old(srq)
        invariant keys == FragmentKeys(first, f, i)
        invariant wrmap == map0 + keys && sent == sent0 + keys
        invariant forall k | k in wrmap :: k < nextKey
      {
        var key := NextKey();
        assert key !in wrmap;
        AddOne(map0, keys, key, i);
        AddOne(sent0, keys, key, i);
        wrmap := wrmap[key := i];
        sent := sent[key := i];
        keys := keys[key := i];
      }
    }

    /** A put or get between segmented buffers: its keys are new, and each of them decodes to it. */
    method PostFragments(n: nat)
      requires Valid() && n >= 1
      modifies this
      ensures Valid() && View() == Start(old(View()), n, false)
      ensures forall k | old(nextKey) <= k < old(nextKey) + n ::
        k !in old(wrmap) && k in sent && k in wrmap && wrmap[k] == |old(requests)|
    {
      StartKeeps(View(), n, false);
      EmitFragments(n);
    }

    method ProcessEvent(k: nat)
      requires ByKind(View(), k)
      modifies this
      ensures View() == Complete(old(View()), k)
    {
      var i := wrmap[k];
      var r := requests[i];
      var recv := k in srq;
      if r.op == Receive {
        if recv {
          r := r.(state := RdmaComplete);
          reqSrqCount := reqSrqCount - 1;
        }
      } else if !recv {
        if r.state == Started {
          r := r.(completed := r.completed + 1);
        }
        if r.completed == r.fragments {
          r := r.(state := RdmaComplete);
        }
      }
      requests := requests[i := r];
      srq, sent := srq - {k}, sent - {k};
    }

    /** Polling a successful completion of any outstanding key `k`: decoding it finds the request for which it
        was posted, and processing the event completes that receive or counts a fragment of that transfer. */
    method ProcessCompletion(k: nat)
      requires Valid() && (k in srq || k in sent)
      modifies this
      ensures Valid() && ByKind(old(View()), k) && View() == Complete(old(View()), k)
      ensures old(k in srq) ==> Completes(requests, old(srq[k])) && reqSrqCount == old(reqSrqCount) - 1
      ensures old(k in sent) ==> CountsOne(old(requests), requests, old(sent[k]))
    {
      CompleteKeeps(View(), k);
      CompletesItsOwn(View(), k);
      ProcessEvent(k);
    }

    method EndWait(i: nat)
      requires i < |requests|
      modifies this
      ensures View() == Wait(old(View()), i)
    {
      if requests[i].op == Transfer {
        wrmap := wrmap - {requests[i].key};
      }
      requests := requests[i := requests[i].(state := WaitComplete)];
    }

    /** The end of a wait, after which every outstanding key still decodes exactly if the wait was harmless. */
    method FinishWait(i: nat)
      requires Valid() && Enabled(View(), Waited(i))
      modifies this
      ensures View() == Wait(old(View()), i)
      ensures Valid() <==> old(HarmlessWait(View(), i))
      ensures requests == old(requests)[i := old(requests)[i].(state := WaitComplete)]
      ensures wrmap == if old(requests)[i].op == Receive then old(wrmap) else old(wrmap) - {old(requests)[i].key}
      ensures (srq, sent, nextKey, reqSrqCount) == old((srq, sent, nextKey, reqSrqCount))
    {
      WaitKeepsIff(View(), i);
      EndWait(i);
    }

    method ReplaceKey(i: nat)
      requires Keys(View()) && i < |requests| && requests[i].op == Receive && requests[i].state == WaitComplete
      modifies this
      ensures View() == Destroy(old(View()), i)
      ensures old(requests[i].key) < old(nextKey) ==> old(requests[i].key) !in wrmap
    {
      wrmap := wrmap - {requests[i].key};
      var key := NextKey();
      assert key !in wrmap;
      wrmap := wrmap[key := i];
      requests := requests[i := requests[i].(state := Posted, key := key)];
      PostToSrq(i);
    }

    /** A receive that is given back gets a new key in place of its old one and is handed over if there is room. */
    method RepostRecvWorkRequest(i: nat)
      requires Valid() && i < |requests| && requests[i].op == Receive && requests[i].state == WaitComplete
      modifies this
      ensures Valid() && View() == Destroy(old(View()), i)
      ensures old(requests[i].key) !in wrmap && old(nextKey) in wrmap && wrmap[old(nextKey)] == i
      ensures srq == if |old(srq)| < limit then old(srq)[old(nextKey) := i] else old(srq)
    {
      DestroyKeeps(View(), i);
      assert RecordedAt(View(), i);
      ReplaceKey(i);
    }
  }
}
