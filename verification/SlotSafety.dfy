/** What the receive queue guarantees its user in every run of the flow control, whatever `reqIndex` is and
    however many requests are held at once: bytes that a receive has delivered stay until the slot is given
    back. */
module SlotSafety {
  import opened RequestRing
  import opened FlowControl

  predicate IsFull(s: WrState) {
    s == RdmaComplete || s == WaitComplete
  }

  /** What waiting for requests and destroying them may do to the state of one slot. */
  predicate UserMayMove(a: WrState, b: WrState) {
    || b == a
    || (b == WaitComplete && IsFull(a))
    || (b == Posted && (a == WaitComplete || a == Attached))
  }

  predicate UserMay(cfg: Config, s: System, t: Step)
    requires Shape(cfg, s) && Enabled(cfg, s, t)
  {
    t.User? ==> forall k | 0 <= k < cfg.reqCount :: UserMayMove(s.recv.slots[k].state, t.states[k])
  }

  /** Waiting for the request in any slot and destroying the request in any slot, wherever head and tail are,
      are such moves in every slot. */
  lemma RingOperationsAreMoves(states: seq<WrState>, head: nat, tail: nat, index: nat, k: nat)
    requires head < |states| && tail < |states| && index < |states| && k < |states|
    ensures UserMayMove(states[k], Destroyed(states, head, tail, index).0[k])
    ensures IsFull(states[index]) ==> UserMayMove(states[k], states[index := WaitComplete][k])
  {
    var n := |states|;
    var run := RunEnd(states, tail, 0, Gap(tail, head, n));
    if Gap(tail, k, n) < run {
      assert states[At(tail, Gap(tail, k, n), n)] == WaitComplete;
    }
  }

  /** The copy in progress goes to a slot that still waits for its message. */
  predicate CopyIsApart(cfg: Config, s: System)
    requires Shape(cfg, s)
  {
    s.busy != Free ==> var state := s.recv.slots[s.busy.index].state; state == Posted || state == Attached
  }

  lemma StepKeepsApart(cfg: Config, s: System, t: Step)
    requires Shape(cfg, s) && CopyIsApart(cfg, s) && Enabled(cfg, s, t) && UserMay(cfg, s, t)
    ensures CopyIsApart(cfg, Apply(cfg, s, t))
  {
  }

  /** The step gives slot `k` back. */
  predicate GivesBack(t: Step, k: nat) {
    t.User? && k < |t.states| && t.states[k] == Posted
  }

  /** A slot whose receive is complete keeps its bytes and its sender and stays complete, until a user's step
      gives it back: no copy is ever made into it. */
  lemma FullSlotIsKept(cfg: Config, s: System, t: Step, k: nat)
    requires Shape(cfg, s) && CopyIsApart(cfg, s) && Enabled(cfg, s, t) && UserMay(cfg, s, t)
    requires k < cfg.reqCount && IsFull(s.recv.slots[k].state)
    ensures var before, after := s.recv.slots[k], Apply(cfg, s, t).recv.slots[k];
      && after.data == before.data && after.from == before.from
      && (IsFull(after.state) <==> !GivesBack(t, k))
      && (before.state == WaitComplete && IsFull(after.state) ==> after.state == WaitComplete)
  {
  }

  /** Every user's step of the run is a wait or a destroy. */
  predicate UserRun(cfg: Config, s: System, ts: seq<Step>)
    requires Shape(cfg, s) && ValidRun(cfg, s, ts)
    decreases |ts|
  {
    ts == [] || (UserMay(cfg, s, ts[0]) && UserRun(cfg, Apply(cfg, s, ts[0]), ts[1..]))
  }

  lemma {:induction false} RunKeepsApart(cfg: Config, s: System, ts: seq<Step>)
    requires Shape(cfg, s) && CopyIsApart(cfg, s) && ValidRun(cfg, s, ts) && UserRun(cfg, s, ts)
    ensures CopyIsApart(cfg, After(cfg, s, ts))
    decreases |ts|
  {
    if ts != [] {
      StepKeepsApart(cfg, s, ts[0]);
      RunKeepsApart(cfg, Apply(cfg, s, ts[0]), ts[1..]);
    }
  }

  lemma {:induction false} FullSlotIsKeptInRun(cfg: Config, s: System, ts: seq<Step>, k: nat)
    requires Shape(cfg, s) && CopyIsApart(cfg, s) && ValidRun(cfg, s, ts) && UserRun(cfg, s, ts)
    requires k < cfg.reqCount && IsFull(s.recv.slots[k].state) && forall t | t in ts :: !GivesBack(t, k)
    ensures var before, after := s.recv.slots[k], After(cfg, s, ts).recv.slots[k];
      after.data == before.data && after.from == before.from && IsFull(after.state)
    decreases |ts|
  {
    if ts != [] {
      StepKeepsApart(cfg, s, ts[0]);
      FullSlotIsKept(cfg, s, ts[0], k);
      FullSlotIsKeptInRun(cfg, Apply(cfg, s, ts[0]), ts[1..], k);
    }
  }

  /** Receive-slot protection in every run from the start, with any number of senders, any ring size, any
      numbers given to arrivals, and any mix of waits and destroys: from the moment a slot is complete to the
      step that gives it back it holds the same bytes from the same sender. */
  lemma HeldSlotIsNeverOverwritten(cfg: Config, ts: seq<Step>, more: seq<Step>, k: nat)
    requires cfg.Valid() && k < cfg.reqCount
    requires ValidRun(cfg, Init(cfg), ts) && UserRun(cfg, Init(cfg), ts)
    requires var s := After(cfg, Init(cfg), ts);
      && IsFull(s.recv.slots[k].state)
      && ValidRun(cfg, s, more) && UserRun(cfg, s, more) && forall t | t in more :: !GivesBack(t, k)
    ensures var s := After(cfg, Init(cfg), ts);
      var before, after := s.recv.slots[k], After(cfg, s, more).recv.slots[k];
      after.data == before.data && after.from == before.from && IsFull(after.state)
  {
    RunKeepsApart(cfg, Init(cfg), ts);
    FullSlotIsKeptInRun(cfg, After(cfg, Init(cfg), ts), more, k);
  }
}
