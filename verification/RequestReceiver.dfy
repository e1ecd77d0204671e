/** The receiver's handlers, updating the request queue in place.  Their effect is given by functions
    on the receiver's state, and every call is shown to be a run of the flow control, so that what
    holds of all runs holds of the handlers. */
module RequestReceiver {
  import opened Common
  import opened RequestRing
  import opened FlowControl

  /** One backlog element from start to end: copy, give the credit back, mark the request complete. */
  function CopyWhole(cfg: Config, r: Receiver): (r': Receiver)
    requires WellFormed(cfg, r) && r.backlog != []
    ensures WellFormed(cfg, r') && r'.backlog == r.backlog[1..]
  {
    assert r.backlog[0] in r.backlog && forall e | e in r.backlog[1..] :: e in r.backlog;
    var front := r.backlog[0];
    Complete(PayBack(CopyOut(cfg, r), front.conn), front.conn, front.item.queueIndex)
  }

  /** Copies arrivals out in order for as long as the next one's slot is free. */
  function Drain(cfg: Config, r: Receiver): (r': Receiver)
    requires WellFormed(cfg, r)
    ensures WellFormed(cfg, r') && !CanCopy(cfg, r')
    decreases |r.backlog|
  {
    if CanCopy(cfg, r) then Drain(cfg, CopyWhole(cfg, r)) else r
  }

  /** What is not copied out stays in the backlog in its order. */
  lemma {:induction false} DrainLeavesSuffix(cfg: Config, r: Receiver)
    requires WellFormed(cfg, r)
    ensures var rest := Drain(cfg, r).backlog;
      |rest| <= |r.backlog| && rest == r.backlog[|r.backlog| - |rest|..]
    decreases |r.backlog|
  {
    if CanCopy(cfg, r) {
      DrainLeavesSuffix(cfg, CopyWhole(cfg, r));
    }
  }

  lemma ArriveKeepsWellFormed(cfg: Config, r: Receiver, c: ConnId)
    requires cfg.Valid() && WellFormed(cfg, r) && c in r.inbound
    ensures WellFormed(cfg, Arrive(cfg, r, c))
  {
    ModBound(r.reqIndex, cfg.reqCount);
    ModBound(r.inbound[c].reqsReceived, cfg.maxCredits);
  }

  /** Draining the backlog is a run of the flow control: copy, credit, finish for each element. */
  lemma {:induction false} DrainIsARun(cfg: Config, s: System) returns (ts: seq<Step>)
    requires Shape(cfg, s) && s.busy == Free
    ensures ValidRun(cfg, s, ts) && After(cfg, s, ts).recv == Drain(cfg, s.recv)
    ensures After(cfg, s, ts).busy == Free && After(cfg, s, ts).senders == s.senders
    decreases |s.recv.backlog|
  {
    if CanCopy(cfg, s.recv) {
      var s1 := FrontCopied(cfg, s);
      var s2 := CreditSentBack(cfg, s1);
      var s3 := CopyFinished(cfg, s2);
      assert s3.recv == CopyWhole(cfg, s.recv);
      var rest := DrainIsARun(cfg, s3);
      RunCons(cfg, s2, FinishCopy, rest);
      RunCons(cfg, s1, SendBackCredit, [FinishCopy] + rest);
      RunCons(cfg, s, CopyFront, [SendBackCredit] + ([FinishCopy] + rest));
      ts := [CopyFront] + ([SendBackCredit] + ([FinishCopy] + rest));
    } else {
      ts := [];
    }
  }

  /** So is handling one delivery event. */
  lemma EventIsARun(cfg: Config, s: System) returns (ts: seq<Step>)
    requires Shape(cfg, s) && s.busy == Free && s.arrivals != []
    ensures s.arrivals[0].conn in s.recv.inbound
    ensures ValidRun(cfg, s, ts)
    ensures WellFormed(cfg, Arrive(cfg, s.recv, s.arrivals[0].conn))
    ensures After(cfg, s, ts).recv == Drain(cfg, Arrive(cfg, s.recv, s.arrivals[0].conn))
  {
    assert s.arrivals[0] in s.arrivals;
    ArriveKeepsWellFormed(cfg, s.recv, s.arrivals[0].conn);
    var rest := DrainIsARun(cfg, ArrivalHandled(cfg, s));
    RunCons(cfg, s, HandleArrival, rest);
    ts := [HandleArrival] + rest;
  }

  /** The receive queue of one process together with the mailboxes of its peers. */
  class RequestQueue {
    const cfg: Config
    const slots: array<Slot>
    var reqIndex: nat
    var backlog: seq<Tagged<Waiting>>
    var inbound: map<ConnId, Inbound>

    ghost function View(): Receiver
      reads this, slots
    {
      Receiver(reqIndex, backlog, slots[..], inbound)
    }

    ghost predicate Valid()
      reads this, slots
    {
      cfg.Valid() && WellFormed(cfg, View())
    }

    constructor (cfg: Config)
      requires cfg.Valid()
      ensures Valid() && fresh(slots) && this.cfg == cfg
      ensures View() == Init(cfg).recv
    {
      this.cfg := cfg;
      slots := new Slot[cfg.reqCount](_ => Slot(Posted, [], 0));
      reqIndex, backlog, inbound := 0, [], map[];
    }

    /** Copies one waiting message into its receive-queue slot, unless the slot is still in use. */
    method ExecuteMboxCopy(e: Tagged<Waiting>) returns (ok: bool)
      requires Valid() && backlog != [] && e == backlog[0]
      modifies slots, this`inbound
      ensures ok == CanCopy(cfg, old(View()))
      ensures ok <==> old(slots[e.item.queueIndex].state) == Posted || old(slots[e.item.queueIndex].state) == Attached
      ensures slots[..] == if !ok then old(slots[..]) else
        old(slots[..])[e.item.queueIndex := Slot(RdmaComplete, old(inbound)[e.conn].mbox[e.item.mboxIndex], e.conn)]
      ensures inbound == if !ok then old(inbound) else
        old(inbound)[e.conn := old(inbound)[e.conn].(credits := old(inbound)[e.conn].credits + 1)]
      ensures Valid() && View() ==
        if ok then CopyWhole(cfg, old(View())).(backlog := old(backlog)) else old(View())
    {
      assert e in backlog;
      var q := e.item.queueIndex;
      if slots[q].state != Posted && slots[q].state != Attached {
        return false;
      }
      ghost var before := View();
      slots[q] := slots[q].(data := inbound[e.conn].mbox[e.item.mboxIndex]);
      assert View().(backlog := backlog[1..]) == CopyOut(cfg, before);
      inbound := inbound[e.conn := inbound[e.conn].(credits := inbound[e.conn].credits + 1)];
      slots[q] := slots[q].(state := RdmaComplete, from := e.conn);
      assert View().(backlog := backlog[1..]) == CopyWhole(cfg, before);
      return true;
    }

    /** Takes the front element off the backlog once it has been copied out. */
    method EraseFront(ghost before: Receiver)
      requires cfg.Valid() && WellFormed(cfg, before) && before.backlog != []
      requires View() == CopyWhole(cfg, before).(backlog := before.backlog)
      modifies this`backlog
      ensures View() == CopyWhole(cfg, before)
    {
      backlog := backlog[1..];
    }

    method ExecuteMboxBacklog()
      requires Valid()
      modifies slots, this`inbound, this`backlog
      ensures Valid() && View() == Drain(cfg, old(View()))
    {
      ghost var start := View();
      while backlog != []
        invariant Valid() && Drain(cfg, View()) == Drain(cfg, start)
        decreases |backlog|
      {
        ghost var before := View();
        var ok := ExecuteMboxCopy(backlog[0]);
        if !ok {
          return;
        }
        EraseFront(before);
      }
    }

    /** Numbers a new arrival of connection `c`, queues it, and copies out whatever can be. */
    method ProcessRequestEvent(c: ConnId)
      requires Valid() && c in inbound
      modifies slots, this`inbound, this`backlog, this`reqIndex
      ensures WellFormed(cfg, Arrive(cfg, old(View()), c))
      ensures Valid() && View() == Drain(cfg, Arrive(cfg, old(View()), c))
    {
      ghost var before := View();
      ArriveKeepsWellFormed(cfg, before, c);
      var nextReqIndex := reqIndex % cfg.reqCount;
      reqIndex := reqIndex + 1;
      var reqCount := inbound[c].reqsReceived;
      inbound := inbound[c := inbound[c].(reqsReceived := reqCount + 1)];
      backlog := backlog + [Tagged(c, Waiting(nextReqIndex, reqCount % cfg.maxCredits))];
      assert View() == Arrive(cfg, before, c);
      ExecuteMboxBacklog();
    }
  }
}
