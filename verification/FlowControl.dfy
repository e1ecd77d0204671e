/** The Gemini request-queue flow control as a step system: any number of senders, one receiver.

    A sender takes a credit with a fetch and a compare-and-swap on its counter, writes its message
    into the next slot of its mailbox at the receiver, and waits for the receiver to give the credit
    back.  The receiver numbers every arrival twice, once for the mailbox slot and once for the
    receive-queue slot, keeps the arrivals in one global backlog, and copies them out in order. */
module FlowControl {
  import opened Common
  import opened RequestRing

  datatype Config = Config(maxCredits: nat, reqCount: nat) {
    predicate Valid() {
      maxCredits > 0 && reqCount > 0
    }
  }

  type Message = seq<byte>

  /** A message on the wire, addressed to one mailbox slot. */
  datatype Packet = Packet(slot: nat, payload: Message)

  /** Where a sender is inside taking a credit and posting. */
  datatype SendPc = Idle | Fetched(seen: int) | Credited

  /** The sender's end of a connection; `posted` records every message ever posted on it. */
  datatype Outbound = Outbound(pc: SendPc, mboxIndex: nat, wire: seq<Packet>, posted: seq<Message>)

  /** The receiver's end: the mailbox, the arrival counter, and the sender's credit counter,
      which the receiver raises with remote atomic adds. */
  datatype Inbound = Inbound(credits: int, reqsReceived: nat, mbox: seq<Message>)

  /** An arrival that still has to be copied from its mailbox slot to its receive-queue slot. */
  datatype Waiting = Waiting(queueIndex: nat, mboxIndex: nat)

  /** One element of the receive queue: work request state, buffer, and the completing peer. */
  datatype Slot = Slot(state: WrState, data: Message, from: ConnId)

  datatype Receiver = Receiver(
    reqIndex: nat,
    backlog: seq<Tagged<Waiting>>,
    slots: seq<Slot>,
    inbound: map<ConnId, Inbound>)

  /** Where the holder of the backlog lock is inside copying one message out. */
  datatype CopyPc = Free | Copied(conn: ConnId, index: nat) | Paid(conn: ConnId, index: nat)

  /** `arrivals` are delivery events that the receiver has not handled yet; `copied` records every
      message ever copied into the receive queue. */
  datatype System = System(
    senders: map<ConnId, Outbound>,
    arrivals: seq<Tagged<()>>,
    recv: Receiver,
    busy: CopyPc,
    copied: seq<Tagged<Message>>)

  // ----- receiver operations -----

  function EmptyMailbox(cfg: Config): seq<Message> {
    seq(cfg.maxCredits, _ => [])
  }

  /** Handling one delivery event: both numbers are drawn and the arrival joins the backlog. */
  function Arrive(cfg: Config, r: Receiver, c: ConnId): Receiver
    requires cfg.Valid() && c in r.inbound
  {
    var i := r.inbound[c];
    r.(reqIndex := r.reqIndex + 1,
       backlog := r.backlog + [Tagged(c, Waiting(r.reqIndex % cfg.reqCount, i.reqsReceived % cfg.maxCredits))],
       inbound := r.inbound[c := i.(reqsReceived := i.reqsReceived + 1)])
  }

  /** Every backlog element names a connection, a mailbox slot and a receive-queue slot that exist. */
  predicate WellFormed(cfg: Config, r: Receiver) {
    && |r.slots| == cfg.reqCount
    && (forall c | c in r.inbound :: |r.inbound[c].mbox| == cfg.maxCredits)
    && (forall e | e in r.backlog ::
          e.conn in r.inbound && e.item.queueIndex < cfg.reqCount && e.item.mboxIndex < cfg.maxCredits)
  }

  /** The copy goes ahead only if the work request in the target slot is ready to receive. */
  predicate CanCopy(cfg: Config, r: Receiver)
    requires WellFormed(cfg, r)
  {
    r.backlog != [] &&
    (assert r.backlog[0] in r.backlog;
     var s := r.slots[r.backlog[0].item.queueIndex].state; s == Posted || s == Attached)
  }

  /** The message waiting in the mailbox slot of the first backlog element. */
  function FrontMessage(cfg: Config, r: Receiver): Message
    requires WellFormed(cfg, r) && r.backlog != []
  {
    assert r.backlog[0] in r.backlog;
    r.inbound[r.backlog[0].conn].mbox[r.backlog[0].item.mboxIndex]
  }

  function CopyOut(cfg: Config, r: Receiver): Receiver
    requires WellFormed(cfg, r) && r.backlog != []
  {
    assert r.backlog[0] in r.backlog;
    var q := r.backlog[0].item.queueIndex;
    r.(slots := r.slots[q := r.slots[q].(data := FrontMessage(cfg, r))], backlog := r.backlog[1..])
  }

  function PayBack(r: Receiver, c: ConnId): Receiver
    requires c in r.inbound
  {
    r.(inbound := r.inbound[c := r.inbound[c].(credits := r.inbound[c].credits + 1)])
  }

  function Complete(r: Receiver, c: ConnId, q: nat): Receiver
    requires q < |r.slots|
  {
    r.(slots := r.slots[q := r.slots[q].(state := RdmaComplete, from := c)])
  }

  // ----- steps -----

  datatype Step =
    | Connect(c: ConnId)
    | Fetch(c: ConnId)
    | CompareSwap(c: ConnId)
    | Post(c: ConnId, m: Message)
    | Deliver(c: ConnId)
    | HandleArrival
    | CopyFront
    | SendBackCredit
    | FinishCopy
    | User(states: seq<WrState>, reqIndex: nat)

  function Init(cfg: Config): System {
    System(map[], [], Receiver(0, [], seq(cfg.reqCount, _ => Slot(Posted, [], 0)), map[]), Free, [])
  }

  /** The parts that every step keeps consistent simply by what it touches. */
  predicate Shape(cfg: Config, s: System) {
    && cfg.Valid()
    && WellFormed(cfg, s.recv)
    && s.senders.Keys == s.recv.inbound.Keys
    && (forall e | e in s.arrivals :: e.conn in s.senders)
    && (forall e | e in s.copied :: e.conn in s.senders)
    && (forall c | c in s.senders :: forall p | p in s.senders[c].wire :: p.slot < cfg.maxCredits)
    && (s.busy != Free ==> s.busy.conn in s.senders && s.busy.index < cfg.reqCount)
  }

  predicate Enabled(cfg: Config, s: System, t: Step)
    requires Shape(cfg, s)
  {
    match t
    case Connect(c) => c !in s.senders
    case Fetch(c) => c in s.senders && s.senders[c].pc == Idle
    case CompareSwap(c) => c in s.senders && s.senders[c].pc.Fetched?
    case Post(c, _) => c in s.senders && s.senders[c].pc == Credited
    case Deliver(c) => c in s.senders && s.senders[c].wire != []
    case HandleArrival => s.arrivals != []
    case CopyFront => s.busy == Free && CanCopy(cfg, s.recv)
    case SendBackCredit => s.busy.Copied?
    case FinishCopy => s.busy.Paid?
    case User(states, _) => |states| == cfg.reqCount
  }

  /** The sender's next protocol state after its compare-and-swap saw the counter at `now`:
      it takes the credit on a match, tries again if the counter rose, and gives up otherwise. */
  function AfterSwap(seen: int, now: int): SendPc {
    if now == seen then Credited else Idle
  }

  function Connected(cfg: Config, s: System, c: ConnId): (s': System)
    requires Shape(cfg, s) && Enabled(cfg, s, Connect(c))
    ensures Shape(cfg, s')
  {
    s.(senders := s.senders[c := Outbound(Idle, 0, [], [])],
       recv := s.recv.(inbound := s.recv.inbound[c := Inbound(cfg.maxCredits, 0, EmptyMailbox(cfg))]))
  }

  /** An atomic fetch of the credit counter; without a credit the sender gives up for now. */
  function CreditsFetched(cfg: Config, s: System, c: ConnId): (s': System)
    requires Shape(cfg, s) && Enabled(cfg, s, Fetch(c))
    ensures Shape(cfg, s')
  {
    var seen := s.recv.inbound[c].credits;
    s.(senders := s.senders[c := s.senders[c].(pc := if seen > 0 then Fetched(seen) else Idle)])
  }

  /** An atomic compare-and-swap of the counter against the value fetched before. */
  function CreditsSwapped(cfg: Config, s: System, c: ConnId): (s': System)
    requires Shape(cfg, s) && Enabled(cfg, s, CompareSwap(c))
    ensures Shape(cfg, s')
  {
    var i, seen := s.recv.inbound[c], s.senders[c].pc.seen;
    s.(senders := s.senders[c := s.senders[c].(pc := AfterSwap(seen, i.credits))],
       recv := s.recv.(inbound := s.recv.inbound[c :=
         i.(credits := if i.credits == seen then seen - 1 else i.credits)]))
  }

  /** The credited sender picks the next mailbox slot and puts its message on the wire. */
  function MessagePosted(cfg: Config, s: System, c: ConnId, m: Message): (s': System)
    requires Shape(cfg, s) && Enabled(cfg, s, Post(c, m))
    ensures Shape(cfg, s')
  {
    var o := s.senders[c];
    ModBound(o.mboxIndex, cfg.maxCredits);
    s.(senders := s.senders[c := Outbound(Idle, o.mboxIndex + 1,
         o.wire + [Packet(o.mboxIndex % cfg.maxCredits, m)], o.posted + [m])])
  }

  /** The network writes the oldest message into its mailbox slot and raises a delivery event. */
  function PacketDelivered(cfg: Config, s: System, c: ConnId): (s': System)
    requires Shape(cfg, s) && Enabled(cfg, s, Deliver(c))
    ensures Shape(cfg, s')
  {
    var o, i := s.senders[c], s.recv.inbound[c];
    assert o.wire[0] in o.wire && forall p | p in o.wire[1..] :: p in o.wire;
    s.(senders := s.senders[c := o.(wire := o.wire[1..])],
       recv := s.recv.(inbound := s.recv.inbound[c := i.(mbox := i.mbox[o.wire[0].slot := o.wire[0].payload])]),
       arrivals := s.arrivals + [Tagged(c, ())])
  }

  function ArrivalHandled(cfg: Config, s: System): (s': System)
    requires Shape(cfg, s) && Enabled(cfg, s, HandleArrival)
    ensures Shape(cfg, s')
  {
    assert s.arrivals[0] in s.arrivals && forall e | e in s.arrivals[1..] :: e in s.arrivals;
    ModBound(s.recv.reqIndex, cfg.reqCount);
    ModBound(s.recv.inbound[s.arrivals[0].conn].reqsReceived, cfg.maxCredits);
    s.(arrivals := s.arrivals[1..], recv := Arrive(cfg, s.recv, s.arrivals[0].conn))
  }

  function FrontCopied(cfg: Config, s: System): (s': System)
    requires Shape(cfg, s) && Enabled(cfg, s, CopyFront)
    ensures Shape(cfg, s')
  {
    var front := s.recv.backlog[0];
    assert front in s.recv.backlog && forall e | e in s.recv.backlog[1..] :: e in s.recv.backlog;
    s.(recv := CopyOut(cfg, s.recv), busy := Copied(front.conn, front.item.queueIndex),
       copied := s.copied + [Tagged(front.conn, FrontMessage(cfg, s.recv))])
  }

  function CreditSentBack(cfg: Config, s: System): (s': System)
    requires Shape(cfg, s) && Enabled(cfg, s, SendBackCredit)
    ensures Shape(cfg, s')
  {
    s.(recv := PayBack(s.recv, s.busy.conn), busy := Paid(s.busy.conn, s.busy.index))
  }

  function CopyFinished(cfg: Config, s: System): (s': System)
    requires Shape(cfg, s) && Enabled(cfg, s, FinishCopy)
    ensures Shape(cfg, s')
  {
    s.(recv := Complete(s.recv, s.busy.conn, s.busy.index), busy := Free)
  }

  /** Anything the user's threads may do: they change request states and may reset `reqIndex`. */
  function UserActed(cfg: Config, s: System, states: seq<WrState>, reqIndex: nat): (s': System)
    requires Shape(cfg, s) && Enabled(cfg, s, User(states, reqIndex))
    ensures Shape(cfg, s')
  {
    s.(recv := s.recv.(reqIndex := reqIndex,
       slots := seq(cfg.reqCount, k requires 0 <= k < cfg.reqCount => s.recv.slots[k].(state := states[k]))))
  }

  function Apply(cfg: Config, s: System, t: Step): (s': System)
    requires Shape(cfg, s) && Enabled(cfg, s, t)
    ensures Shape(cfg, s')
  {
    match t
    case Connect(c) => Connected(cfg, s, c)
    case Fetch(c) => CreditsFetched(cfg, s, c)
    case CompareSwap(c) => CreditsSwapped(cfg, s, c)
    case Post(c, m) => MessagePosted(cfg, s, c, m)
    case Deliver(c) => PacketDelivered(cfg, s, c)
    case HandleArrival => ArrivalHandled(cfg, s)
    case CopyFront => FrontCopied(cfg, s)
    case SendBackCredit => CreditSentBack(cfg, s)
    case FinishCopy => CopyFinished(cfg, s)
    case User(states, reqIndex) => UserActed(cfg, s, states, reqIndex)
  }

  lemma ModBound(a: nat, m: nat)
    requires m > 0
    ensures 0 <= a % m < m
  {
  }

  // ----- runs -----

  /** `ts` can be taken one after the other from `s`. */
  predicate ValidRun(cfg: Config, s: System, ts: seq<Step>)
    requires Shape(cfg, s)
    decreases |ts|
  {
    ts == [] ||
    (Enabled(cfg, s, ts[0]) &&
     ValidRun(cfg, Apply(cfg, s, ts[0]), ts[1..]))
  }

  function After(cfg: Config, s: System, ts: seq<Step>): (s': System)
    requires Shape(cfg, s) && ValidRun(cfg, s, ts)
    ensures Shape(cfg, s')
    decreases |ts|
  {
    if ts == [] then s else After(cfg, Apply(cfg, s, ts[0]), ts[1..])
  }

  lemma RunCons(cfg: Config, s: System, t: Step, rest: seq<Step>)
    requires Shape(cfg, s) && Enabled(cfg, s, t) && ValidRun(cfg, Apply(cfg, s, t), rest)
    ensures ValidRun(cfg, s, [t] + rest) && After(cfg, s, [t] + rest) == After(cfg, Apply(cfg, s, t), rest)
  {
    assert ([t] + rest)[1..] == rest;
  }
}
