/** What the flow control guarantees in every reachable state, whatever the user's threads do with
    the receive queue: credit conservation, no mailbox slot ever overwritten, and a FIFO channel
    per connection. */
module FlowSafety {
  import opened Common
  import opened FlowControl

  // ----- the invariant of one connection -----

  /** All there is of one connection: its two ends, `pending` arrivals not handled yet, `waiting` in the backlog,
      `got` already copied out, and `owed` credits copied out for but not given back yet. */
  datatype Link = Link(o: Outbound, i: Inbound, pending: nat, waiting: seq<Waiting>, got: seq<Message>, owed: nat)

  ghost predicate LinkInv(cfg: Config, l: Link) {
    var m := cfg.maxCredits;
    var delivered := |l.o.posted| - |l.o.wire|;
    && m > 0 && |l.i.mbox| == m
    && |l.o.posted| == l.o.mboxIndex
    && l.got <= l.o.posted
    && l.i.reqsReceived == |l.got| + |l.waiting|
    && delivered == l.i.reqsReceived + l.pending
    && l.i.credits >= 0
    && l.i.credits + (if l.o.pc == Credited then 1 else 0) + |l.o.wire| + l.pending + |l.waiting| + l.owed == m
    && (l.o.pc.Fetched? ==> 0 < l.o.pc.seen <= l.i.credits)
    && (forall j {:trigger l.o.wire[j]} | 0 <= j < |l.o.wire| ::
          l.o.wire[j] == Packet((delivered + j) % m, l.o.posted[delivered + j]))
    && (forall j {:trigger l.waiting[j]} | 0 <= j < |l.waiting| :: l.waiting[j].mboxIndex == (|l.got| + j) % m)
    && (forall k {:trigger l.o.posted[k]} | |l.got| <= k < delivered :: l.i.mbox[k % m] == l.o.posted[k])
  }

  function Owed(busy: CopyPc, c: ConnId): nat {
    if busy.Copied? && busy.conn == c then 1 else 0
  }

  function LinkOf(s: System, c: ConnId): Link
    requires c in s.senders && c in s.recv.inbound
  {
    Link(s.senders[c], s.recv.inbound[c], |Of(c, s.arrivals)|, Of(c, s.recv.backlog), Of(c, s.copied), Owed(s.busy, c))
  }

  ghost predicate InvAt(cfg: Config, s: System, c: ConnId)
    requires Shape(cfg, s) && c in s.senders
  {
    LinkInv(cfg, LinkOf(s, c))
  }

  ghost predicate Inv(cfg: Config, s: System) {
    Shape(cfg, s) && forall c | c in s.senders :: InvAt(cfg, s, c)
  }

  // ----- one lemma per kind of step, about one connection -----

  lemma FetchKeeps(cfg: Config, l: Link)
    requires LinkInv(cfg, l) && l.o.pc == Idle
    ensures LinkInv(cfg, l.(o := l.o.(pc := if l.i.credits > 0 then Fetched(l.i.credits) else Idle)))
  {
  }

  /** A compare-and-swap takes one credit from a positive counter or leaves it as it is; the counter
      cannot have fallen since the fetch, so a failed swap means that credits came back. */
  lemma SwapKeeps(cfg: Config, l: Link)
    requires LinkInv(cfg, l) && l.o.pc.Fetched?
    ensures l.o.pc.seen <= l.i.credits
    ensures LinkInv(cfg, l.(
      o := l.o.(pc := AfterSwap(l.o.pc.seen, l.i.credits)),
      i := l.i.(credits := if l.i.credits == l.o.pc.seen then l.o.pc.seen - 1 else l.i.credits)))
  {
  }

  lemma PostKeeps(cfg: Config, l: Link, msg: Message)
    requires LinkInv(cfg, l) && l.o.pc == Credited
    ensures var p := Packet(l.o.mboxIndex % cfg.maxCredits, msg);
      LinkInv(cfg, l.(o := Outbound(Idle, l.o.mboxIndex + 1, l.o.wire + [p], l.o.posted + [msg])))
  {
  }

  lemma DeliverKeeps(cfg: Config, l: Link)
    requires LinkInv(cfg, l) && l.o.wire != []
    ensures l.o.wire[0].slot < |l.i.mbox|
    ensures LinkInv(cfg, l.(
      o := l.o.(wire := l.o.wire[1..]),
      i := l.i.(mbox := l.i.mbox[l.o.wire[0].slot := l.o.wire[0].payload]),
      pending := l.pending + 1))
  {
    var m, o, i, d := cfg.maxCredits, l.o, l.i, |l.o.posted| - |l.o.wire|;
    var o', i' := o.(wire := o.wire[1..]), i.(mbox := i.mbox[o.wire[0].slot := o.wire[0].payload]);
    assert o.wire[0] == Packet(d % m, o.posted[d]);
    forall k | |l.got| <= k < d + 1
      ensures i'.mbox[k % m] == o'.posted[k]
    {
      if k < d {
        SlotsDiffer(k, d, m);
        assert i.mbox[k % m] == o.posted[k];
      }
    }
    forall j | 0 <= j < |o'.wire|
      ensures o'.wire[j] == Packet((d + 1 + j) % m, o.posted[d + 1 + j])
    {
      assert o.wire[j + 1] == Packet((d + (j + 1)) % m, o.posted[d + (j + 1)]);
    }
  }

  lemma ArriveKeeps(cfg: Config, l: Link, queueIndex: nat)
    requires LinkInv(cfg, l) && l.pending > 0
    ensures LinkInv(cfg, l.(
      i := l.i.(reqsReceived := l.i.reqsReceived + 1),
      pending := l.pending - 1,
      waiting := l.waiting + [Waiting(queueIndex, l.i.reqsReceived % cfg.maxCredits)]))
  {
  }

  /** The message copied out of the mailbox is the next one the sender posted. */
  lemma CopyKeeps(cfg: Config, l: Link)
    requires LinkInv(cfg, l) && l.waiting != [] && l.owed == 0
    ensures l.waiting[0].mboxIndex < |l.i.mbox|
    ensures |l.got| < |l.o.posted| && l.i.mbox[l.waiting[0].mboxIndex] == l.o.posted[|l.got|]
    ensures LinkInv(cfg, l.(waiting := l.waiting[1..], got := l.got + [l.i.mbox[l.waiting[0].mboxIndex]], owed := 1))
  {
    var m := cfg.maxCredits;
    assert l.waiting[0].mboxIndex == |l.got| % m;
    assert l.i.mbox[|l.got| % m] == l.o.posted[|l.got|];
    forall j | 0 <= j < |l.waiting[1..]|
      ensures l.waiting[1..][j].mboxIndex == (|l.got| + 1 + j) % m
    {
      assert l.waiting[j + 1].mboxIndex == (|l.got| + (j + 1)) % m;
    }
  }

  lemma PayBackKeeps(cfg: Config, l: Link)
    requires LinkInv(cfg, l)
    ensures LinkInv(cfg, l.(i := l.i.(credits := l.i.credits + l.owed), owed := 0))
  {
  }

  // ----- every step keeps the invariant -----

  lemma InitInv(cfg: Config)
    requires cfg.Valid()
    ensures Inv(cfg, Init(cfg))
  {
  }

  lemma ConnectKeeps(cfg: Config, s: System, x: ConnId, c: ConnId)
    requires Shape(cfg, s) && Enabled(cfg, s, Connect(x)) && (c == x || (c in s.senders && InvAt(cfg, s, c)))
    ensures InvAt(cfg, Connected(cfg, s, x), c)
  {
    if c == x {
      OfAbsent(c, s.arrivals);
      OfAbsent(c, s.recv.backlog);
      OfAbsent(c, s.copied);
    } else {
      UntouchedKeepsInvAt(cfg, s, Connected(cfg, s, x), c);
    }
  }

  /** A step that leaves everything about connection `c` as it was keeps its invariant. */
  lemma UntouchedKeepsInvAt(cfg: Config, s: System, s': System, c: ConnId)
    requires Shape(cfg, s) && Shape(cfg, s') && c in s.senders && c in s'.senders && InvAt(cfg, s, c)
    requires s'.senders[c] == s.senders[c] && s'.recv.inbound[c] == s.recv.inbound[c]
    requires |Of(c, s'.arrivals)| == |Of(c, s.arrivals)|
    requires Of(c, s'.recv.backlog) == Of(c, s.recv.backlog)
    requires Of(c, s'.copied) == Of(c, s.copied)
    requires Owed(s'.busy, c) == Owed(s.busy, c)
    ensures InvAt(cfg, s', c)
  {
  }

  lemma InvAtFrom(cfg: Config, s: System, c: ConnId, l: Link)
    requires Shape(cfg, s) && c in s.senders && LinkInv(cfg, l) && l == LinkOf(s, c)
    ensures InvAt(cfg, s, c)
  {
  }

  lemma FrontOf<T>(c: ConnId, xs: seq<Tagged<T>>)
    requires xs != []
    ensures Of(c, xs) == if xs[0].conn == c then [xs[0].item] + Of(c, xs[1..]) else Of(c, xs[1..])
  {
  }

  lemma FetchKeepsInvAt(cfg: Config, s: System, x: ConnId, c: ConnId)
    requires Shape(cfg, s) && Enabled(cfg, s, Fetch(x)) && c in s.senders && InvAt(cfg, s, c)
    ensures InvAt(cfg, CreditsFetched(cfg, s, x), c)
  {
    if x == c {
      FetchKeeps(cfg, LinkOf(s, c));
    } else {
      UntouchedKeepsInvAt(cfg, s, CreditsFetched(cfg, s, x), c);
    }
  }

  lemma SwapKeepsInvAt(cfg: Config, s: System, x: ConnId, c: ConnId)
    requires Shape(cfg, s) && Enabled(cfg, s, CompareSwap(x)) && c in s.senders && InvAt(cfg, s, c)
    ensures InvAt(cfg, CreditsSwapped(cfg, s, x), c)
  {
    if x == c {
      SwapKeeps(cfg, LinkOf(s, c));
    } else {
      UntouchedKeepsInvAt(cfg, s, CreditsSwapped(cfg, s, x), c);
    }
  }

  lemma PostKeepsInvAt(cfg: Config, s: System, x: ConnId, m: Message, c: ConnId)
    requires Shape(cfg, s) && Enabled(cfg, s, Post(x, m)) && c in s.senders && InvAt(cfg, s, c)
    ensures InvAt(cfg, MessagePosted(cfg, s, x, m), c)
  {
    if x == c {
      PostKeeps(cfg, LinkOf(s, c), m);
    } else {
      UntouchedKeepsInvAt(cfg, s, MessagePosted(cfg, s, x, m), c);
    }
  }

  lemma DeliverKeepsInvAt(cfg: Config, s: System, x: ConnId, c: ConnId)
    requires Shape(cfg, s) && Enabled(cfg, s, Deliver(x)) && c in s.senders && InvAt(cfg, s, c)
    ensures InvAt(cfg, PacketDelivered(cfg, s, x), c)
  {
    OfAppend(c, s.arrivals, Tagged(x, ()));
    if x == c {
      DeliverKeeps(cfg, LinkOf(s, c));
    } else {
      UntouchedKeepsInvAt(cfg, s, PacketDelivered(cfg, s, x), c);
    }
  }

  lemma ArrivalKeepsInvAt(cfg: Config, s: System, c: ConnId)
    requires Shape(cfg, s) && Enabled(cfg, s, HandleArrival) && c in s.senders && InvAt(cfg, s, c)
    ensures InvAt(cfg, ArrivalHandled(cfg, s), c)
  {
    assert s.arrivals[0] in s.arrivals;
    var x, q := s.arrivals[0].conn, s.recv.reqIndex % cfg.reqCount;
    FrontOf(c, s.arrivals);
    OfAppend(c, s.recv.backlog, Tagged(x, Waiting(q, s.recv.inbound[x].reqsReceived % cfg.maxCredits)));
    if x == c {
      var l := LinkOf(s, c);
      ArriveKeeps(cfg, l, q);
      InvAtFrom(cfg, ArrivalHandled(cfg, s), c, l.(
        i := l.i.(reqsReceived := l.i.reqsReceived + 1),
        pending := l.pending - 1,
        waiting := l.waiting + [Waiting(q, l.i.reqsReceived % cfg.maxCredits)]));
    } else {
      UntouchedKeepsInvAt(cfg, s, ArrivalHandled(cfg, s), c);
    }
  }

  lemma CopyKeepsInvAt(cfg: Config, s: System, c: ConnId)
    requires Shape(cfg, s) && Enabled(cfg, s, CopyFront) && c in s.senders && InvAt(cfg, s, c)
    ensures InvAt(cfg, FrontCopied(cfg, s), c)
  {
    assert s.recv.backlog[0] in s.recv.backlog;
    var x := s.recv.backlog[0].conn;
    FrontOf(c, s.recv.backlog);
    OfAppend(c, s.copied, Tagged(x, FrontMessage(cfg, s.recv)));
    if x == c {
      CopyKeeps(cfg, LinkOf(s, c));
    } else {
      UntouchedKeepsInvAt(cfg, s, FrontCopied(cfg, s), c);
    }
  }

  lemma SendBackKeepsInvAt(cfg: Config, s: System, c: ConnId)
    requires Shape(cfg, s) && Enabled(cfg, s, SendBackCredit) && c in s.senders && InvAt(cfg, s, c)
    ensures InvAt(cfg, CreditSentBack(cfg, s), c)
  {
    var s', i := CreditSentBack(cfg, s), s.recv.inbound[c];
    PayBackKeeps(cfg, LinkOf(s, c));
    assert s'.recv.inbound[c] == i.(credits := i.credits + Owed(s.busy, c));
  }

  lemma StepKeepsInvAt(cfg: Config, s: System, t: Step, c: ConnId)
    requires Inv(cfg, s) && Enabled(cfg, s, t) && c in Apply(cfg, s, t).senders
    ensures InvAt(cfg, Apply(cfg, s, t), c)
  {
    assert c in s.senders ==> InvAt(cfg, s, c);
    match t
    case Connect(x) => ConnectKeeps(cfg, s, x, c);
    case Fetch(x) => FetchKeepsInvAt(cfg, s, x, c);
    case CompareSwap(x) => SwapKeepsInvAt(cfg, s, x, c);
    case Post(x, m) => PostKeepsInvAt(cfg, s, x, m, c);
    case Deliver(x) => DeliverKeepsInvAt(cfg, s, x, c);
    case HandleArrival => ArrivalKeepsInvAt(cfg, s, c);
    case CopyFront => CopyKeepsInvAt(cfg, s, c);
    case SendBackCredit => SendBackKeepsInvAt(cfg, s, c);
    case FinishCopy => UntouchedKeepsInvAt(cfg, s, CopyFinished(cfg, s), c);
    case User(states, reqIndex) => UntouchedKeepsInvAt(cfg, s, UserActed(cfg, s, states, reqIndex), c);
  }

  lemma StepKeepsInv(cfg: Config, s: System, t: Step)
    requires Inv(cfg, s) && Enabled(cfg, s, t)
    ensures Inv(cfg, Apply(cfg, s, t))
  {
    forall c | c in Apply(cfg, s, t).senders
      ensures InvAt(cfg, Apply(cfg, s, t), c)
    {
      StepKeepsInvAt(cfg, s, t, c);
    }
  }

  lemma {:induction false} RunKeepsInv(cfg: Config, s: System, ts: seq<Step>)
    requires Inv(cfg, s) && ValidRun(cfg, s, ts)
    ensures Inv(cfg, After(cfg, s, ts))
    decreases |ts|
  {
    if ts != [] {
      StepKeepsInv(cfg, s, ts[0]);
      RunKeepsInv(cfg, Apply(cfg, s, ts[0]), ts[1..]);
    }
  }

  // ----- main results, for every run from the initial state -----

  /** Credits + taken + on the wire + delivered + in the backlog + owed is always the mailbox size. */
  lemma CreditsAreConserved(cfg: Config, ts: seq<Step>, c: ConnId)
    requires cfg.Valid() && ValidRun(cfg, Init(cfg), ts)
    ensures var s := After(cfg, Init(cfg), ts);
      c in s.senders ==>
        && 0 <= s.recv.inbound[c].credits <= cfg.maxCredits
        && s.recv.inbound[c].credits + (if s.senders[c].pc == Credited then 1 else 0) + |s.senders[c].wire|
           + |Of(c, s.arrivals)| + |Of(c, s.recv.backlog)| + Owed(s.busy, c) == cfg.maxCredits
  {
    InitInv(cfg);
    RunKeepsInv(cfg, Init(cfg), ts);
    var s := After(cfg, Init(cfg), ts);
    assert c in s.senders ==> InvAt(cfg, s, c);
  }

  lemma SwapAt(cfg: Config, s: System, c: ConnId)
    requires Shape(cfg, s) && Enabled(cfg, s, CompareSwap(c)) && InvAt(cfg, s, c)
    ensures var s' := CreditsSwapped(cfg, s, c);
      var seen, now := s.senders[c].pc.seen, s.recv.inbound[c].credits;
      && (s'.senders[c].pc == Credited <==> now == seen)
      && (now == seen ==> now > 0 && s'.recv.inbound[c].credits == now - 1)
      && (now != seen ==> now > seen && s'.recv == s.recv)
  {
  }

  /** In every run a compare-and-swap either takes exactly one credit from a positive counter, or
      credits came back since the fetch and the counter stays as it is: it never finds fewer. */
  lemma SwapTakesOneOrSawCreditsReturn(cfg: Config, ts: seq<Step>, c: ConnId)
    requires cfg.Valid() && ValidRun(cfg, Init(cfg), ts)
    requires Enabled(cfg, After(cfg, Init(cfg), ts), CompareSwap(c))
    ensures var s := After(cfg, Init(cfg), ts);
      var s' := CreditsSwapped(cfg, s, c);
      var seen, now := s.senders[c].pc.seen, s.recv.inbound[c].credits;
      && (s'.senders[c].pc == Credited <==> now == seen)
      && (now == seen ==> now > 0 && s'.recv.inbound[c].credits == now - 1)
      && (now != seen ==> now > seen && s'.recv == s.recv)
  {
    InitInv(cfg);
    RunKeepsInv(cfg, Init(cfg), ts);
    SwapAt(cfg, After(cfg, Init(cfg), ts), c);
  }

  /** The messages `k` of a connection that were posted and not copied out yet. */
  predicate Outstanding(s: System, c: ConnId, k: nat)
    requires c in s.senders
  {
    |Of(c, s.copied)| <= k < |s.senders[c].posted|
  }

  /** Mailbox safety: two outstanding messages never share a slot, the slot that a credited sender
      is about to write belongs to no outstanding message, and every delivered message that is still
      outstanding is intact in its slot. */
  lemma MailboxIsNeverOverwritten(cfg: Config, ts: seq<Step>, c: ConnId)
    requires cfg.Valid() && ValidRun(cfg, Init(cfg), ts)
    requires c in After(cfg, Init(cfg), ts).senders
    ensures var s := After(cfg, Init(cfg), ts);
      var o := s.senders[c];
      && (forall k: nat, l: nat | Outstanding(s, c, k) && Outstanding(s, c, l) && k < l ::
            k % cfg.maxCredits != l % cfg.maxCredits)
      && (o.pc == Credited ==>
            forall k: nat | Outstanding(s, c, k) :: k % cfg.maxCredits != o.mboxIndex % cfg.maxCredits)
      && (forall k: nat | Outstanding(s, c, k) && k < |o.posted| - |o.wire| ::
            s.recv.inbound[c].mbox[k % cfg.maxCredits] == o.posted[k])
  {
    InitInv(cfg);
    RunKeepsInv(cfg, Init(cfg), ts);
    var s := After(cfg, Init(cfg), ts);
    assert InvAt(cfg, s, c);
    forall k: nat, l: nat | Outstanding(s, c, k) && Outstanding(s, c, l) && k < l
      ensures k % cfg.maxCredits != l % cfg.maxCredits
    {
      SlotsDiffer(k, l, cfg.maxCredits);
    }
    if s.senders[c].pc == Credited {
      forall k: nat | Outstanding(s, c, k)
        ensures k % cfg.maxCredits != s.senders[c].mboxIndex % cfg.maxCredits
      {
        SlotsDiffer(k, s.senders[c].mboxIndex, cfg.maxCredits);
      }
    }
  }

  // ----- refinement to a FIFO channel -----

  /** The specification of one connection: what went in, and how much of it has come out. */
  datatype Channel = Channel(sent: seq<Message>, received: seq<Message>)

  datatype ChannelOp = Send(m: Message) | Receive | Nothing

  ghost predicate ChannelStep(a: Channel, op: ChannelOp, b: Channel) {
    match op
    case Send(m) => b == a.(sent := a.sent + [m])
    case Receive => |a.received| < |a.sent| && b == a.(received := a.received + [a.sent[|a.received|]])
    case Nothing => b == a
  }

  function ChannelOf(s: System, c: ConnId): Channel
    requires c in s.senders
  {
    Channel(s.senders[c].posted, Of(c, s.copied))
  }

  /** The channel operation that a protocol step performs on connection `c`. */
  function OpOf(s: System, t: Step, c: ConnId): ChannelOp {
    match t
    case Post(x, m) => if x == c then Send(m) else Nothing
    case CopyFront => if s.recv.backlog != [] && s.recv.backlog[0].conn == c then Receive else Nothing
    case _ => Nothing
  }

  /** Every protocol step is, on every connection, one step of the FIFO channel or no step at all:
      the copy takes exactly the oldest message that has not been received. */
  lemma StepRefinesChannel(cfg: Config, s: System, t: Step, c: ConnId)
    requires Inv(cfg, s) && Enabled(cfg, s, t) && c in s.senders
    ensures c in Apply(cfg, s, t).senders
    ensures ChannelStep(ChannelOf(s, c), OpOf(s, t, c), ChannelOf(Apply(cfg, s, t), c))
  {
    if t.CopyFront? {
      CopyReceivesOldest(cfg, s, c);
    } else {
      OthersOnlyPost(cfg, s, t, c);
    }
  }

  lemma OthersOnlyPost(cfg: Config, s: System, t: Step, c: ConnId)
    requires Shape(cfg, s) && Enabled(cfg, s, t) && !t.CopyFront? && c in s.senders
    ensures c in Apply(cfg, s, t).senders
    ensures Apply(cfg, s, t).copied == s.copied
    ensures Apply(cfg, s, t).senders[c].posted ==
      if t.Post? && t.c == c then s.senders[c].posted + [t.m] else s.senders[c].posted
  {
  }

  lemma CopyReceivesOldest(cfg: Config, s: System, c: ConnId)
    requires Shape(cfg, s) && Enabled(cfg, s, CopyFront) && c in s.senders && InvAt(cfg, s, c)
    ensures c in FrontCopied(cfg, s).senders
    ensures ChannelStep(ChannelOf(s, c), OpOf(s, CopyFront, c), ChannelOf(FrontCopied(cfg, s), c))
  {
    FrontOf(c, s.recv.backlog);
    assert s.recv.backlog[0] in s.recv.backlog;
    OfAppend(c, s.copied, Tagged(s.recv.backlog[0].conn, FrontMessage(cfg, s.recv)));
    if s.recv.backlog[0].conn == c {
      CopyKeeps(cfg, LinkOf(s, c));
    }
  }

  /** Over every run: what has been copied out of a connection is a prefix of what was posted on it,
      and all of it once the wire, the event queue and the backlog hold nothing of that connection. */
  lemma CopiedIsPrefixOfPosted(cfg: Config, ts: seq<Step>, c: ConnId)
    requires cfg.Valid() && ValidRun(cfg, Init(cfg), ts)
    ensures var s := After(cfg, Init(cfg), ts);
      c in s.senders ==>
        && Of(c, s.copied) <= s.senders[c].posted
        && (s.senders[c].wire == [] && Of(c, s.arrivals) == [] && Of(c, s.recv.backlog) == [] ==>
              Of(c, s.copied) == s.senders[c].posted)
  {
    InitInv(cfg);
    RunKeepsInv(cfg, Init(cfg), ts);
    var s := After(cfg, Init(cfg), ts);
    assert c in s.senders ==> InvAt(cfg, s, c);
  }
}
