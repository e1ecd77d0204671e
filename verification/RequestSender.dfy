/** The sending side of the Gemini request queue: taking a credit while the receiver returns credits
    concurrently, posting into the next mailbox slot, and the per-peer queues of requests that found
    no credit. */
module RequestSender {
  import opened Common
  import opened FlowControl

  /** One connection's sending state.  `returned` counts the credits the receiver has given back and
      `handed` collects every message ever given to this connection. */
  datatype Outgoing = Outgoing(
    credits: int, returned: nat, mboxIndex: nat, posted: seq<Packet>, handed: multiset<Message>)

  function Payloads(ps: seq<Packet>): (r: seq<Message>)
    ensures |r| == |ps|
    ensures forall k | 0 <= k < |r| :: r[k] == ps[k].payload
  {
    seq(|ps|, k requires 0 <= k < |ps| => ps[k].payload)
  }

  function Queue(resend: map<ConnId, seq<Message>>, c: ConnId): seq<Message> {
    if c in resend then resend[c] else []
  }

  /** Credits neither appear nor vanish: each post used one, each return gave one. */
  function Balance(o: Outgoing): int {
    o.credits + |o.posted| - o.returned
  }

  predicate CreditsInRange(maxCredits: nat, o: Outgoing) {
    0 <= o.credits <= maxCredits
  }

  /** Posts fill the mailbox slots in turn, and every message handed over is either posted or parked. */
  ghost predicate OutgoingValid(maxCredits: nat, o: Outgoing, parked: seq<Message>)
    requires maxCredits > 0
  {
    && CreditsInRange(maxCredits, o)
    && |o.posted| == o.mboxIndex
    && (forall k | 0 <= k < |o.posted| :: o.posted[k].slot == k % maxCredits)
    && multiset(Payloads(o.posted)) + multiset(parked) == o.handed
  }

  lemma PostOne(ps: seq<Packet>, p: Packet)
    ensures Payloads(ps + [p]) == Payloads(ps) + [p.payload]
    ensures multiset(Payloads(ps + [p])) == multiset(Payloads(ps)) + multiset{p.payload}
  {
    assert Payloads(ps + [p]) == Payloads(ps) + [p.payload];
  }

  /** The receiver gives back any number of credits that it may hold. */
  method CreditsComeBack(maxCredits: nat, o: Outgoing) returns (after: Outgoing)
    requires CreditsInRange(maxCredits, o)
    ensures CreditsInRange(maxCredits, after) && after.credits >= o.credits
    ensures after == o.(credits := after.credits, returned := o.returned + (after.credits - o.credits))
  {
    var gain: nat :| o.credits + gain <= maxCredits;
    after := o.(credits := o.credits + gain, returned := o.returned + gain);
  }

  /** Takes one credit exactly when it reports success, whatever comes back before each of its atomic
      operations; fails only if there was no credit when it was called.  Each retry saw the counter
      rise, and the counter is bounded, so the loop ends. */
  method CreditsAvailable(maxCredits: nat, o: Outgoing) returns (ok: bool, after: Outgoing)
    requires CreditsInRange(maxCredits, o)
    ensures CreditsInRange(maxCredits, after) && after.returned >= o.returned
    ensures after == o.(credits := after.credits, returned := after.returned)
    ensures after.credits == o.credits + (after.returned - o.returned) - (if ok then 1 else 0)
    ensures !ok ==> o.credits == 0 && after == o
  {
    after := o;
    ghost var floor := -1;
    while true
      invariant CreditsInRange(maxCredits, after) && after.returned >= o.returned
      invariant after == o.(credits := after.credits, returned := after.returned)
      invariant after.credits == o.credits + (after.returned - o.returned)
      invariant -1 <= floor < after.credits && (floor == -1 || floor > 0)
      decreases maxCredits - floor
    {
      after := CreditsComeBack(maxCredits, after);
      var fetched := after.credits;
      if fetched <= 0 {
        return false, after;
      }
      after := CreditsComeBack(maxCredits, after);
      var amoResult := after.credits;
      if amoResult == fetched {
        after := after.(credits := fetched - 1);
      }
      if amoResult > fetched {
        floor := fetched;
      } else {
        return amoResult == fetched, after;
      }
    }
  }

  /** One attempt to send either leaves the connection as it was, for want of a credit, or posts the
      message into the slot after the previous one. */
  method ExecuteSend(maxCredits: nat, o: Outgoing, m: Message) returns (ok: bool, after: Outgoing)
    requires maxCredits > 0 && CreditsInRange(maxCredits, o)
    ensures CreditsInRange(maxCredits, after) && Balance(after) == Balance(o)
    ensures ok ==> after.posted == o.posted + [Packet(o.mboxIndex % maxCredits, m)]
    ensures ok ==> after.mboxIndex == o.mboxIndex + 1 && after.handed == o.handed && after.returned >= o.returned
    ensures !ok ==> o.credits == 0 && after == o
  {
    ok, after := CreditsAvailable(maxCredits, o);
    if ok {
      var mboxIndex := after.mboxIndex;
      after := after.(mboxIndex := mboxIndex + 1, posted := after.posted + [Packet(mboxIndex % maxCredits, m)]);
    }
  }

  /** `o` is what the flow control knows about the sending state of connection `c`. */
  ghost predicate Matches(o: Outgoing, s: System, c: ConnId) {
    && c in s.senders && c in s.recv.inbound
    && o.credits == s.recv.inbound[c].credits
    && o.mboxIndex == s.senders[c].mboxIndex
    && Payloads(o.posted) == s.senders[c].posted
  }

  /** A successful attempt with no credits returned meanwhile is a run of the flow control: fetch,
      compare-and-swap, post; it leaves both descriptions in agreement. */
  lemma SendIsARun(cfg: Config, s: System, c: ConnId, o: Outgoing, m: Message)
    requires Shape(cfg, s) && Matches(o, s, c) && s.senders[c].pc == Idle && o.credits > 0
    ensures var ts := SendSteps(c, m);
      var p := Packet(o.mboxIndex % cfg.maxCredits, m);
      && ValidRun(cfg, s, ts) && c in After(cfg, s, ts).senders
      && Matches(o.(credits := o.credits - 1, mboxIndex := o.mboxIndex + 1, posted := o.posted + [p]),
                 After(cfg, s, ts), c)
      && After(cfg, s, ts).senders[c].wire == s.senders[c].wire + [p]
  {
    var s1 := CreditsFetched(cfg, s, c);
    TakeAndPost(cfg, s1, c, m);
    RunCons(cfg, s, Fetch(c), TakeSteps(c, m));
    PostOne(o.posted, Packet(o.mboxIndex % cfg.maxCredits, m));
  }

  function SendSteps(c: ConnId, m: Message): seq<Step> {
    [Fetch(c)] + TakeSteps(c, m)
  }

  function TakeSteps(c: ConnId, m: Message): seq<Step> {
    [CompareSwap(c)] + ([Post(c, m)] + [])
  }

  lemma TakeAndPost(cfg: Config, s: System, c: ConnId, m: Message)
    requires Shape(cfg, s) && c in s.senders && s.senders[c].pc == Fetched(s.recv.inbound[c].credits)
    ensures ValidRun(cfg, s, TakeSteps(c, m))
    ensures var s' := After(cfg, s, TakeSteps(c, m));
      var o := s.senders[c];
      && c in s'.senders && c in s'.recv.inbound
      && s'.recv.inbound[c].credits == s.recv.inbound[c].credits - 1
      && s'.senders[c] == Outbound(
           Idle, o.mboxIndex + 1, o.wire + [Packet(o.mboxIndex % cfg.maxCredits, m)], o.posted + [m])
  {
    var s1 := CreditsSwapped(cfg, s, c);
    RunCons(cfg, s1, Post(c, m), []);
    RunCons(cfg, s, CompareSwap(c), [Post(c, m)] + []);
  }

  /** A new request is posted if a credit can be had, and otherwise goes behind the parked ones. */
  method SendOrPark(maxCredits: nat, o: Outgoing, parked: seq<Message>, m: Message)
    returns (ok: bool, after: Outgoing, rest: seq<Message>)
    requires maxCredits > 0 && OutgoingValid(maxCredits, o, parked)
    ensures OutgoingValid(maxCredits, after, rest) && after.handed == o.handed + multiset{m}
    ensures Payloads(after.posted) == Payloads(o.posted) + (if ok then [m] else [])
    ensures rest == if ok then parked else parked + [m]
    ensures !ok ==> o.credits == 0
  {
    ok, after := ExecuteSend(maxCredits, o, m);
    rest := parked;
    if ok {
      PostOne(o.posted, after.posted[o.mboxIndex]);
    } else {
      rest := parked + [m];
    }
    after := after.(handed := after.handed + multiset{m});
  }

  /** What one pass over the resend queues does at a connection: posted followed by parked stays the
      same sequence, so a prefix of the parked messages has moved; what is left behind means that all
      the credits there were, and more if more came back, are used up. */
  ghost predicate Resent(o: Outgoing, parked: seq<Message>, after: Outgoing, rest: seq<Message>) {
    && Payloads(after.posted) + rest == Payloads(o.posted) + parked
    && o.posted <= after.posted && after.handed == o.handed
    && (rest != [] ==> |after.posted| - |o.posted| >= o.credits)
    && Balance(after) == Balance(o) && after.returned >= o.returned
  }

  lemma FrontMoves(posted: seq<Message>, rest: seq<Message>)
    requires rest != []
    ensures (posted + [rest[0]]) + rest[1..] == posted + rest
    ensures multiset(rest) == multiset{rest[0]} + multiset(rest[1..])
  {
    assert rest == [rest[0]] + rest[1..];
  }

  lemma FrontIsPosted(maxCredits: nat, o: Outgoing, after: Outgoing, rest: seq<Message>)
    requires maxCredits > 0 && rest != [] && OutgoingValid(maxCredits, o, rest) && CreditsInRange(maxCredits, after)
    requires after.posted == o.posted + [Packet(o.mboxIndex % maxCredits, rest[0])]
    requires after.mboxIndex == o.mboxIndex + 1 && after.handed == o.handed
    ensures OutgoingValid(maxCredits, after, rest[1..])
    ensures Payloads(after.posted) + rest[1..] == Payloads(o.posted) + rest
  {
    PostOne(o.posted, after.posted[o.mboxIndex]);
    FrontMoves(Payloads(o.posted), rest);
  }

  /** One peer's turn when everything is sent again: the parked messages go out in order until one
      finds no credit. */
  method ResendQueue(maxCredits: nat, o: Outgoing, parked: seq<Message>) returns (after: Outgoing, rest: seq<Message>)
    requires maxCredits > 0 && OutgoingValid(maxCredits, o, parked)
    ensures OutgoingValid(maxCredits, after, rest) && Resent(o, parked, after, rest)
  {
    after, rest := o, parked;
    while rest != []
      invariant OutgoingValid(maxCredits, after, rest) && after.handed == o.handed
      invariant Payloads(after.posted) + rest == Payloads(o.posted) + parked && o.posted <= after.posted
      invariant after.returned >= o.returned && Balance(after) == Balance(o)
      decreases |rest|
    {
      ghost var before := after;
      var ok;
      ok, after := ExecuteSend(maxCredits, after, rest[0]);
      if !ok {
        return;
      }
      FrontIsPosted(maxCredits, before, after, rest);
      rest := rest[1..];
    }
  }

  /** Only peers with parked messages have a resend queue. */
  ghost predicate SenderValid(maxCredits: nat, out: map<ConnId, Outgoing>, resend: map<ConnId, seq<Message>>) {
    && maxCredits > 0
    && resend.Keys <= out.Keys
    && (forall c | c in resend :: resend[c] != [])
    && (forall c | c in out :: OutgoingValid(maxCredits, out[c], Queue(resend, c)))
  }

  /** The resend map with `rest` as the queue of `c`; an empty queue is erased from the map. */
  function Parked(resend: map<ConnId, seq<Message>>, c: ConnId, rest: seq<Message>): (r: map<ConnId, seq<Message>>)
    ensures Queue(r, c) == rest
    ensures forall p | p != c :: (p in r <==> p in resend) && Queue(r, p) == Queue(resend, p)
  {
    if rest == [] then resend - {c} else resend[c := rest]
  }

  lemma UpdateKeepsValid(maxCredits: nat, out: map<ConnId, Outgoing>, resend: map<ConnId, seq<Message>>,
                         c: ConnId, after: Outgoing, rest: seq<Message>)
    requires SenderValid(maxCredits, out, resend) && c in out && OutgoingValid(maxCredits, after, rest)
    ensures SenderValid(maxCredits, out[c := after], Parked(resend, c, rest))
  {
    var out', resend' := out[c := after], Parked(resend, c, rest);
    forall p | p in out'
      ensures OutgoingValid(maxCredits, out'[p], Queue(resend', p))
    {
      if p != c {
        assert OutgoingValid(maxCredits, out[p], Queue(resend, p));
      }
    }
  }

  lemma ValidAt(maxCredits: nat, out: map<ConnId, Outgoing>, resend: map<ConnId, seq<Message>>, c: ConnId)
    requires SenderValid(maxCredits, out, resend) && c in out
    ensures OutgoingValid(maxCredits, out[c], Queue(resend, c))
    ensures Parked(resend, c, Queue(resend, c)) == resend
  {
  }

  /** Partway through a pass: the peers in `todo` still have their turn to come. */
  ghost predicate PassState(out0: map<ConnId, Outgoing>, resend0: map<ConnId, seq<Message>>,
                            out: map<ConnId, Outgoing>, resend: map<ConnId, seq<Message>>, todo: set<ConnId>)
  {
    && out.Keys == out0.Keys && todo <= resend.Keys && todo <= out0.Keys
    && (forall c | c in todo :: out[c] == out0[c] && Queue(resend, c) == Queue(resend0, c))
    && (forall c | c in out0 && c !in todo :: Resent(out0[c], Queue(resend0, c), out[c], Queue(resend, c)))
  }

  lemma TurnTaken(out0: map<ConnId, Outgoing>, resend0: map<ConnId, seq<Message>>,
                  out: map<ConnId, Outgoing>, resend: map<ConnId, seq<Message>>, todo: set<ConnId>,
                  c: ConnId, after: Outgoing, rest: seq<Message>)
    requires PassState(out0, resend0, out, resend, todo) && c in todo
    requires Resent(out0[c], Queue(resend0, c), after, rest)
    ensures PassState(out0, resend0, out[c := after], Parked(resend, c, rest), todo - {c})
  {
    var out', resend' := out[c := after], Parked(resend, c, rest);
    forall p | p in out0 && p !in todo - {c}
      ensures Resent(out0[p], Queue(resend0, p), out'[p], Queue(resend', p))
    {
      if p != c {
        assert out'[p] == out[p] && Queue(resend', p) == Queue(resend, p);
      }
    }
  }

  class Sender {
    const maxCredits: nat
    var out: map<ConnId, Outgoing>
    var resend: map<ConnId, seq<Message>>

    ghost predicate Valid()
      reads this
    {
      SenderValid(maxCredits, out, resend)
    }

    constructor (maxCredits: nat)
      requires maxCredits > 0
      ensures Valid() && this.maxCredits == maxCredits && out == map[] && resend == map[]
    {
      this.maxCredits := maxCredits;
      out, resend := map[], map[];
    }

    /** A new request is posted or parked behind the peer's parked requests, never both or neither. */
    method RequestSend(c: ConnId, m: Message) returns (ok: bool)
      requires Valid() && c in out
      modifies this
      ensures Valid() && c in out && out == old(out)[c := out[c]]
      ensures out[c].handed == old(out[c].handed) + multiset{m}
      ensures Payloads(out[c].posted) == Payloads(old(out[c].posted)) + (if ok then [m] else [])
      ensures resend == if ok then old(resend) else old(resend)[c := Queue(old(resend), c) + [m]]
      ensures ok || old(out[c].credits) == 0
    {
      ValidAt(maxCredits, out, resend, c);
      var after, rest;
      ok, after, rest := SendOrPark(maxCredits, out[c], Queue(resend, c), m);
      UpdateKeepsValid(maxCredits, out, resend, c, after, rest);
      out, resend := out[c := after], Parked(resend, c, rest);
    }

    method ResendPeer(c: ConnId)
      requires Valid() && c in resend
      modifies this
      ensures Valid() && c in out && out == old(out)[c := out[c]] && out.Keys == old(out.Keys)
      ensures resend == Parked(old(resend), c, Queue(resend, c))
      ensures Resent(old(out[c]), old(resend[c]), out[c], Queue(resend, c))
    {
      ValidAt(maxCredits, out, resend, c);
      var after, rest := ResendQueue(maxCredits, out[c], resend[c]);
      UpdateKeepsValid(maxCredits, out, resend, c, after, rest);
      out, resend := out[c := after], Parked(resend, c, rest);
    }

    /** Every peer with parked requests gets one turn, in no particular order. */
    method ResendAll()
      requires Valid()
      modifies this
      ensures Valid() && out.Keys == old(out.Keys)
      ensures forall c | c in out :: Resent(old(out)[c], Queue(old(resend), c), out[c], Queue(resend, c))
    {
      ghost var out0, resend0 := out, resend;
      var todo := resend.Keys;
      while todo != {}
        invariant Valid() && PassState(out0, resend0, out, resend, todo)
        decreases todo
      {
        var c :| c in todo;
        ghost var outBefore, resendBefore := out, resend;
        ResendPeer(c);
        TurnTaken(out0, resend0, outBefore, resendBefore, todo, c, out[c], Queue(resend, c));
        todo := todo - {c};
      }
    }
  }
}
