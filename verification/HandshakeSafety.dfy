/** What the handshake achieves: no deadlock, bounded runs, and two ends wired to each other, whatever
    the interleaving and however the reads and writes are cut short. */
module HandshakeSafety {
  import opened Common
  import opened Handshake

  /** The handshake between a client and a server, with the bytes in flight in each direction. */
  datatype System = System(client: Side, server: Side, toServer: seq<byte>, toClient: seq<byte>)

  /** The socket buffers hold at least one byte in each direction. */
  datatype Params = Params(idLen: nat, cap: nat, client: Own, server: Own) {
    predicate Valid() {
      cap > 0 && client.Valid(idLen) && server.Valid(idLen) && server.hasQueue
    }
  }

  datatype Step = Write(who: Role, n: nat) | Read(who: Role, n: nat)

  function Init(p: Params): System {
    System(Start(Client, p.client), Start(Server, p.server), [], [])
  }

  predicate Enabled(p: Params, s: System, t: Step) {
    match t
    case Write(Client, n) => CanWrite(p.idLen, s.client, s.toServer, p.cap, n)
    case Write(Server, n) => CanWrite(p.idLen, s.server, s.toClient, p.cap, n)
    case Read(Client, n) => CanRead(p.idLen, s.client, s.toClient, n)
    case Read(Server, n) => CanRead(p.idLen, s.server, s.toServer, n)
  }

  /** The wiring that a process has built once it has completed all the exchanges before `k`. */
  function Wiring(role: Role, own: Own, peer: Own, k: Kind, second: bool): Conn {
    if k == Instance then Conn(None, None, None)
    else
      var late := k == Sync || k == Finished;
      if role == Client then
        Conn(Some(peer.identity),
             Some(SendMbox(
               peer.msgMaxsize, if k == FirstAttrs then Zeros(REGION_LEN) else peer.recvMbox, own.sendCredits)),
             if late && second then Some(RecvMbox(own.msgMaxsize, own.recvMbox, peer.sendCredits)) else None)
      else
        Conn(Some(peer.identity),
             if late && second then Some(SendMbox(peer.msgMaxsize, peer.recvMbox, own.sendCredits)) else None,
             Some(RecvMbox(own.msgMaxsize, own.recvMbox, if k == FirstAttrs then own.ownCredits else peer.sendCredits)))
  }

  function PeerRole(r: Role): Role {
    if r == Client then Server else Client
  }

  /** What a process knows at the start of, and throughout, exchange `x.kind`. */
  predicate Knows(idLen: nat, x: Side, peer: Own, second: bool) {
    && x.own.Valid(idLen) && peer.Valid(idLen)
    && second == (if x.role == Client then x.own else peer).hasQueue
    && (x.role == Client ==> peer.hasQueue)
    && (x.kind == SecondAttrs ==> second)
    && (x.role == Client || x.kind != Instance ==> x.second == second)
    && (x.role == Server && x.kind != Instance && second ==> x.clientMax == peer.msgMaxsize)
    && x.conn == Wiring(x.role, x.own, peer, x.kind, second)
  }

  predicate SideInv(idLen: nat, x: Side, peer: Own, second: bool) {
    Knows(idLen, x, peer, second) && Halves(idLen, x, Outgoing(idLen, PeerRole(x.role), peer, x.kind))
  }

  /** Inside one exchange, `incoming` being the peer's message. */
  predicate Halves(idLen: nat, x: Side, incoming: seq<byte>) {
    if x.kind == Finished then !x.writing && x.inbuf == []
    else if x.writing then
      x.done < Length(idLen, x.kind) && x.inbuf == if Leads(x.role, x.kind) then [] else incoming
    else
      |x.inbuf| < Length(idLen, x.kind) == |incoming| && x.inbuf == incoming[..|x.inbuf|] && x.done == 0
  }

  lemma StartSideInv(idLen: nat, role: Role, own: Own, peer: Own)
    requires own.Valid(idLen) && peer.Valid(idLen) && (role == Client ==> peer.hasQueue)
    ensures SideInv(idLen, Start(role, own), peer, (if role == Client then own else peer).hasQueue)
    ensures Written(idLen, Start(role, own), true) == Consumed(idLen, Start(role, own), true) == 0
    ensures Written(idLen, Start(role, own), false) == Consumed(idLen, Start(role, own), false) == 0
  {
  }

  /** The identity and the three numbers of an exchanged instance message. */
  lemma InstanceFields(idLen: nat, own: Own, a: nat, b: nat, c: nat)
    requires own.Valid(idLen) && a < MAX_U32 && b < MAX_U32 && c < MAX_U32
    ensures var m := InstanceMessage(own, a, b, c);
      |m| == idLen + 12 && m[..idLen] == own.identity && Decode32(m[idLen..idLen + 4]) == a &&
      Decode32(m[idLen + 4..idLen + 8]) == b && Decode32(m[idLen + 8..]) == c
  {
    var m := InstanceMessage(own, a, b, c);
    assert m[..idLen] == own.identity;
    assert m[idLen..idLen + 4] == Encode32(a);
    assert m[idLen + 4..idLen + 8] == Encode32(b);
    assert m[idLen + 8..] == Encode32(c);
  }

  lemma LearnWires(idLen: nat, x: Side, peer: Own, second: bool)
    requires Knows(idLen, x, peer, second) && x.kind != Finished
    requires x.inbuf == Outgoing(idLen, PeerRole(x.role), peer, x.kind)
    ensures Knows(idLen, NextExchange(Learn(idLen, x)), peer, second)
  {
    if x.kind == Instance {
      InstanceFields(idLen, peer, peer.msgMaxsize, 0, 0);
      InstanceFields(idLen, peer, 0, 1, peer.msgMaxsize);
      InstanceFields(idLen, peer, 0, 0, 0);
    } else if x.kind == FirstAttrs || x.kind == SecondAttrs {
      assert x.inbuf == x.inbuf[..REGION_LEN] + x.inbuf[REGION_LEN..];
    }
  }

  /** A process that has both written and read its message of an exchange takes over what the peer has
      sent, and stands at the beginning of the next one. */
  lemma ExchangeKeepsInv(idLen: nat, x: Side, peer: Own, second: bool)
    requires Knows(idLen, x, peer, second) && x.kind != Finished
    requires x.inbuf == Outgoing(idLen, PeerRole(x.role), peer, x.kind)
    ensures var y := NextExchange(Learn(idLen, x));
      && SideInv(idLen, y, peer, second) && y.role == x.role && y.own == x.own
      && Written(idLen, y, second) == Consumed(idLen, y, second)
      && Consumed(idLen, y, second) == Offset(idLen, x.kind, second) + Length(idLen, x.kind)
  {
    LearnWires(idLen, x, peer, second);
  }

  lemma WriteKeeps(idLen: nat, x: Side, peer: Own, second: bool, n: nat)
    requires SideInv(idLen, x, peer, second)
    requires x.writing && 1 <= n <= Length(idLen, x.kind) - x.done
    ensures Leads(x.role, x.kind) || |x.inbuf| == Length(idLen, x.kind)
    ensures var y := AfterWrite(idLen, x, n);
      && SideInv(idLen, y, peer, second) && y.role == x.role && y.own == x.own
      && Written(idLen, y, second) == Written(idLen, x, second) + n
      && Consumed(idLen, y, second) == Consumed(idLen, x, second)
  {
    if x.done + n == Length(idLen, x.kind) && !Leads(x.role, x.kind) {
      ExchangeKeepsInv(idLen, x, peer, second);
    }
  }

  lemma ReadKeeps(idLen: nat, x: Side, peer: Own, second: bool, n: nat)
    requires SideInv(idLen, x, peer, second)
    requires !x.writing && 1 <= n <= Length(idLen, x.kind) - |x.inbuf|
    ensures var y := AfterRead(idLen, x, Outgoing(idLen, PeerRole(x.role), peer, x.kind)[|x.inbuf|..|x.inbuf| + n]);
      && SideInv(idLen, y, peer, second) && y.role == x.role && y.own == x.own
      && Written(idLen, y, second) == Written(idLen, x, second)
      && Consumed(idLen, y, second) == Consumed(idLen, x, second) + n
  {
    var incoming := Outgoing(idLen, PeerRole(x.role), peer, x.kind);
    var y := x.(inbuf := x.inbuf + incoming[|x.inbuf|..|x.inbuf| + n]);
    assert y.inbuf == incoming[..|x.inbuf| + n];
    if |y.inbuf| == Length(idLen, x.kind) {
      assert y.inbuf == incoming;
      if Leads(x.role, x.kind) {
        ExchangeKeepsInv(idLen, y, peer, second);
      }
    }
  }

  // ----- the system -----

  /** The bytes in flight from `w` to `r` are those of `w`'s stream that `w` has written and `r` has not
      yet read. */
  predicate PipeInv(idLen: nat, stream: seq<byte>, pipe: seq<byte>, w: Side, r: Side, second: bool) {
    && Consumed(idLen, r, second) <= Written(idLen, w, second) <= |stream|
    && pipe == stream[Consumed(idLen, r, second)..Written(idLen, w, second)]
  }

  /** Two sides with their streams, and the bytes in flight from `a` to `b` and back. */
  predicate PairInv(idLen: nat, a: Side, b: Side, sa: seq<byte>, sb: seq<byte>, ab: seq<byte>, ba: seq<byte>,
                    second: bool)
  {
    && SideInv(idLen, a, b.own, second) && SideInv(idLen, b, a.own, second)
    && PipeInv(idLen, sa, ab, a, b, second) && PipeInv(idLen, sb, ba, b, a, second)
  }

  predicate Inv(p: Params, s: System) {
    var second := p.client.hasQueue;
    && p.Valid()
    && s.client.role == Client && s.client.own == p.client
    && s.server.role == Server && s.server.own == p.server
    && PairInv(p.idLen, s.client, s.server, Stream(p.idLen, Client, p.client, second),
               Stream(p.idLen, Server, p.server, second), s.toServer, s.toClient, second)
  }

  function Chunk(idLen: nat, x: Side, n: nat): seq<byte>
    requires x.own.Valid(idLen) && x.done + n <= Length(idLen, x.kind)
  {
    Outgoing(idLen, x.role, x.own, x.kind)[x.done..x.done + n]
  }

  function Apply(p: Params, s: System, t: Step): System
    requires Inv(p, s) && Enabled(p, s, t)
  {
    match t
    case Write(Client, n) =>
      s.(client := AfterWrite(p.idLen, s.client, n), toServer := s.toServer + Chunk(p.idLen, s.client, n))
    case Write(Server, n) =>
      s.(server := AfterWrite(p.idLen, s.server, n), toClient := s.toClient + Chunk(p.idLen, s.server, n))
    case Read(Client, n) =>
      s.(client := AfterRead(p.idLen, s.client, s.toClient[..n]), toClient := s.toClient[n..])
    case Read(Server, n) =>
      s.(server := AfterRead(p.idLen, s.server, s.toServer[..n]), toServer := s.toServer[n..])
  }

  lemma InitInv(p: Params)
    requires p.Valid()
    ensures Inv(p, Init(p))
  {
    StartSideInv(p.idLen, Client, p.client, p.server);
    StartSideInv(p.idLen, Server, p.server, p.client);
  }

  predicate MessageAt(stream: seq<byte>, off: nat, msg: seq<byte>) {
    off + |msg| <= |stream| && forall k | 0 <= k < |msg| :: stream[off + k] == msg[k]
  }

  lemma StreamMessage(idLen: nat, role: Role, own: Own, second: bool, k: Kind)
    requires own.Valid(idLen) && (k == SecondAttrs ==> second)
    ensures MessageAt(Stream(idLen, role, own, second), Offset(idLen, k, second), Outgoing(idLen, role, own, k))
  {
  }

  /** Writing the next `n` bytes of a message that lies at `off` in the stream. */
  lemma NextChunk(stream: seq<byte>, i: nat, off: nat, msg: seq<byte>, done: nat, n: nat)
    requires MessageAt(stream, off, msg) && i <= off + done && done + n <= |msg|
    ensures stream[i..off + done] + msg[done..done + n] == stream[i..off + done + n]
  {
    assert forall k | done <= k < done + n :: stream[off + k] == msg[k];
  }

  /** Reading the next `n` bytes of a message that lies at `off` in the stream. */
  lemma NextRead(stream: seq<byte>, off: nat, msg: seq<byte>, done: nat, n: nat, w: nat)
    requires MessageAt(stream, off, msg) && done + n <= |msg| && off + done + n <= w <= |stream|
    ensures stream[off + done..w][..n] == msg[done..done + n]
    ensures stream[off + done..w][n..] == stream[off + done + n..w]
  {
    assert forall k | done <= k < done + n :: stream[off + k] == msg[k];
  }

  /** A write appends the next bytes of the stream to the bytes in flight. */
  lemma WriteGrowsPipe(idLen: nat, stream: seq<byte>, pipe: seq<byte>, w: Side, r: Side, second: bool, n: nat)
    requires w.own.Valid(idLen) && w.writing && n <= Length(idLen, w.kind) - w.done
    requires PipeInv(idLen, stream, pipe, w, r, second)
    requires MessageAt(stream, Offset(idLen, w.kind, second), Outgoing(idLen, w.role, w.own, w.kind))
    ensures var i, j := Consumed(idLen, r, second), Written(idLen, w, second) + n;
      j <= |stream| && pipe + Chunk(idLen, w, n) == stream[i..j]
  {
    NextChunk(stream, Consumed(idLen, r, second), Offset(idLen, w.kind, second),
              Outgoing(idLen, w.role, w.own, w.kind), w.done, n);
  }

  lemma PairWrite(idLen: nat, a: Side, b: Side, sa: seq<byte>, sb: seq<byte>, ab: seq<byte>, ba: seq<byte>,
                  second: bool, n: nat)
    requires PairInv(idLen, a, b, sa, sb, ab, ba, second)
    requires MessageAt(sa, Offset(idLen, a.kind, second), Outgoing(idLen, a.role, a.own, a.kind))
    requires a.writing && 1 <= n <= Length(idLen, a.kind) - a.done
    ensures Leads(a.role, a.kind) || |a.inbuf| == Length(idLen, a.kind)
    ensures PairInv(idLen, AfterWrite(idLen, a, n), b, sa, sb, ab + Chunk(idLen, a, n), ba, second)
  {
    WriteKeeps(idLen, a, b.own, second, n);
    WriteGrowsPipe(idLen, sa, ab, a, b, second, n);
  }

  /** The bytes that a reader takes are the next ones of the message it is reading. */
  lemma ReadTakesMessage(idLen: nat, stream: seq<byte>, pipe: seq<byte>, w: Side, r: Side, msg: seq<byte>,
                         second: bool, n: nat)
    requires PipeInv(idLen, stream, pipe, w, r, second) && MessageAt(stream, Offset(idLen, r.kind, second), msg)
    requires !r.writing && |r.inbuf| + n <= |msg| && n <= |pipe|
    ensures pipe[..n] == msg[|r.inbuf|..|r.inbuf| + n]
    ensures var i, j := Consumed(idLen, r, second) + n, Written(idLen, w, second);
      pipe[n..] == stream[i..j]
  {
    NextRead(stream, Offset(idLen, r.kind, second), msg, |r.inbuf|, n, Written(idLen, w, second));
  }

  lemma ReadSide(idLen: nat, stream: seq<byte>, pipe: seq<byte>, w: Side, r: Side, second: bool, n: nat)
    requires SideInv(idLen, r, w.own, second) && w.role == PeerRole(r.role)
    requires PipeInv(idLen, stream, pipe, w, r, second)
    requires MessageAt(stream, Offset(idLen, r.kind, second), Outgoing(idLen, w.role, w.own, r.kind))
    requires !r.writing && 1 <= n <= Length(idLen, r.kind) - |r.inbuf| && n <= |pipe|
    ensures var y := AfterRead(idLen, r, pipe[..n]);
      && SideInv(idLen, y, w.own, second) && Written(idLen, y, second) == Written(idLen, r, second)
      && Consumed(idLen, y, second) == Consumed(idLen, r, second) + n
      && PipeInv(idLen, stream, pipe[n..], w, y, second)
  {
    ReadTakesMessage(idLen, stream, pipe, w, r, Outgoing(idLen, w.role, w.own, r.kind), second, n);
    ReadKeeps(idLen, r, w.own, second, n);
  }

  lemma PairRead(idLen: nat, a: Side, b: Side, sa: seq<byte>, sb: seq<byte>, ab: seq<byte>, ba: seq<byte>,
                 second: bool, n: nat)
    requires PairInv(idLen, a, b, sa, sb, ab, ba, second) && b.role == PeerRole(a.role)
    requires MessageAt(sb, Offset(idLen, a.kind, second), Outgoing(idLen, b.role, b.own, a.kind))
    requires !a.writing && 1 <= n <= Length(idLen, a.kind) - |a.inbuf| && n <= |ba|
    ensures PairInv(idLen, AfterRead(idLen, a, ba[..n]), b, sa, sb, ab, ba[n..], second)
  {
    ReadSide(idLen, sb, ba, b, a, second, n);
  }

  lemma WriteKeepsInv(p: Params, s: System, who: Role, n: nat)
    requires Inv(p, s) && Enabled(p, s, Write(who, n))
    ensures Inv(p, Apply(p, s, Write(who, n)))
  {
    var second := p.client.hasQueue;
    var sc, ss := Stream(p.idLen, Client, p.client, second), Stream(p.idLen, Server, p.server, second);
    if who == Client {
      StreamMessage(p.idLen, Client, p.client, second, s.client.kind);
      PairWrite(p.idLen, s.client, s.server, sc, ss, s.toServer, s.toClient, second, n);
    } else {
      StreamMessage(p.idLen, Server, p.server, second, s.server.kind);
      PairWrite(p.idLen, s.server, s.client, ss, sc, s.toClient, s.toServer, second, n);
    }
  }

  lemma ReadKeepsInv(p: Params, s: System, who: Role, n: nat)
    requires Inv(p, s) && Enabled(p, s, Read(who, n))
    ensures Inv(p, Apply(p, s, Read(who, n)))
  {
    var second := p.client.hasQueue;
    var sc, ss := Stream(p.idLen, Client, p.client, second), Stream(p.idLen, Server, p.server, second);
    if who == Client {
      StreamMessage(p.idLen, Server, p.server, second, s.client.kind);
      PairRead(p.idLen, s.client, s.server, sc, ss, s.toServer, s.toClient, second, n);
    } else {
      StreamMessage(p.idLen, Client, p.client, second, s.server.kind);
      PairRead(p.idLen, s.server, s.client, ss, sc, s.toClient, s.toServer, second, n);
    }
  }

  lemma StepKeepsInv(p: Params, s: System, t: Step)
    requires Inv(p, s) && Enabled(p, s, t)
    ensures Inv(p, Apply(p, s, t))
  {
    match t
    case Write(who, n) => WriteKeepsInv(p, s, who, n);
    case Read(who, n) => ReadKeepsInv(p, s, who, n);
  }

  // ----- whole runs -----

  predicate ValidRun(p: Params, s: System, ts: seq<Step>)
    requires Inv(p, s)
    decreases |ts|
  {
    ts == [] || (Enabled(p, s, ts[0]) && (StepKeepsInv(p, s, ts[0]); ValidRun(p, Apply(p, s, ts[0]), ts[1..])))
  }

  function After(p: Params, s: System, ts: seq<Step>): System
    requires Inv(p, s) && ValidRun(p, s, ts)
    decreases |ts|
  {
    if ts == [] then s
    else
      StepKeepsInv(p, s, ts[0]);
      After(p, Apply(p, s, ts[0]), ts[1..])
  }

  lemma {:induction false} RunKeepsInv(p: Params, s: System, ts: seq<Step>)
    requires Inv(p, s) && ValidRun(p, s, ts)
    ensures Inv(p, After(p, s, ts))
    decreases |ts|
  {
    if ts != [] {
      StepKeepsInv(p, s, ts[0]);
      RunKeepsInv(p, Apply(p, s, ts[0]), ts[1..]);
    }
  }

  predicate Done(s: System) {
    s.client.kind == Finished && s.server.kind == Finished
  }

  /** The number of bytes that still have to be written or read. */
  function Remaining(p: Params, s: System): int {
    var second := p.client.hasQueue;
    4 * Offset(p.idLen, Finished, second)
    - Written(p.idLen, s.client, second) - Written(p.idLen, s.server, second)
    - Consumed(p.idLen, s.client, second) - Consumed(p.idLen, s.server, second)
  }

  /** Unless both processes have finished, one of them can move a byte: the one whose turn it is to
      write finds room or the other one finds bytes to read. */
  lemma NoDeadlock(p: Params, s: System) returns (t: Step)
    requires Inv(p, s) && !Done(s)
    ensures Enabled(p, s, t)
  {
    var c, v := s.client, s.server;
    if c.writing {
      t := if |s.toServer| < p.cap then Write(Client, 1) else Read(Server, 1);
    } else if v.writing {
      t := if |s.toClient| < p.cap then Write(Server, 1) else Read(Client, 1);
    } else if c.kind == Finished {
      t := Read(Server, 1);
    } else if v.kind == Finished {
      t := Read(Client, 1);
    } else {
      t := if |s.toServer| > 0 then Read(Server, 1) else Read(Client, 1);
    }
  }

  lemma WriteMovesBytes(p: Params, s: System, who: Role, n: nat)
    requires Inv(p, s) && Enabled(p, s, Write(who, n))
    ensures Remaining(p, Apply(p, s, Write(who, n))) == Remaining(p, s) - n
  {
    if who == Client {
      WriteKeeps(p.idLen, s.client, p.server, p.client.hasQueue, n);
    } else {
      WriteKeeps(p.idLen, s.server, p.client, p.client.hasQueue, n);
    }
  }

  lemma ReadMovesBytes(p: Params, s: System, who: Role, n: nat)
    requires Inv(p, s) && Enabled(p, s, Read(who, n))
    ensures Remaining(p, Apply(p, s, Read(who, n))) == Remaining(p, s) - n
  {
    var second := p.client.hasQueue;
    if who == Client {
      StreamMessage(p.idLen, Server, p.server, second, s.client.kind);
      ReadSide(p.idLen, Stream(p.idLen, Server, p.server, second), s.toClient, s.server, s.client, second, n);
    } else {
      StreamMessage(p.idLen, Client, p.client, second, s.server.kind);
      ReadSide(p.idLen, Stream(p.idLen, Client, p.client, second), s.toServer, s.client, s.server, second, n);
    }
  }

  lemma RemainingIsNatural(p: Params, s: System)
    requires Inv(p, s)
    ensures Remaining(p, s) >= 0
  {
  }

  /** A run cannot have more steps than there are bytes to write and to read. */
  lemma {:induction false} RunsAreBounded(p: Params, s: System, ts: seq<Step>)
    requires Inv(p, s) && ValidRun(p, s, ts)
    ensures |ts| <= Remaining(p, s)
    decreases |ts|
  {
    RemainingIsNatural(p, s);
    if ts != [] {
      StepKeepsInv(p, s, ts[0]);
      match ts[0] {
        case Write(who, n) => WriteMovesBytes(p, s, who, n);
        case Read(who, n) => ReadMovesBytes(p, s, who, n);
      }
      RunsAreBounded(p, Apply(p, s, ts[0]), ts[1..]);
    }
  }

  /** The two ends belong to each other: either side sends into the mailbox that the other one receives
      from, with the same message size, and gets its credits back in its own counter. */
  predicate Wired(c: Conn, v: Conn, bidirectional: bool) {
    && c.send.Some? && v.recv.Some?
    && c.send.value.mbox == v.recv.value.mbox && c.send.value.msgMaxsize == v.recv.value.msgMaxsize
    && v.recv.value.credits == c.send.value.credits
    && c.recv.Some? == v.send.Some? == bidirectional
    && (bidirectional ==>
          && v.send.value.mbox == c.recv.value.mbox && v.send.value.msgMaxsize == c.recv.value.msgMaxsize
          && c.recv.value.credits == v.send.value.credits)
  }

  /** The closing exchange: as soon as one side has come through it, both ends are wired, and the
      server cannot be left behind once the client is through. */
  lemma FinishedMeansBothWired(p: Params, s: System)
    requires Inv(p, s) && (s.client.kind == Finished || s.server.kind == Finished)
    ensures Wired(s.client.conn, s.server.conn, p.client.hasQueue)
    ensures s.client.conn.peer == Some(p.server.identity) && s.server.conn.peer == Some(p.client.identity)
    ensures s.client.kind == Finished ==> s.server.kind == Finished && s.toServer == [] && s.toClient == []
  {
  }

  /** Every run from the start is bounded, and when it cannot go on, both processes have finished and
      are wired to each other. */
  lemma {:induction false} EveryRunEndsWired(p: Params, ts: seq<Step>)
    requires p.Valid() && (InitInv(p); ValidRun(p, Init(p), ts))
    ensures |ts| <= 4 * Offset(p.idLen, Finished, p.client.hasQueue)
    ensures var s := (InitInv(p); After(p, Init(p), ts));
      (forall t :: !Enabled(p, s, t)) ==> Done(s) && Wired(s.client.conn, s.server.conn, p.client.hasQueue)
  {
    InitInv(p);
    RunsAreBounded(p, Init(p), ts);
    RunKeepsInv(p, Init(p), ts);
    var s := After(p, Init(p), ts);
    if !Done(s) {
      var t := NoDeadlock(p, s);
    } else {
      FinishedMeansBothWired(p, s);
    }
  }
}
