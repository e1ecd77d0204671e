/** The TCP handshake that wires the two ends of a connection.  Both routines are straight-line code
    over blocking reads and writes; here every single read or write may move any positive number of
    bytes that the socket allows, and the two processes interleave freely. */
module Handshake {
  import opened Common

  datatype Role = Client | Server

  /** The exchanges, in order; the second exchange of mailbox attributes only takes place if the client
      has a receive queue of its own. */
  datatype Kind = Instance | FirstAttrs | SecondAttrs | Sync | Finished

  /** An address and its memory handle, as they lie in the exchanged structure. */
  type Region = seq<byte>

  const REGION_LEN := 24
  const MAX_U32 := 0x1_0000_0000

  /** What a process brings to the handshake.  `stale` is whatever lies in the fields of an outgoing
      structure that have not been assigned; `ownCredits` is the counter address that a new receive
      mailbox starts with. */
  datatype Own = Own(hasQueue: bool, identity: seq<byte>, msgMaxsize: nat, recvMbox: Region, ownCredits: Region,
                     sendCredits: Region, stale: Region) {
    predicate Valid(idLen: nat) {
      && |identity| == idLen && msgMaxsize < MAX_U32
      && |recvMbox| == |ownCredits| == |sendCredits| == |stale| == REGION_LEN
    }
  }

  datatype SendMbox = SendMbox(msgMaxsize: nat, mbox: Region, credits: Region)

  datatype RecvMbox = RecvMbox(msgMaxsize: nat, mbox: Region, credits: Region)

  datatype Conn = Conn(peer: Option<seq<byte>>, send: Option<SendMbox>, recv: Option<RecvMbox>)

  /** One process inside the handshake: the exchange it is in, whether it is in the writing or in the
      reading half of it, bytes written and bytes read of this message, and what it has learnt. */
  datatype Side = Side(role: Role, own: Own, kind: Kind, writing: bool, done: nat, inbuf: seq<byte>,
                       second: bool, clientMax: nat, conn: Conn)

  // ----- the messages -----

  /** A 32-bit number as it lies in memory, lowest byte first. */
  function Encode32(v: nat): (r: seq<byte>)
    requires v < MAX_U32
    ensures |r| == 4 && Decode32(r) == v
    ensures r[0] as nat == v % 256 && r[3] as nat == v / 0x100_0000
  {
    var q1 := v / 256;
    var q2 := q1 / 256;
    var q3 := q2 / 256;
    assert q1 < 0x1_00_0000 && q2 < 0x1_0000 && q3 < 0x1_00;
    [(v % 256) as byte, (q1 % 256) as byte, (q2 % 256) as byte, q3 as byte]
  }

  function Decode32(s: seq<byte>): nat
    requires |s| == 4
  {
    s[0] as nat + 256 * (s[1] as nat + 256 * (s[2] as nat + 256 * s[3] as nat))
  }

  function Zeros(n: nat): (r: seq<byte>)
    ensures |r| == n
  {
    seq(n, _ => 0)
  }

  function Length(idLen: nat, k: Kind): nat {
    match k
    case Instance => idLen + 12
    case FirstAttrs | SecondAttrs => 2 * REGION_LEN
    case Sync => 4
    case Finished => 0
  }

  function InstanceMessage(own: Own, serverMax: nat, hasQueue: nat, clientMax: nat): seq<byte>
    requires serverMax < MAX_U32 && hasQueue < MAX_U32 && clientMax < MAX_U32
  {
    own.identity + Encode32(serverMax) + Encode32(hasQueue) + Encode32(clientMax)
  }

  /** What a process sends in each exchange. */
  function Outgoing(idLen: nat, role: Role, own: Own, k: Kind): (r: seq<byte>)
    requires own.Valid(idLen)
    ensures |r| == Length(idLen, k)
  {
    match k
    case Instance =>
      if role == Server then InstanceMessage(own, own.msgMaxsize, 0, 0)
      else if own.hasQueue then InstanceMessage(own, 0, 1, own.msgMaxsize)
      else InstanceMessage(own, 0, 0, 0)
    case FirstAttrs => if role == Client then own.stale + own.sendCredits else own.recvMbox + own.stale
    case SecondAttrs => own.recvMbox + own.sendCredits
    case Sync => Zeros(4)
    case Finished => []
  }

  // ----- reading a whole message -----

  /** What one read call may return when `want` bytes are asked for and `left` are still to come before
      the peer closes: an error, zero at the end, or any positive number of bytes. */
  predicate ReadReturns(n: int, want: nat, left: nat) {
    n < 0 || (n == 0 && left == 0) || (0 < n <= want && n <= left)
  }

  /** The results that a socket gives to one read call after the other, each asking for what is still missing of
      `want` bytes, with `left` bytes still to come. */
  predicate Answers(counts: seq<int>, want: nat, left: nat)
    decreases |counts|
  {
    want == 0 ||
    (counts != [] && ReadReturns(counts[0], want, left) &&
     (counts[0] > 0 ==> Answers(counts[1..], want - counts[0], left - counts[0])))
  }

  function Sum(counts: seq<int>): int {
    if counts == [] then 0 else counts[0] + Sum(counts[1..])
  }

  lemma {:induction false} SumAppend(counts: seq<int>, n: int)
    ensures Sum(counts + [n]) == Sum(counts) + n
  {
    if counts == [] {
      assert counts + [n] == [n] && [n][1..] == [];
    } else {
      ConcatTail(counts, [n]);
      SumAppend(counts[1..], n);
    }
  }

  /** Call number `k` is made and fails: all calls before it have returned bytes, and not yet enough. */
  predicate FailsAt(counts: seq<int>, want: nat, k: nat) {
    && k < |counts| && counts[k] < 0
    && (forall j | 0 <= j < k :: counts[j] > 0)
    && Sum(counts[..k]) < want
  }

  /** The first `k` calls have all returned bytes. */
  predicate NoFailureWithin(counts: seq<int>, k: nat)
    requires k <= |counts|
  {
    forall j | 0 <= j < k :: counts[j] > 0
  }

  lemma {:induction false} MoreIsMore(counts: seq<int>, k: nat)
    requires NoFailureWithin(counts, |counts|) && k <= |counts|
    ensures Sum(counts[..k]) <= Sum(counts)
    decreases |counts| - k
  {
    if k == |counts| {
      assert counts[..k] == counts;
    } else {
      assert counts[..k + 1] == counts[..k] + [counts[k]];
      SumAppend(counts[..k], counts[k]);
      MoreIsMore(counts, k + 1);
    }
  }

  /** Once the calls have returned all that was asked for, or the end of the stream, none has failed. */
  lemma NothingFailed(counts: seq<int>, want: nat, k: nat)
    requires k <= |counts| && NoFailureWithin(counts, k)
    requires Sum(counts[..k]) >= want || (k < |counts| && counts[k] == 0)
    ensures forall j: nat :: !FailsAt(counts, want, j)
  {
    forall j: nat | j < |counts| && counts[j] < 0 && forall i | 0 <= i < j :: counts[i] > 0
      ensures !FailsAt(counts, want, j)
    {
      if j > k {
        assert counts[k] > 0;
      }
      assert j >= k;
      if k <= j && Sum(counts[..k]) >= want {
        assert counts[..j][..k] == counts[..k];
        MoreIsMore(counts[..j], k);
      }
    }
  }

  lemma NextAnswer(counts: seq<int>, k: nat, want: nat, left: nat)
    requires k <= |counts| && Answers(counts[k..], want, left) && want > 0
    ensures k < |counts| && ReadReturns(counts[k], want, left)
    ensures counts[k] > 0 ==> Answers(counts[k + 1..], want - counts[k], left - counts[k])
    ensures Sum(counts[..k + 1]) == Sum(counts[..k]) + counts[k]
  {
    assert counts[k..][1..] == counts[k + 1..];
    assert counts[..k + 1] == counts[..k] + [counts[k]];
    SumAppend(counts[..k], counts[k]);
  }

  /** The reading loop of one exchange over a socket that delivers `stream` and then closes, in whatever pieces:
      an error exactly when a call that is made fails, and then that call's own; otherwise the whole message or
      all there was. */
  method TcpRead(stream: seq<byte>, counts: seq<int>, incoming: array<byte>, len: nat) returns (rc: int)
    requires len <= incoming.Length && Answers(counts, len, |stream|)
    modifies incoming
    ensures rc < 0 <==> exists k: nat :: FailsAt(counts, len, k)
    ensures forall k: nat | FailsAt(counts, len, k) :: rc == counts[k]
    ensures rc >= 0 ==> rc == (if len <= |stream| then len else |stream|) && incoming[..rc] == stream[..rc]
    ensures forall k | len <= k < incoming.Length :: incoming[k] == old(incoming[k])
  {
    var bytesRead, calls := 0, 0;
    assert counts[0..] == counts;
    while bytesRead < len
      invariant bytesRead <= len && bytesRead <= |stream| && calls <= |counts|
      invariant NoFailureWithin(counts, calls) && Sum(counts[..calls]) == bytesRead
      invariant Answers(counts[calls..], len - bytesRead, |stream| - bytesRead)
      invariant incoming[..bytesRead] == stream[..bytesRead]
      invariant forall k | len <= k < incoming.Length :: incoming[k] == old(incoming[k])
      decreases len - bytesRead
    {
      NextAnswer(counts, calls, len - bytesRead, |stream| - bytesRead);
      var n := counts[calls];
      if n < 0 {
        assert FailsAt(counts, len, calls);
        return n;
      }
      if n == 0 {
        break;
      }
      forall k | 0 <= k < n {
        incoming[bytesRead + k] := stream[bytesRead + k];
      }
      bytesRead, calls := bytesRead + n, calls + 1;
    }
    NothingFailed(counts, len, calls);
    rc := bytesRead;
  }

  // ----- one process -----

  /** The process that writes first; it is the client except in the second exchange of attributes. */
  predicate Leads(role: Role, k: Kind) {
    (role == Client) == (k != SecondAttrs)
  }

  function NextKind(k: Kind, second: bool): Kind {
    match k
    case Instance => FirstAttrs
    case FirstAttrs => if second then SecondAttrs else Sync
    case SecondAttrs => Sync
    case Sync => Finished
    case Finished => Finished
  }

  function Start(role: Role, own: Own): Side {
    Side(role, own, Instance, Leads(role, Instance), 0, [], role == Client && own.hasQueue, 0, Conn(None, None, None))
  }

  /** What the process does with a whole incoming message, before it goes on to the next exchange. */
  function Learn(idLen: nat, x: Side): (y: Side)
    requires |x.inbuf| == Length(idLen, x.kind)
    ensures y.role == x.role && y.own == x.own && y.kind == x.kind
  {
    var c, i := x.conn, x.inbuf;
    match x.kind
    case Instance =>
      var peer := i[..idLen];
      if x.role == Client then
        x.(conn := c.(peer := Some(peer),
                      send := Some(SendMbox(Decode32(i[idLen..idLen + 4]), Zeros(REGION_LEN), x.own.sendCredits))))
      else
        x.(conn := c.(peer := Some(peer), recv := Some(RecvMbox(x.own.msgMaxsize, x.own.recvMbox, x.own.ownCredits))),
           second := Decode32(i[idLen + 4..idLen + 8]) == 1,
           clientMax := Decode32(i[idLen + 8..]))
    case FirstAttrs =>
      if x.role == Client then
        x.(conn := if c.send.None? then c else c.(send := Some(c.send.value.(mbox := i[..REGION_LEN]))))
      else
        x.(conn := if c.recv.None? then c else c.(recv := Some(c.recv.value.(credits := i[REGION_LEN..]))))
    case SecondAttrs =>
      if x.role == Client then
        x.(conn := c.(recv := Some(RecvMbox(x.own.msgMaxsize, x.own.recvMbox, i[REGION_LEN..]))))
      else
        x.(conn := c.(send := Some(SendMbox(x.clientMax, i[..REGION_LEN], x.own.sendCredits))))
    case _ => x
  }

  function NextExchange(x: Side): Side {
    var k := NextKind(x.kind, x.second);
    x.(kind := k, writing := k != Finished && Leads(x.role, k), done := 0, inbuf := [])
  }

  predicate CanWrite(idLen: nat, x: Side, pipe: seq<byte>, cap: nat, n: nat) {
    x.writing && 1 <= n <= Length(idLen, x.kind) - x.done && |pipe| + n <= cap
  }

  predicate CanRead(idLen: nat, x: Side, pipe: seq<byte>, n: nat) {
    !x.writing && 1 <= n <= Length(idLen, x.kind) - |x.inbuf| && n <= |pipe|
  }

  /** One write call that moves `n` bytes. */
  function AfterWrite(idLen: nat, x: Side, n: nat): (y: Side)
    requires x.writing && x.done + n <= Length(idLen, x.kind)
    requires Leads(x.role, x.kind) || |x.inbuf| == Length(idLen, x.kind)
    ensures y.role == x.role && y.own == x.own
  {
    if x.done + n < Length(idLen, x.kind) then x.(done := x.done + n)
    else if Leads(x.role, x.kind) then x.(writing := false, done := 0)
    else NextExchange(Learn(idLen, x))
  }

  /** One read call that returns `bytes`. */
  function AfterRead(idLen: nat, x: Side, bytes: seq<byte>): (z: Side)
    requires !x.writing && |x.inbuf| + |bytes| <= Length(idLen, x.kind)
    ensures z.role == x.role && z.own == x.own
  {
    var y := x.(inbuf := x.inbuf + bytes);
    if |y.inbuf| < Length(idLen, x.kind) then y
    else if Leads(x.role, x.kind) then NextExchange(Learn(idLen, y))
    else y.(writing := true, done := 0)
  }

  // ----- where a process stands in the two byte streams -----

  /** The bytes of the exchanges before `k`. */
  function Offset(idLen: nat, k: Kind, second: bool): nat {
    match k
    case Instance => 0
    case FirstAttrs => Length(idLen, Instance)
    case SecondAttrs => Length(idLen, Instance) + Length(idLen, FirstAttrs)
    case Sync =>
      Length(idLen, Instance) + Length(idLen, FirstAttrs) + (if second then Length(idLen, SecondAttrs) else 0)
    case Finished =>
      Length(idLen, Instance) + Length(idLen, FirstAttrs) + (if second then Length(idLen, SecondAttrs) else 0) +
      Length(idLen, Sync)
  }

  function Stream(idLen: nat, role: Role, own: Own, second: bool): (r: seq<byte>)
    requires own.Valid(idLen)
    ensures |r| == Offset(idLen, Finished, second)
  {
    Outgoing(idLen, role, own, Instance) + Outgoing(idLen, role, own, FirstAttrs) +
    (if second then Outgoing(idLen, role, own, SecondAttrs) else []) + Outgoing(idLen, role, own, Sync)
  }

  function Written(idLen: nat, x: Side, second: bool): nat {
    Offset(idLen, x.kind, second) +
    if x.writing then x.done else if Leads(x.role, x.kind) then Length(idLen, x.kind) else 0
  }

  function Consumed(idLen: nat, x: Side, second: bool): nat {
    Offset(idLen, x.kind, second) +
    if x.writing then (if Leads(x.role, x.kind) then 0 else Length(idLen, x.kind)) else |x.inbuf|
  }
}
