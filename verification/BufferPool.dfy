/** The pool of registered buffers.  Buffers are popped, used, perhaps shortened, and pushed back by any
    number of users; each operation runs under the pool's lock.  Buffers beyond the maximum are made on
    the fly and destroyed when they come back. */
module BufferPool {
  import opened Common

  type BufferId = nat

  /** `payload` holds the payload size of every buffer, `inUse` the buffers that have been popped and not
      pushed back, `destroyed` those that are gone; `made` counts all buffers ever made. */
  datatype Pool = Pool(
    queue: seq<BufferId>, inUse: set<BufferId>, destroyed: set<BufferId>, payload: map<BufferId, nat>, made: nat,
    currentSize: nat, initialSize: nat, maxSize: nat, createOnFly: bool, bufferSize: nat)

  function Empty(initialSize: nat, maxSize: nat, createOnFly: bool, bufferSize: nat): Pool {
    Pool([], {}, {}, map[], 0, 0, initialSize, maxSize, createOnFly, bufferSize)
  }

  /** The pool as it is after `n` rounds of the filling loop. */
  function Filled(p: Pool, n: nat): Pool {
    if n == 0 then p
    else
      var q := Filled(p, n - 1);
      q.(queue := q.queue + [q.made], payload := q.payload[q.made := q.bufferSize], made := q.made + 1,
         currentSize := q.currentSize + 1)
  }

  function Start(initialSize: nat, maxSize: nat, createOnFly: bool, bufferSize: nat): Pool {
    Filled(Empty(initialSize, maxSize, createOnFly, bufferSize), initialSize)
  }

  /** A new buffer that goes straight to the user. */
  function Make(p: Pool): Pool {
    p.(inUse := p.inUse + {p.made}, payload := p.payload[p.made := p.bufferSize], made := p.made + 1)
  }

  /** Takes the front buffer, or makes one while the pool may grow, or makes one on the fly, or fails. */
  function Pop(p: Pool): (Pool, Option<BufferId>) {
    if p.queue != [] then (p.(queue := p.queue[1..], inUse := p.inUse + {p.queue[0]}), Some(p.queue[0]))
    else if p.currentSize < p.maxSize then (Make(p).(currentSize := p.currentSize + 1), Some(p.made))
    else if p.currentSize == p.maxSize && p.createOnFly then (Make(p), Some(p.made))
    else (p, None)
  }

  /** Puts a buffer back in front with its full size, or destroys it if the pool is full. */
  function Push(p: Pool, b: BufferId): Pool {
    if |p.queue| < p.maxSize then
      p.(queue := [b] + p.queue, inUse := p.inUse - {b}, payload := p.payload[b := p.bufferSize])
    else
      p.(inUse := p.inUse - {b}, destroyed := p.destroyed + {b})
  }

  function Shorten(p: Pool, b: BufferId, n: nat): Pool {
    p.(payload := p.payload[b := n])
  }

  /** The three warnings that the closing of a pool may print. */
  datatype Warnings = Warnings(notAllThere: bool, fewerThanInitial: bool, moreThanMax: bool) {
    predicate Silent() {
      !notAllThere && !fewerThanInitial && !moreThanMax
    }
  }

  function Check(p: Pool): Warnings {
    Warnings(|p.queue| != p.currentSize, |p.queue| < p.initialSize, |p.queue| > p.maxSize)
  }

  function Close(p: Pool): Pool {
    p.(queue := [], destroyed := p.destroyed + Elements(p.queue))
  }

  // ----- the invariant -----

  /** Every buffer made is in exactly one place. */
  predicate Apart(p: Pool) {
    && Distinct(p.queue)
    && (forall b | b in p.queue :: b < p.made && b !in p.inUse && b !in p.destroyed)
    && (forall b | b in p.inUse :: b < p.made && b !in p.destroyed)
    && (forall b | b in p.destroyed :: b < p.made)
  }

  predicate NoneLost(p: Pool) {
    |p.queue| + |p.inUse| + |p.destroyed| == p.made
  }

  predicate FullSize(p: Pool) {
    forall b | b in p.queue :: b in p.payload && p.payload[b] == p.bufferSize
  }

  /** There are more buffers around than the pool counts only if it has grown to its maximum and may make
      buffers on the fly; a pool whose initial size exceeds the maximum never grows. */
  predicate Counted(p: Pool) {
    var around := |p.queue| + |p.inUse|;
    if p.initialSize <= p.maxSize then
      && p.initialSize <= p.currentSize <= p.maxSize && |p.queue| <= p.maxSize
      && p.currentSize <= around && (p.currentSize < around ==> p.currentSize == p.maxSize && p.createOnFly)
    else p.currentSize == p.initialSize
  }

  predicate Inv(p: Pool) {
    Apart(p) && NoneLost(p) && FullSize(p) && Counted(p)
  }

  lemma {:induction false} FilledInv(p: Pool, n: nat)
    requires p == Empty(p.initialSize, p.maxSize, p.createOnFly, p.bufferSize)
    ensures var q := Filled(p, n);
      Apart(q) && FullSize(q) && |q.queue| == q.currentSize == q.made == n && q.inUse == {} && q.destroyed == {}
      && q.initialSize == p.initialSize && q.maxSize == p.maxSize && q.bufferSize == p.bufferSize
  {
    if n > 0 {
      FilledInv(p, n - 1);
      var q := Filled(p, n - 1);
      assert q.made !in q.queue;
    }
  }

  lemma StartInv(initialSize: nat, maxSize: nat, createOnFly: bool, bufferSize: nat)
    ensures Inv(Start(initialSize, maxSize, createOnFly, bufferSize))
  {
    FilledInv(Empty(initialSize, maxSize, createOnFly, bufferSize), initialSize);
  }

  lemma PopKeepsApart(p: Pool)
    requires Apart(p)
    ensures Apart(Pop(p).0)
    ensures Pop(p).1.Some? ==> Pop(p).1.value !in p.inUse
  {
    if p.queue != [] {
      assert p.queue[0] in p.queue;
      assert forall b | b in p.queue[1..] :: b in p.queue && b != p.queue[0];
    }
  }

  lemma PopKeepsInv(p: Pool)
    requires Inv(p)
    ensures Inv(Pop(p).0)
    ensures Pop(p).1.Some? ==> Pop(p).1.value !in p.inUse && Pop(p).0.inUse == p.inUse + {Pop(p).1.value}
  {
    PopKeepsApart(p);
  }

  /** A pop fails exactly when nothing may be made on the fly and the user holds the maximum already. */
  lemma PopFailsIff(p: Pool)
    requires Inv(p) && p.initialSize <= p.maxSize
    ensures Pop(p).1.None? <==> !p.createOnFly && |p.inUse| == p.maxSize
  {
  }

  /** A pool whose initial size exceeds its maximum gives out the buffers it was filled with and never another one. */
  lemma OversizedPoolMakesNone(p: Pool)
    requires Inv(p) && p.initialSize > p.maxSize
    ensures Pop(p).0.made == p.made && (Pop(p).1.None? <==> p.queue == [])
  {
  }

  lemma PushKeepsApart(p: Pool, b: BufferId)
    requires Apart(p) && b in p.inUse
    ensures Apart(Push(p, b))
  {
    var q := Push(p, b);
    if |p.queue| < p.maxSize {
      assert forall c | c in q.queue :: c == b || c in p.queue;
    }
  }

  lemma PushKeepsInv(p: Pool, b: BufferId)
    requires Inv(p) && b in p.inUse
    ensures Inv(Push(p, b))
  {
    PushKeepsApart(p, b);
    assert |p.inUse - {b}| == |p.inUse| - 1;
    assert |p.destroyed + {b}| == |p.destroyed| + 1;
  }

  lemma ShortenKeepsInv(p: Pool, b: BufferId, n: nat)
    requires Inv(p) && b in p.inUse
    ensures Inv(Shorten(p, b, n))
  {
  }

  // ----- runs of pops, pushes and shortenings -----

  datatype Step = Popped | Pushed(b: BufferId) | Shortened(b: BufferId, n: nat)

  /** Users push and shorten only buffers that they hold. */
  predicate Enabled(p: Pool, s: Step) {
    !s.Popped? ==> s.b in p.inUse
  }

  function Apply(p: Pool, s: Step): Pool {
    match s
    case Popped => Pop(p).0
    case Pushed(b) => Push(p, b)
    case Shortened(b, n) => Shorten(p, b, n)
  }

  predicate ValidRun(p: Pool, ts: seq<Step>)
    decreases |ts|
  {
    ts == [] || (Enabled(p, ts[0]) && ValidRun(Apply(p, ts[0]), ts[1..]))
  }

  function After(p: Pool, ts: seq<Step>): Pool
    requires ValidRun(p, ts)
    decreases |ts|
  {
    if ts == [] then p else After(Apply(p, ts[0]), ts[1..])
  }

  lemma {:induction false} RunKeepsInv(p: Pool, ts: seq<Step>)
    requires Inv(p) && ValidRun(p, ts)
    ensures Inv(After(p, ts))
    ensures var q := After(p, ts);
      q.initialSize == p.initialSize && q.maxSize == p.maxSize && q.bufferSize == p.bufferSize &&
      q.createOnFly == p.createOnFly
    decreases |ts|
  {
    if ts != [] {
      match ts[0] {
        case Popped => PopKeepsInv(p);
        case Pushed(b) => PushKeepsInv(p, b);
        case Shortened(b, n) => ShortenKeepsInv(p, b, n);
      }
      RunKeepsInv(Apply(p, ts[0]), ts[1..]);
    }
  }

  /** Over any run the idle buffers and the buffers in use are apart, every idle buffer has its full
      size, and a pool with a sensible initial size never keeps more than its maximum. */
  lemma IdleBuffersAreSound(initialSize: nat, maxSize: nat, createOnFly: bool, bufferSize: nat, ts: seq<Step>)
    requires ValidRun(Start(initialSize, maxSize, createOnFly, bufferSize), ts)
    ensures var p := After(Start(initialSize, maxSize, createOnFly, bufferSize), ts);
      && Distinct(p.queue) && (forall b | b in p.queue :: b !in p.inUse)
      && (forall b | b in p.queue :: b in p.payload && p.payload[b] == bufferSize)
      && (initialSize <= maxSize ==> |p.queue| <= maxSize)
  {
    StartInv(initialSize, maxSize, createOnFly, bufferSize);
    FilledInv(Empty(initialSize, maxSize, createOnFly, bufferSize), initialSize);
    RunKeepsInv(Start(initialSize, maxSize, createOnFly, bufferSize), ts);
  }

  /** When every popped buffer is back, closing the pool prints no warning if and only if the initial
      size does not exceed the maximum; and then every buffer ever made has been destroyed. */
  lemma CloseIsSilentIff(initialSize: nat, maxSize: nat, createOnFly: bool, bufferSize: nat, ts: seq<Step>)
    requires var p0 := Start(initialSize, maxSize, createOnFly, bufferSize);
      ValidRun(p0, ts) && After(p0, ts).inUse == {}
    ensures var p := After(Start(initialSize, maxSize, createOnFly, bufferSize), ts);
      && (Check(p).Silent() <==> initialSize <= maxSize)
      && (initialSize <= maxSize ==> |p.queue| == p.currentSize >= initialSize)
      && Close(p).queue == [] && |Close(p).destroyed| == p.made
      && forall b: BufferId :: b in Close(p).destroyed <==> b < p.made
  {
    StartInv(initialSize, maxSize, createOnFly, bufferSize);
    FilledInv(Empty(initialSize, maxSize, createOnFly, bufferSize), initialSize);
    RunKeepsInv(Start(initialSize, maxSize, createOnFly, bufferSize), ts);
    CloseLeavesNone(After(Start(initialSize, maxSize, createOnFly, bufferSize), ts));
  }

  lemma CloseLeavesNone(p: Pool)
    requires Apart(p) && NoneLost(p) && p.inUse == {}
    ensures |Close(p).destroyed| == p.made && forall b: BufferId :: b in Close(p).destroyed <==> b < p.made
  {
    ElementsSize(p.queue);
    assert p.destroyed !! Elements(p.queue);
    AllBelow(Close(p).destroyed, p.made);
  }

  /** A set of `n` numbers below `n` holds all of them. */
  lemma {:induction false} AllBelow(s: set<nat>, n: nat)
    requires (forall b | b in s :: b < n) && |s| == n
    ensures forall b: nat :: b in s <==> b < n
  {
    if n > 0 {
      if n - 1 in s {
        AllBelow(s - {n - 1}, n - 1);
      } else {
        BoundedSet(s, n - 1);
      }
    }
  }

  /** The buffers around beyond those the pool counts: the ones made on the fly and not destroyed yet. */
  function OnTheFly(p: Pool): int {
    |p.queue| + |p.inUse| - p.currentSize
  }

  /** What closing warns of, with buffers still out or not: that not all are there, exactly if more are out than were
      made on the fly; that fewer than the initial number are there, exactly if besides the growth of the pool not
      enough are back; and never of too many. */
  lemma WarningsIff(initialSize: nat, maxSize: nat, createOnFly: bool, bufferSize: nat, ts: seq<Step>)
    requires initialSize <= maxSize && ValidRun(Start(initialSize, maxSize, createOnFly, bufferSize), ts)
    ensures var p := After(Start(initialSize, maxSize, createOnFly, bufferSize), ts);
      && 0 <= OnTheFly(p) && (OnTheFly(p) > 0 ==> createOnFly && p.currentSize == maxSize)
      && (Check(p).notAllThere <==> |p.inUse| > OnTheFly(p))
      && (Check(p).fewerThanInitial <==> |p.inUse| - OnTheFly(p) > p.currentSize - initialSize)
      && !Check(p).moreThanMax
  {
    StartInv(initialSize, maxSize, createOnFly, bufferSize);
    FilledInv(Empty(initialSize, maxSize, createOnFly, bufferSize), initialSize);
    FilledKeepsLimits(Empty(initialSize, maxSize, createOnFly, bufferSize), initialSize);
    RunKeepsInv(Start(initialSize, maxSize, createOnFly, bufferSize), ts);
  }

  /** The buffer pushed last is the next one popped, at its full size. */
  lemma PopReturnsLastPushed(p: Pool, b: BufferId)
    requires Inv(p) && b in p.inUse && |p.queue| < p.maxSize
    ensures var (q, r) := Pop(Push(p, b));
      r == Some(b) && q.queue == p.queue && q.inUse == p.inUse && q.payload[b] == p.bufferSize
  {
    assert ([b] + p.queue)[1..] == p.queue;
    assert p.inUse - {b} + {b} == p.inUse;
  }

  /** A buffer that its user has shortened is short until it is pushed back, and comes out at its full size again. */
  lemma ShortenedComesBackFull(p: Pool, b: BufferId, n: nat)
    requires Inv(p) && b in p.inUse && |p.queue| < p.maxSize
    ensures var s := Shorten(p, b, n);
      && b in s.payload && s.payload[b] == n && s == p.(payload := s.payload)
      && (forall c | c != b ::
            (c in s.payload <==> c in p.payload) && (c in p.payload ==> s.payload[c] == p.payload[c]))
      && Pop(Push(s, b)).1 == Some(b) && Pop(Push(s, b)).0.payload[b] == p.bufferSize
  {
    ShortenKeepsInv(p, b, n);
    PopReturnsLastPushed(Shorten(p, b, n), b);
  }

  // ----- the queue, updated in place -----

  lemma PopGivesFullBuffer(p: Pool)
    requires FullSize(p)
    ensures var (q, r) := Pop(p); r.Some? ==> r.value in q.payload && q.payload[r.value] == p.bufferSize
    ensures var (q, r) := Pop(p); q.inUse == if r.Some? then p.inUse + {r.value} else p.inUse
  {
  }

  lemma PushGivesUp(p: Pool, b: BufferId)
    requires Apart(p) && b in p.inUse
    ensures var q := Push(p, b);
      && q.inUse == p.inUse - {b} && (b in q.queue <==> |p.queue| < p.maxSize) && (b in q.destroyed <==> b !in q.queue)
  {
  }

  lemma {:induction false} FilledKeepsLimits(p: Pool, n: nat)
    ensures var q := Filled(p, n);
      q.inUse == p.inUse && q.destroyed == p.destroyed && q.initialSize == p.initialSize && q.maxSize == p.maxSize &&
      q.createOnFly == p.createOnFly && q.bufferSize == p.bufferSize
  {
    if n > 0 {
      FilledKeepsLimits(p, n - 1);
    }
  }

  /** A buffer size of zero makes no queue at all. */
  method InitQueue(initialSize: nat, maxSize: nat, createOnFly: bool, bufferSize: nat) returns (bq: BufferQueue?)
    ensures bq == null <==> bufferSize == 0
    ensures bq != null ==> fresh(bq) && bq.Valid() && bq.View() == Start(initialSize, maxSize, createOnFly, bufferSize)
  {
    if bufferSize == 0 {
      return null;
    }
    bq := new BufferQueue(initialSize, maxSize, createOnFly, bufferSize);
  }

  class BufferQueue {
    const initialSize: nat
    const maxSize: nat
    const createOnFly: bool
    const bufferSize: nat
    var queue: seq<BufferId>
    var currentSize: nat
    var payload: map<BufferId, nat>
    var made: nat
    ghost var inUse: set<BufferId>
    ghost var destroyed: set<BufferId>

    ghost function View(): Pool
      reads this
    {
      Pool(queue, inUse, destroyed, payload, made, currentSize, initialSize, maxSize, createOnFly, bufferSize)
    }

    ghost predicate Valid()
      reads this
    {
      Inv(View())
    }

    constructor (initialSize: nat, maxSize: nat, createOnFly: bool, bufferSize: nat)
      ensures Valid() && View() == Start(initialSize, maxSize, createOnFly, bufferSize)
    {
      this.initialSize, this.maxSize := initialSize, maxSize;
      this.createOnFly, this.bufferSize := createOnFly, bufferSize;
      queue, currentSize, payload, made, inUse, destroyed := [], 0, map[], 0, {}, {};
      new;
      ghost var empty := View();
      for i := 0 to initialSize
        invariant View() == Filled(empty, i)
      {
        FilledKeepsLimits(empty, i);
        var b := CreateBuffer();
        queue := queue + [b];
        currentSize := currentSize + 1;
      }
      StartInv(initialSize, maxSize, createOnFly, bufferSize);
    }

    method CreateBuffer() returns (b: BufferId)
      modifies this`payload, this`made
      ensures b == old(made) && made == old(made) + 1 && payload == old(payload)[b := bufferSize]
    {
      b := made;
      payload := payload[b := bufferSize];
      made := made + 1;
    }

    method TakeBuffer() returns (r: Option<BufferId>)
      modifies this
      ensures (View(), r) == Pop(old(View()))
    {
      if queue != [] {
        r := Some(queue[0]);
        inUse := inUse + {queue[0]};
        queue := queue[1..];
      } else if currentSize < maxSize {
        var b := CreateBuffer();
        currentSize := currentSize + 1;
        inUse := inUse + {b};
        r := Some(b);
      } else if currentSize == maxSize && createOnFly {
        var b := CreateBuffer();
        inUse := inUse + {b};
        r := Some(b);
      } else {
        r := None;
      }
    }

    /** A pop gives out a full buffer that nobody holds, or fails because the user holds the maximum. */
    method PopBuffer() returns (r: Option<BufferId>)
      requires Valid()
      modifies this
      ensures Valid() && (View(), r) == Pop(old(View()))
      ensures r.Some? ==> r.value !in old(inUse) && r.value in payload && payload[r.value] == bufferSize
      ensures inUse == if r.Some? then old(inUse) + {r.value} else old(inUse)
      ensures initialSize <= maxSize ==> (r.None? <==> !createOnFly && |old(inUse)| == maxSize)
    {
      PopKeepsInv(View());
      PopGivesFullBuffer(View());
      if initialSize <= maxSize {
        PopFailsIff(View());
      }
      r := TakeBuffer();
    }

    method ReturnBuffer(b: BufferId)
      requires b in inUse
      modifies this
      ensures View() == Push(old(View()), b)
    {
      if |queue| < maxSize {
        payload := payload[b := bufferSize];
        queue := [b] + queue;
      } else {
        destroyed := destroyed + {b};
      }
      inUse := inUse - {b};
    }

    /** A push gives the buffer up: it is in the queue, at its full size, or destroyed. */
    method PushBuffer(b: BufferId)
      requires Valid() && b in inUse
      modifies this
      ensures Valid() && View() == Push(old(View()), b)
      ensures inUse == old(inUse) - {b} && (b in queue <==> |old(queue)| < maxSize) && (b in destroyed <==> b !in queue)
    {
      PushKeepsInv(View(), b);
      PushGivesUp(View(), b);
      ReturnBuffer(b);
    }

    /** Closing leaves no buffer but the ones the user still holds. */
    method Fini() returns (w: Warnings)
      requires Valid()
      modifies this
      ensures View() == Close(old(View())) && w == Check(old(View()))
      ensures inUse == {} ==>
        (w.Silent() <==> initialSize <= maxSize) && forall b: BufferId :: b in destroyed <==> b < made
    {
      if inUse == {} {
        CloseLeavesNone(View());
      }
      w := CloseAll();
    }

    method CloseAll() returns (w: Warnings)
      modifies this
      ensures View() == Close(old(View())) && w == Check(old(View()))
    {
      w := Warnings(|queue| != currentSize, |queue| < initialSize, |queue| > maxSize);
      while queue != []
        invariant Close(View()) == Close(old(View()))
        decreases |queue|
      {
        ghost var before := View();
        assert Elements(queue) == {queue[0]} + Elements(queue[1..]);
        destroyed := destroyed + {queue[0]};
        queue := queue[1..];
        assert Close(View()).destroyed == Close(before).destroyed;
      }
      assert Elements([]) == {};
    }
  }
}
