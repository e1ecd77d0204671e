/** When a parked request is posted: parked requests are sent again at the end of each turn of a wait, a turn ends
    on an event or when the time is up, and credits come back without an event. */
module ParkedSends {
  import opened FlowControl
  import opened RequestSender

  /** A sender in a wait, as far as one peer is concerned.  `owed` credits are still to come back, and `events` have
      come or are sure to come: one for each message posted, among others. */
  datatype Sending = Sending(credits: nat, owed: nat, posted: seq<Message>, parked: seq<Message>, events: nat)

  function Sent(s: Sending): nat {
    if s.credits < |s.parked| then s.credits else |s.parked|
  }

  /** What sending again does when no credit comes back meanwhile; each message posted will raise an event. */
  function SendAgain(s: Sending): Sending {
    var n := Sent(s);
    s.(credits := s.credits - n, owed := s.owed + n, posted := s.posted + s.parked[..n], parked := s.parked[n..],
       events := s.events + n)
  }

  lemma SplitsAt<T>(a: seq<T>, b: seq<T>, c: seq<T>, d: seq<T>)
    requires a + b == c + d && |c| >= |a|
    ensures |c| - |a| <= |b| && c == a + b[..|c| - |a|] && d == b[|c| - |a|..]
  {
    assert (a + b)[..|c|] == c && (a + b)[|c|..] == d;
  }

  /** This is exactly what a turn of the resend loop does, by its contract. */
  lemma SendAgainIsResent(s: Sending, o: Outgoing, after: Outgoing, rest: seq<Message>)
    requires o.credits == s.credits && Payloads(o.posted) == s.posted
    requires Resent(o, s.parked, after, rest) && after.returned == o.returned && after.credits >= 0
    ensures var t := SendAgain(s); after.credits == t.credits && Payloads(after.posted) == t.posted && rest == t.parked
  {
    SplitsAt(s.posted, s.parked, Payloads(after.posted), rest);
  }

  /** Whatever comes back during it, a turn posts the parked request number `k` if there were more than `k` credits,
      and otherwise only if some came back. */
  lemma PostedInTurn(maxCredits: nat, o: Outgoing, parked: seq<Message>, after: Outgoing, rest: seq<Message>, k: nat)
    requires Resent(o, parked, after, rest) && CreditsInRange(maxCredits, after) && k < |parked|
    ensures k < o.credits ==> |after.posted| > |o.posted| + k && after.posted[|o.posted| + k].payload == parked[k]
    ensures |after.posted| > |o.posted| + k ==> k < o.credits + (after.returned - o.returned)
  {
    var p, q := Payloads(o.posted), Payloads(after.posted);
    assert |q| + |rest| == |p| + |parked| by {
      assert |q + rest| == |p + parked|;
    }
    if k < o.credits {
      assert (q + rest)[|p| + k] == (p + parked)[|p| + k];
    }
  }

  // ----- steps -----

  /** `Return` is a credit that comes back; the other two are turns, which end with sending again. */
  datatype SendStep = Return | EventTurn | TimeoutTurn

  predicate CanStep(s: Sending, timed: bool, x: SendStep) {
    match x
    case Return => s.owed > 0
    case EventTurn => s.events > 0
    case TimeoutTurn => timed
  }

  function Take(s: Sending, timed: bool, x: SendStep): Sending
    requires CanStep(s, timed, x)
  {
    match x
    case Return => s.(credits := s.credits + 1, owed := s.owed - 1)
    case EventTurn => SendAgain(s.(events := s.events - 1))
    case TimeoutTurn => SendAgain(s)
  }

  predicate SendRun(s: Sending, timed: bool, xs: seq<SendStep>)
    decreases |xs|
  {
    xs == [] || (CanStep(s, timed, xs[0]) && SendRun(Take(s, timed, xs[0]), timed, xs[1..]))
  }

  function AfterSends(s: Sending, timed: bool, xs: seq<SendStep>): Sending
    requires SendRun(s, timed, xs)
    decreases |xs|
  {
    if xs == [] then s else AfterSends(Take(s, timed, xs[0]), timed, xs[1..])
  }

  /** Nothing that happens by itself posts as many as `m` messages. */
  ghost predicate NeverPosts(s: Sending, timed: bool, m: nat) {
    forall xs: seq<SendStep> {:trigger AfterSends(s, timed, xs)} |
      SendRun(s, timed, xs) :: |AfterSends(s, timed, xs).posted| < m
  }

  /** Whatever has happened by itself, the parked request number `k` of state `s` can still be posted. */
  ghost predicate SureToBePosted(s: Sending, timed: bool, k: nat) {
    forall xs: seq<SendStep> {:trigger AfterSends(s, timed, xs)} |
      SendRun(s, timed, xs) :: !NeverPosts(AfterSends(s, timed, xs), timed, |s.posted| + k + 1)
  }

  lemma RunCons(s: Sending, timed: bool, x: SendStep, xs: seq<SendStep>)
    requires CanStep(s, timed, x) && SendRun(Take(s, timed, x), timed, xs)
    ensures SendRun(s, timed, [x] + xs)
    ensures AfterSends(s, timed, [x] + xs) == AfterSends(Take(s, timed, x), timed, xs)
  {
    assert ([x] + xs)[1..] == xs;
  }

  /** The turns of a run that an event has ended. */
  function EventTurns(xs: seq<SendStep>): nat {
    if xs == [] then 0 else (if xs[0].EventTurn? then 1 else 0) + EventTurns(xs[1..])
  }

  /** Each message posted raises an event, each credit it takes is owed, and each event ends one turn. */
  lemma {:induction false} EventsAreAccountedFor(s: Sending, timed: bool, xs: seq<SendStep>)
    requires SendRun(s, timed, xs)
    ensures var t := AfterSends(s, timed, xs);
      && t.events + EventTurns(xs) == s.events + (|t.posted| - |s.posted|)
      && t.posted + t.parked == s.posted + s.parked && t.credits + t.owed == s.credits + s.owed
    decreases |xs|
  {
    if xs != [] {
      EventsAreAccountedFor(Take(s, timed, xs[0]), timed, xs[1..]);
    }
  }

  // ----- with a timeout -----

  lemma StepKeepsAll(s: Sending, timed: bool, x: SendStep)
    requires CanStep(s, timed, x)
    ensures var t := Take(s, timed, x);
      && t.credits + t.owed == s.credits + s.owed && |t.posted| + |t.parked| == |s.posted| + |s.parked|
      && |t.posted| >= |s.posted|
  {
  }

  lemma {:induction false} RunKeepsAll(s: Sending, timed: bool, xs: seq<SendStep>)
    requires SendRun(s, timed, xs)
    ensures var t := AfterSends(s, timed, xs);
      && t.credits + t.owed == s.credits + s.owed && |t.posted| + |t.parked| == |s.posted| + |s.parked|
      && |t.posted| >= |s.posted|
    decreases |xs|
  {
    if xs != [] {
      StepKeepsAll(s, timed, xs[0]);
      RunKeepsAll(Take(s, timed, xs[0]), timed, xs[1..]);
    }
  }

  /** With a timeout every parked request gets posted as the credits come back. */
  lemma {:induction false} TimedPosts(s: Sending, m: nat) returns (xs: seq<SendStep>)
    requires s.credits + s.owed > 0 && m <= |s.posted| + |s.parked|
    ensures SendRun(s, true, xs) && |AfterSends(s, true, xs).posted| >= m
    decreases m - |s.posted|, s.owed
  {
    xs := [];
    if |s.posted| < m {
      var x := if s.credits > 0 then TimeoutTurn else Return;
      StepKeepsAll(s, true, x);
      xs := TimedPosts(Take(s, true, x), m);
      RunCons(s, true, x, xs);
      xs := [x] + xs;
    }
  }

  // ----- without one -----

  /** Without a timeout, and without an event, only credits come back. */
  lemma {:induction false} NoEventNoPost(s: Sending, xs: seq<SendStep>)
    requires s.events == 0 && SendRun(s, false, xs)
    ensures AfterSends(s, false, xs).posted == s.posted
    decreases |xs|
  {
    if xs != [] {
      NoEventNoPost(Take(s, false, xs[0]), xs[1..]);
    }
  }

  /** Once the credits are used up, all events may come before the next credit. */
  lemma {:induction false} EventsFirst(s: Sending) returns (xs: seq<SendStep>)
    requires s.credits == 0
    ensures SendRun(s, false, xs)
    ensures var t := AfterSends(s, false, xs); t.events == 0 && |t.posted| == |s.posted|
    decreases s.events
  {
    xs := [];
    if s.events > 0 {
      xs := EventsFirst(Take(s, false, EventTurn));
      RunCons(s, false, EventTurn, xs);
      xs := [EventTurn] + xs;
    }
  }

  lemma TooFewCredits(s: Sending, k: nat) returns (xs: seq<SendStep>)
    requires k < |s.parked| && (s.events == 0 || s.credits <= k)
    ensures SendRun(s, false, xs)
    ensures var t := AfterSends(s, false, xs); t.events == 0 && |t.posted| <= |s.posted| + k
  {
    if s.events == 0 {
      xs := [];
    } else {
      xs := EventsFirst(Take(s, false, EventTurn));
      RunCons(s, false, EventTurn, xs);
      xs := [EventTurn] + xs;
    }
  }

  /** With credits enough and an event to come, the first turn posts it. */
  lemma {:induction false} NextTurnPosts(s: Sending, k: nat, xs: seq<SendStep>)
    requires k < |s.parked| && s.events > 0 && s.credits > k && SendRun(s, false, xs)
    ensures var t := AfterSends(s, false, xs);
      |t.posted| > |s.posted| + k || (t.posted == s.posted && t.parked == s.parked && t.events > 0 && t.credits > k)
    decreases |xs|
  {
    if xs != [] {
      var t := Take(s, false, xs[0]);
      if xs[0].Return? {
        NextTurnPosts(t, k, xs[1..]);
      } else {
        RunKeepsAll(t, false, xs[1..]);
      }
    }
  }

  lemma EnoughIsSure(s: Sending, k: nat)
    requires k < |s.parked| && s.events > 0 && s.credits > k
    ensures SureToBePosted(s, false, k)
  {
    forall xs: seq<SendStep> | SendRun(s, false, xs)
      ensures !NeverPosts(AfterSends(s, false, xs), false, |s.posted| + k + 1)
    {
      var t := AfterSends(s, false, xs);
      NextTurnPosts(s, k, xs);
      var more := if |t.posted| > |s.posted| + k then [] else [EventTurn] + [];
      if more != [] {
        RunCons(t, false, EventTurn, []);
      }
      assert |AfterSends(t, false, more).posted| > |s.posted| + k;
    }
  }

  lemma TimedIsSure(s: Sending, k: nat)
    requires s.credits + s.owed > 0 && k < |s.parked|
    ensures SureToBePosted(s, true, k)
  {
    forall xs: seq<SendStep> | SendRun(s, true, xs)
      ensures !NeverPosts(AfterSends(s, true, xs), true, |s.posted| + k + 1)
    {
      var t := AfterSends(s, true, xs);
      RunKeepsAll(s, true, xs);
      var more := TimedPosts(t, |s.posted| + k + 1);
      assert |AfterSends(t, true, more).posted| >= |s.posted| + k + 1;
    }
  }

  /** A wait is sure to post the parked request number `k` if and only if it has a timeout, or there are more than
      `k` credits already and an event is still to come. */
  lemma SureToBePostedIff(s: Sending, timed: bool, k: nat)
    requires s.credits + s.owed > 0 && k < |s.parked|
    ensures SureToBePosted(s, timed, k) <==> timed || (s.events > 0 && s.credits > k)
  {
    if timed {
      TimedIsSure(s, k);
    } else if s.events > 0 && s.credits > k {
      EnoughIsSure(s, k);
    } else {
      var xs := TooFewCredits(s, k);
      var t := AfterSends(s, false, xs);
      forall more: seq<SendStep> | SendRun(t, false, more)
        ensures |AfterSends(t, false, more).posted| < |s.posted| + k + 1
      {
        NoEventNoPost(t, more);
      }
      assert NeverPosts(t, false, |s.posted| + k + 1);
    }
  }
}
