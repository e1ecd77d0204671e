/** Several requests of the ring at once: which slots a destroy gives back, in whatever order the requests are
    destroyed, and how many requests may be held before none comes back. */
module RingOrder {
  import opened Common
  import opened RequestRing

  // ----- what one destroy touches -----

  /** Slot `k` belongs to the run of waited-for slots that begins at `tail` and ends before `head`. */
  predicate InRun(states: seq<WrState>, head: nat, tail: nat, k: nat)
    requires head < |states| && tail < |states| && k < |states|
  {
    && Gap(tail, k, |states|) < Gap(tail, head, |states|)
    && forall j | 0 <= j <= Gap(tail, k, |states|) :: states[At(tail, j, |states|)] == WaitComplete
  }

  lemma RunEndIsRun(states: seq<WrState>, head: nat, tail: nat, k: nat)
    requires head < |states| && tail < |states| && k < |states|
    ensures var n := |states|;
      InRun(states, head, tail, k) <==> Gap(tail, k, n) < RunEnd(states, tail, 0, Gap(tail, head, n))
  {
    var run := RunEnd(states, tail, 0, Gap(tail, head, |states|));
    var stop := states[At(tail, run, |states|)];
    assert run < Gap(tail, head, |states|) ==> stop != WaitComplete;
  }

  /** Whatever request is destroyed, a slot changes only if it is that request's own and was attached, or if the
      request is the tail's and the slot lies in the run of waited-for slots from the tail on; `tail` moves only
      with the tail's own request, to the end of that run. */
  lemma DestroyTouchesOnly(states: seq<WrState>, head: nat, tail: nat, index: nat, k: nat)
    requires head < |states| && tail < |states| && index < |states| && k < |states|
    ensures var (after, tail') := Destroyed(states, head, tail, index);
      var freed := (k == index && states[k] == Attached)
        || (index == tail && states[tail] != Attached && InRun(states, head, tail, k));
      && after[k] == (if freed then Posted else states[k])
      && (index != tail || states[tail] == Attached ==> tail' == tail)
      && (index == tail && states[tail] != Attached ==>
            (InRun(states, head, tail, k) <==> Gap(tail, k, |states|) < Gap(tail, tail', |states|)))
  {
    RunEndIsRun(states, head, tail, k);
  }

  // ----- any order of destroys -----

  /** The requests of `order` are destroyed one after the other. */
  function DestroyedAll(states: seq<WrState>, head: nat, tail: nat, order: seq<nat>): (r: (seq<WrState>, nat))
    requires head < |states| && tail < |states| && forall i | i in order :: i < |states|
    ensures |r.0| == |states| && r.1 < |states|
    decreases |order|
  {
    if order == [] then (states, tail)
    else
      assert order[0] in order && forall i | i in order[1..] :: i in order;
      var (after, tail') := Destroyed(states, head, tail, order[0]);
      DestroyedAll(after, head, tail', order[1..])
  }

  predicate AllInRun(states: seq<WrState>, head: nat, tail: nat, order: seq<nat>)
    requires head < |states| && tail < |states|
  {
    forall i | i in order :: i < |states| && InRun(states, head, tail, i)
  }

  /** Once the run is free, destroying its requests again does nothing. */
  lemma {:induction false} FreedStaysFreed(states: seq<WrState>, head: nat, tail: nat, order: seq<nat>)
    requires head < |states| && tail < |states|
    requires forall i | i in order :: i < |states| && i != tail && states[i] == Posted
    ensures DestroyedAll(states, head, tail, order) == (states, tail)
    decreases |order|
  {
    if order != [] {
      assert order[0] in order && forall i | i in order[1..] :: i in order;
      FreedStaysFreed(states, head, tail, order[1..]);
    }
  }

  lemma RunIsReleased(states: seq<WrState>, head: nat, tail: nat, k: nat)
    requires head < |states| && tail < |states| && k < |states| && InRun(states, head, tail, k)
    ensures var (after, tail') := Destroyed(states, head, tail, tail); after[k] == Posted && k != tail'
  {
    assert states[At(tail, 0, |states|)] == WaitComplete;
    DestroyTouchesOnly(states, head, tail, tail, k);
  }

  lemma TailRuns(states: seq<WrState>, head: nat, tail: nat, k: nat)
    requires head < |states| && tail < |states| && k < |states| && InRun(states, head, tail, k)
    ensures InRun(states, head, tail, tail) && states[tail] == WaitComplete && states[k] == WaitComplete
  {
    assert At(tail, 0, |states|) == tail && At(tail, Gap(tail, k, |states|), |states|) == k;
    assert states[At(tail, 0, |states|)] == WaitComplete;
    assert states[At(tail, Gap(tail, k, |states|), |states|)] == WaitComplete;
  }

  /** Requests of the run may be destroyed in any order: nothing is given back before the tail's request is, and
      then everything is, exactly as if only that one had been destroyed. */
  lemma {:induction false} AnyOrderOfDestroys(states: seq<WrState>, head: nat, tail: nat, order: seq<nat>)
    requires head < |states| && tail < |states| && AllInRun(states, head, tail, order)
    ensures DestroyedAll(states, head, tail, order) ==
            if tail in order then Destroyed(states, head, tail, tail) else (states, tail)
    decreases |order|
  {
    if order != [] {
      assert order[0] in order && forall i | i in order[1..] :: i in order;
      assert order == [order[0]] + order[1..];
      TailRuns(states, head, tail, order[0]);
      if order[0] == tail {
        var (after, tail') := Destroyed(states, head, tail, tail);
        forall i | i in order[1..]
          ensures i < |states| && i != tail' && after[i] == Posted
        {
          RunIsReleased(states, head, tail, i);
        }
        FreedStaysFreed(after, head, tail', order[1..]);
      } else {
        AnyOrderOfDestroys(states, head, tail, order[1..]);
      }
    }
  }

  // ----- several requests held at once -----

  /** The ring after `k` requests have been created, received and waited for, one after the other, with none of
      them destroyed. */
  function Held(states: seq<WrState>, tail: nat, k: nat): (r: Option<(seq<WrState>, nat)>)
    requires tail < |states|
    ensures r.Some? ==> |r.value.0| == |states| && r.value.1 < |states|
  {
    if k == 0 then Some((states, tail))
    else
      var before := Held(states, tail, k - 1);
      if before.None? then None
      else
        var (s, head) := before.value;
        var picked := FirstAttachable(s, tail, 0, Gap(tail, head, |s|));
        if picked.None? then None else Some((s[picked.value := WaitComplete], HeadAfter(head, picked, |s|)))
  }

  predicate AllPosted(states: seq<WrState>) {
    forall i | 0 <= i < |states| :: states[i] == Posted
  }

  /** The first `k` slots from `tail` on are waited for, the others posted. */
  predicate HeldFrom(s: seq<WrState>, tail: nat, k: nat)
    requires tail < |s|
  {
    forall i | 0 <= i < |s| :: s[i] == if Gap(tail, i, |s|) < k then WaitComplete else Posted
  }

  lemma NextIsHead(s: seq<WrState>, tail: nat, k: nat)
    requires tail < |s| && k < |s| && HeldFrom(s, tail, k)
    ensures FirstAttachable(s, tail, 0, k) == Some(At(tail, k, |s|))
  {
    forall j | 0 <= j <= k
      ensures Gap(tail, At(tail, j, |s|), |s|) == j
    {
    }
    var picked := FirstAttachable(s, tail, 0, k);
    assert Attachable(s[At(tail, k, |s|)]);
    if picked.Some? {
      assert Gap(tail, picked.value, |s|) == k;
    }
  }

  lemma HeadMoves(tail: nat, k: nat, n: nat)
    requires tail < n && k < n
    ensures HeadAfter(At(tail, k, n), Some(At(tail, k, n)), n) == At(tail, if k + 1 == n then 0 else k + 1, n)
  {
    ModSuccessor(At(tail, k, n), n);
    ModUnique(At(tail, k, n), 0, At(tail, k, n), n);
  }

  lemma OneMoreHeld(s: seq<WrState>, tail: nat, k: nat)
    requires tail < |s| && k < |s| && HeldFrom(s, tail, k)
    ensures HeldFrom(s[At(tail, k, |s|) := WaitComplete], tail, k + 1)
  {
    forall i | 0 <= i < |s|
      ensures i == At(tail, k, |s|) <==> Gap(tail, i, |s|) == k
    {
      assert Gap(tail, At(tail, k, |s|), |s|) == k;
    }
  }

  /** Up to as many requests as there are slots can be held: the `k`-th one gets the `k`-th slot from `tail` on, past
      the ones waited for, and `head` is one behind the last of them. */
  lemma {:induction false} HeldInTurn(states: seq<WrState>, tail: nat, k: nat)
    requires tail < |states| && AllPosted(states) && k <= |states|
    ensures var h := Held(states, tail, k);
      && h.Some? && HeldFrom(h.value.0, tail, k)
      && h.value.1 == At(tail, if k == |states| then 0 else k, |states|)
  {
    if k > 0 {
      HeldInTurn(states, tail, k - 1);
      NextHeld(states, tail, k);
    }
  }

  lemma AtGap(tail: nat, k: nat, n: nat)
    requires tail < n && k < n
    ensures Gap(tail, At(tail, k, n), n) == k
  {
  }

  /** One more request is created at `head` and, when it completes, waited for. */
  lemma OneCreate(s: seq<WrState>, tail: nat, k: nat)
    requires tail < |s| && k < |s| && HeldFrom(s, tail, k)
    ensures var head := At(tail, k, |s|);
      && FirstAttachable(s, tail, 0, Gap(tail, head, |s|)) == Some(head)
      && HeldFrom(s[head := WaitComplete], tail, k + 1)
      && HeadAfter(head, Some(head), |s|) == At(tail, if k + 1 == |s| then 0 else k + 1, |s|)
  {
    AtGap(tail, k, |s|);
    NextIsHead(s, tail, k);
    HeadMoves(tail, k, |s|);
    OneMoreHeld(s, tail, k);
  }

  lemma HeldStep(states: seq<WrState>, tail: nat, k: nat)
    requires tail < |states| && k > 0 && Held(states, tail, k - 1).Some?
    ensures var (s, head) := Held(states, tail, k - 1).value;
      var picked := FirstAttachable(s, tail, 0, Gap(tail, head, |s|));
      picked.Some? ==> Held(states, tail, k) == Some((s[picked.value := WaitComplete], HeadAfter(head, picked, |s|)))
  {
  }

  lemma NextHeld(states: seq<WrState>, tail: nat, k: nat)
    requires tail < |states| && 0 < k <= |states| && Held(states, tail, k - 1).Some?
    requires var (s, head) := Held(states, tail, k - 1).value;
      HeldFrom(s, tail, k - 1) && head == At(tail, k - 1, |states|)
    ensures var h := Held(states, tail, k);
      && h.Some? && HeldFrom(h.value.0, tail, k)
      && h.value.1 == At(tail, if k == |states| then 0 else k, |states|)
  {
    OneCreate(Held(states, tail, k - 1).value.0, tail, k - 1);
    HeldStep(states, tail, k);
  }

  lemma HeldIsRun(s: seq<WrState>, tail: nat, k: nat, i: nat)
    requires tail < |s| && k < |s| && HeldFrom(s, tail, k) && i < |s|
    ensures InRun(s, At(tail, k, |s|), tail, i) <==> Gap(tail, i, |s|) < k
  {
    if Gap(tail, i, |s|) < k {
      forall j | 0 <= j <= Gap(tail, i, |s|)
        ensures s[At(tail, j, |s|)] == WaitComplete
      {
        assert Gap(tail, At(tail, j, |s|), |s|) == j;
      }
    }
  }

  /** If `k` requests are held, one slot each, and all destroyed in any order, every slot is posted again and the ring
      stands `k` slots further on, exactly when there is a slot that is not held; a ring all of whose slots are
      held gets none of them back, and no create finds one. */
  lemma HeldComeBackIff(states: seq<WrState>, tail: nat, k: nat, order: seq<nat>)
    requires tail < |states| && AllPosted(states) && k <= |states|
    requires tail in order && forall i | i in order :: i < |states| && Gap(tail, i, |states|) < k
    ensures Held(states, tail, k).Some?
    ensures var (s, head) := Held(states, tail, k).value;
      var after := DestroyedAll(s, head, tail, order);
      && (after == (states, At(tail, if k == |states| then 0 else k, |states|)) <==> k < |states|)
      && (k == |states| ==> after == (s, tail) && FirstAttachable(s, tail, 0, Gap(tail, head, |s|)) == None)
  {
    HeldInTurn(states, tail, k);
    var (s, head) := Held(states, tail, k).value;
    if k < |states| {
      forall i | i in order
        ensures InRun(s, head, tail, i)
      {
        HeldIsRun(s, tail, k, i);
      }
      AnyOrderOfDestroys(s, head, tail, order);
      HeldAreReleased(states, s, tail, k);
    } else {
      FullRingIsStuck(s, tail, order);
      assert s[tail] == WaitComplete;
    }
  }

  lemma HeldAreReleased(states: seq<WrState>, s: seq<WrState>, tail: nat, k: nat)
    requires |s| == |states| && tail < |s| && 0 < k < |s| && AllPosted(states) && HeldFrom(s, tail, k)
    ensures Destroyed(s, At(tail, k, |s|), tail, tail) == (states, At(tail, k, |s|))
  {
    var head := At(tail, k, |s|);
    var (after, tail') := Destroyed(s, head, tail, tail);
    forall i | 0 <= i < |s|
      ensures after[i] == states[i] && (Gap(tail, i, |s|) < k <==> Gap(tail, i, |s|) < Gap(tail, tail', |s|))
    {
      HeldIsRun(s, tail, k, i);
      DestroyTouchesOnly(s, head, tail, tail, i);
    }
    assert after == states;
    assert Gap(tail, head, |s|) == k && Gap(tail, At(tail, k - 1, |s|), |s|) == k - 1;
  }

  lemma {:induction false} FullRingIsStuck(s: seq<WrState>, tail: nat, order: seq<nat>)
    requires tail < |s| && forall i | 0 <= i < |s| :: s[i] == WaitComplete
    requires forall i | i in order :: i < |s|
    ensures DestroyedAll(s, tail, tail, order) == (s, tail)
    decreases |order|
  {
    if order != [] {
      assert order[0] in order && forall i | i in order[1..] :: i in order;
      assert Destroyed(s, tail, tail, order[0]).0 == s;
      FullRingIsStuck(s, tail, order[1..]);
    }
  }

  /** A created request is not marked until it completes, so that a second create before that attaches the same slot
      once more. */
  lemma SecondCreateIsTheSame(states: seq<WrState>, head: nat, tail: nat)
    requires head < |states| && tail < |states|
    requires FirstAttachable(states, tail, 0, Gap(tail, head, |states|)).Some?
    ensures var n := |states|;
      var picked := FirstAttachable(states, tail, 0, Gap(tail, head, n));
      var head' := HeadAfter(head, picked, n);
      && head' == (if picked.value != head then head else if head + 1 == n then 0 else head + 1)
      && (head' != tail ==> FirstAttachable(states, tail, 0, Gap(tail, head', n)) == picked)
  {
    var n := |states|;
    var picked := FirstAttachable(states, tail, 0, Gap(tail, head, n));
    ModSuccessor(head, n);
    ModUnique(head, 0, head, n);
    var head' := HeadAfter(head, picked, n);
    if head' != tail {
      var again := FirstAttachable(states, tail, 0, Gap(tail, head', n));
      assert Gap(tail, head', n) >= Gap(tail, picked.value, n);
      assert At(tail, Gap(tail, picked.value, n), n) == picked.value;
      if again.Some? {
        assert At(tail, Gap(tail, again.value, n), n) == again.value;
      }
    }
  }
}
