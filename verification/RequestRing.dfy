/** The circle of receive work requests that the Gemini transport hands to its user:
    `head` is the next slot to assign, `tail` the lowest slot still assigned. */
module RequestRing {
  import opened Common

  datatype WrState = Reset | Posted | Started | Attached | Canceling | RdmaComplete | WaitComplete | Error

  /** How many steps forward lead from slot `from` to slot `to` in a circle of `n`. */
  function Gap(from: nat, to: nat, n: nat): (g: nat)
    requires from < n && to < n
    ensures g < n && At(from, g, n) == to
  {
    if from <= to then to - from else to + n - from
  }

  /** The slot `j` steps after slot `from`. */
  function At(from: nat, j: nat, n: nat): (i: nat)
    requires from < n && j < n
    ensures i < n
  {
    if from + j < n then from + j else from + j - n
  }

  predicate Attachable(s: WrState) {
    s == Posted || s == RdmaComplete
  }

  /** The first slot a user can be given, searching `head` included from step `j` after `tail`. */
  function FirstAttachable(states: seq<WrState>, tail: nat, j: nat, gap: nat): (r: Option<nat>)
    requires tail < |states| && gap < |states|
    ensures r == None ==> forall k | j <= k <= gap :: !Attachable(states[At(tail, k, |states|)])
    ensures r.Some? ==> r.value < |states| && Attachable(states[r.value])
    ensures r.Some? ==> j <= Gap(tail, r.value, |states|) <= gap
    ensures r.Some? ==> forall k | j <= k < Gap(tail, r.value, |states|) :: !Attachable(states[At(tail, k, |states|)])
    decreases gap + 1 - j
  {
    if j > gap then None
    else if Attachable(states[At(tail, j, |states|)]) then Some(At(tail, j, |states|))
    else FirstAttachable(states, tail, j + 1, gap)
  }

  /** The end of the run of waited-for slots that starts `j` steps after `tail`. */
  function RunEnd(states: seq<WrState>, tail: nat, j: nat, gap: nat): (r: nat)
    requires tail < |states| && j <= gap < |states|
    ensures j <= r <= gap
    ensures forall k | j <= k < r :: states[At(tail, k, |states|)] == WaitComplete
    ensures r < gap ==> states[At(tail, r, |states|)] != WaitComplete
    decreases gap - j
  {
    if j < gap && states[At(tail, j, |states|)] == WaitComplete then RunEnd(states, tail, j + 1, gap) else j
  }

  /** The states after the first `r` slots from `tail` on have been posted again. */
  function Freed(states: seq<WrState>, tail: nat, r: nat): (s: seq<WrState>)
    requires tail < |states|
    ensures |s| == |states|
    ensures forall i | 0 <= i < |s| :: s[i] == if Gap(tail, i, |states|) < r then Posted else states[i]
  {
    seq(|states|, i requires 0 <= i < |states| => if Gap(tail, i, |states|) < r then Posted else states[i])
  }

  /** What creating a work request does to `head`. */
  function HeadAfter(head: nat, picked: Option<nat>, n: nat): nat
    requires n > 0
  {
    if picked == Some(head) then (head + 1) % n else head
  }

  /** What destroying the work request in slot `index` does to the states and to `tail`. */
  function Destroyed(states: seq<WrState>, head: nat, tail: nat, index: nat): (r: (seq<WrState>, nat))
    requires head < |states| && tail < |states| && index < |states|
    ensures |r.0| == |states| && r.1 < |states|
  {
    if states[index] == Attached then (states[index := Posted], tail)
    else if index == tail then
      var run := RunEnd(states, tail, 0, Gap(tail, head, |states|));
      (Freed(states, tail, run), At(tail, run, |states|))
    else (states, tail)
  }

  /** Destroying the lowest assigned request releases exactly the maximal circular run of
      waited-for slots from `tail` towards `head`, moves `tail` over it, and changes nothing else. */
  lemma DestroyReleasesMaximalRun(states: seq<WrState>, head: nat, tail: nat) returns (run: nat)
    requires head < |states| && tail < |states| && states[tail] != Attached
    ensures run <= Gap(tail, head, |states|)
    ensures forall k | 0 <= k < run :: states[At(tail, k, |states|)] == WaitComplete
    ensures At(tail, run, |states|) != head ==> states[At(tail, run, |states|)] != WaitComplete
    ensures Destroyed(states, head, tail, tail).1 == At(tail, run, |states|)
    ensures forall k | 0 <= k < run :: Destroyed(states, head, tail, tail).0[At(tail, k, |states|)] == Posted
    ensures forall k | run <= k < |states| ::
      Destroyed(states, head, tail, tail).0[At(tail, k, |states|)] == states[At(tail, k, |states|)]
  {
    run := RunEnd(states, tail, 0, Gap(tail, head, |states|));
    forall k | 0 <= k < |states|
      ensures Gap(tail, At(tail, k, |states|), |states|) == k
    {
    }
  }

  /** Creating a request on an idle ring, receiving into it, waiting for it and destroying it leaves the ring
      idle again, one slot further on, exactly when the ring has more than one slot. */
  lemma CycleReturnsSlotIff(states: seq<WrState>, tail: nat)
    requires tail < |states| && states[tail] == Posted
    ensures var n := |states|;
      var picked := FirstAttachable(states, tail, 0, Gap(tail, tail, n));
      var head := HeadAfter(tail, picked, n);
      var waited := states[tail := WaitComplete];
      picked == Some(tail) && head < n && (Destroyed(waited, head, tail, tail) == (states, head) <==> n >= 2)
  {
    var n := |states|;
    ModSuccessor(tail, n);
    ModUnique(tail, 0, tail, n);
    if n >= 2 {
      var waited := states[tail := WaitComplete];
      var head := (tail + 1) % n;
      var run := DestroyReleasesMaximalRun(waited, head, tail);
      assert run == 1;
      assert Destroyed(waited, head, tail, tail).0 == states;
    } else {
      ModUnique(1, 1, 0, 1);
    }
  }

  class Ring {
    var states: array<WrState>
    var head: nat
    var tail: nat

    ghost predicate Valid()
      reads this
    {
      head < states.Length && tail < states.Length
    }

    constructor (reqCount: nat)
      requires reqCount > 0
      ensures Valid() && fresh(states) && states.Length == reqCount
      ensures head == 0 && tail == 0
      ensures forall i | 0 <= i < reqCount :: states[i] == Posted
    {
      states := new WrState[reqCount](_ => Posted);
      head, tail := 0, 0;
    }

    /** Finds a slot for a new work request; the search order is circular, `head` included. */
    method Create() returns (picked: Option<nat>)
      requires Valid()
      modifies this`head
      ensures Valid()
      ensures picked == FirstAttachable(states[..], tail, 0, Gap(tail, old(head), states.Length))
      ensures head == HeadAfter(old(head), picked, states.Length)
    {
      if tail <= head {
        picked := Scan(tail, head + 1, 0);
      } else {
        picked := Scan(tail, states.Length, 0);
        if picked == None {
          picked := Scan(0, head + 1, states.Length - tail);
        }
      }
      if picked == Some(head) {
        head := (head + 1) % states.Length;
      }
    }

    /** One forward search loop, over the slots that lie `j`, `j + 1`, ... steps after `tail`. */
    method Scan(lo: nat, hi: nat, ghost j: nat) returns (picked: Option<nat>)
      requires Valid() && lo < hi <= states.Length
      requires j + (hi - 1 - lo) <= Gap(tail, head, states.Length)
      requires lo == tail + j || lo + states.Length == tail + j
      ensures picked.Some? ==>
        picked == FirstAttachable(states[..], tail, j, Gap(tail, head, states.Length))
      ensures picked == None ==>
        FirstAttachable(states[..], tail, j, Gap(tail, head, states.Length)) ==
        FirstAttachable(states[..], tail, j + (hi - lo), Gap(tail, head, states.Length))
    {
      ghost var all, gap := states[..], Gap(tail, head, states.Length);
      for index := lo to hi
        invariant FirstAttachable(all, tail, j, gap) == FirstAttachable(all, tail, j + (index - lo), gap)
      {
        assert At(tail, j + (index - lo), |all|) == index && all[index] == states[index];
        if states[index] == Posted || states[index] == RdmaComplete {
          return Some(index);
        }
      }
      return None;
    }

    /** The part of a wait that finds its request complete. */
    method WaitDone(index: nat) returns (ok: bool)
      requires Valid() && index < states.Length
      modifies states
      ensures ok <==> old(states[index]) == RdmaComplete || old(states[index]) == WaitComplete
      ensures states[..] == if ok then old(states[..])[index := WaitComplete] else old(states[..])
    {
      ok := states[index] == RdmaComplete || states[index] == WaitComplete;
      if ok {
        states[index] := WaitComplete;
      }
    }

    ghost predicate ReleasedTo(before: seq<WrState>, first: nat, gap: nat, j: nat)
      reads this, states
    {
      && |before| == states.Length && first < |before| && j <= gap < |before|
      && states[..] == Freed(before, first, j)
      && tail == At(first, j, |before|)
      && RunEnd(before, first, 0, gap) == RunEnd(before, first, j, gap)
    }

    lemma ReleaseOne(before: seq<WrState>, first: nat, gap: nat, j: nat)
      requires ReleasedTo(before, first, gap, j) && j < gap
      ensures states[tail] == before[tail] && Gap(first, tail, |before|) == j
      ensures states[tail] == WaitComplete ==> states[..][tail := Posted] == Freed(before, first, j + 1)
      ensures (tail + 1) % |before| == At(first, j + 1, |before|)
    {
      ModSuccessor(tail, |before|);
      ModUnique(tail, 0, tail, |before|);
    }

    /** One release loop: stops at the first slot whose request has not been waited for. */
    method ReleaseRun(lo: nat, hi: nat, ghost before: seq<WrState>, ghost first: nat, ghost gap: nat, ghost j: nat)
      returns (ghost r: nat)
      requires lo <= hi <= states.Length
      requires ReleasedTo(before, first, gap, j) && j + (hi - lo) <= gap
      requires lo == first + j || lo + |before| == first + j
      modifies this`tail, states
      ensures j <= r <= j + (hi - lo) && ReleasedTo(before, first, gap, r)
      ensures r < j + (hi - lo) ==> r == RunEnd(before, first, 0, gap)
    {
      r := j;
      for i := lo to hi
        invariant r == j + (i - lo) && ReleasedTo(before, first, gap, r)
      {
        ReleaseOne(before, first, gap, r);
        if states[i] == WaitComplete {
          states[i] := Posted;
          tail := (tail + 1) % states.Length;
          r := r + 1;
        } else {
          return;
        }
      }
    }

    /** Returns the slot to the transport, and with it every slot that waited behind it. */
    method Destroy(index: nat)
      requires Valid() && index < states.Length
      modifies this`tail, states
      ensures Valid()
      ensures (states[..], tail) == Destroyed(old(states[..]), head, old(tail), index)
    {
      if states[index] == Attached {
        states[index] := Posted;
      } else if index == tail {
        ghost var before, first, gap := states[..], tail, Gap(tail, head, states.Length);
        assert states[..] == Freed(before, first, 0);
        if tail <= head {
          var _ := ReleaseRun(tail, head, before, first, gap, 0);
        } else {
          var _ := ReleaseRun(tail, states.Length, before, first, gap, 0);
          if tail == 0 {
            var _ := ReleaseRun(0, head, before, first, gap, states.Length - first);
          }
        }
      }
    }
  }
}
