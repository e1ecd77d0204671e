/** Small vocabulary shared by the transport models: connection-tagged sequences,
    their projection onto one connection, and slot arithmetic. */
module Common {

  datatype Option<+T> = None | Some(value: T)

  newtype byte = x: int | 0 <= x < 256

  type ConnId = nat

  /** A value that belongs to one connection. */
  datatype Tagged<+T> = Tagged(conn: ConnId, item: T)

  /** The items of connection `c`, in the order in which they appear. */
  function Of<T>(c: ConnId, xs: seq<Tagged<T>>): (r: seq<T>)
    ensures |r| <= |xs|
  {
    if xs == [] then []
    else (if xs[0].conn == c then [xs[0].item] else []) + Of(c, xs[1..])
  }

  lemma {:induction false} OfConcat<T>(c: ConnId, xs: seq<Tagged<T>>, ys: seq<Tagged<T>>)
    ensures Of(c, xs + ys) == Of(c, xs) + Of(c, ys)
  {
    if xs == [] {
      assert xs + ys == ys;
    } else {
      var head := if xs[0].conn == c then [xs[0].item] else [];
      assert (xs + ys)[0] == xs[0] && (xs + ys)[1..] == xs[1..] + ys;
      OfConcat(c, xs[1..], ys);
      ConcatAssociates(head, Of(c, xs[1..]), Of(c, ys));
    }
  }

  lemma ConcatAssociates<T>(a: seq<T>, b: seq<T>, c: seq<T>)
    ensures a + (b + c) == (a + b) + c
  {
  }

  lemma ConcatTail<T>(a: seq<T>, b: seq<T>)
    requires a != []
    ensures (a + b)[0] == a[0] && (a + b)[1..] == a[1..] + b
  {
  }

  lemma OfAppend<T>(c: ConnId, xs: seq<Tagged<T>>, x: Tagged<T>)
    ensures Of(c, xs + [x]) == if x.conn == c then Of(c, xs) + [x.item] else Of(c, xs)
  {
    OfConcat(c, xs, [x]);
  }

  lemma OfPrefix<T>(c: ConnId, xs: seq<Tagged<T>>, ys: seq<Tagged<T>>)
    requires xs <= ys
    ensures Of(c, xs) <= Of(c, ys)
  {
    assert ys == xs + ys[|xs|..];
    OfConcat(c, xs, ys[|xs|..]);
  }

  lemma {:induction false} OfAbsent<T>(c: ConnId, xs: seq<Tagged<T>>)
    requires forall x | x in xs :: x.conn != c
    ensures Of(c, xs) == []
  {
    if xs != [] {
      OfAbsent(c, xs[1..]);
    }
  }

  predicate Distinct(q: seq<nat>) {
    forall i, j | 0 <= i < j < |q| :: q[i] != q[j]
  }

  function Elements(xs: seq<nat>): set<nat> {
    set b | b in xs
  }

  lemma {:induction false} ElementsSize(xs: seq<nat>)
    requires Distinct(xs)
    ensures |Elements(xs)| == |xs|
  {
    if xs != [] {
      ElementsSize(xs[1..]);
      assert Elements(xs) == {xs[0]} + Elements(xs[1..]);
      assert xs[0] !in Elements(xs[1..]);
    }
  }

  lemma {:induction false} BoundedSet(s: set<nat>, n: nat)
    requires forall b | b in s :: b < n
    ensures |s| <= n
  {
    if n == 0 {
      assert s == {};
    } else {
      BoundedSet(s - {n - 1}, n - 1);
    }
  }

  /** Different numbers below `n` are no more than `n`. */
  lemma DistinctBelow(xs: seq<nat>, n: nat)
    requires Distinct(xs) && forall i | 0 <= i < |xs| :: xs[i] < n
    ensures |xs| <= n
  {
    ElementsSize(xs);
    BoundedSet(Elements(xs), n);
  }

  lemma MultipleBounds(d: int, m: nat)
    ensures d >= 1 ==> d * m >= m
    ensures d <= 0 ==> d * m <= 0
    ensures d <= -1 ==> d * m + m <= 0
  {
  }

  /** Two counters less than a full turn apart name different slots. */
  lemma SlotsDiffer(a: nat, b: nat, m: nat)
    requires a < b < a + m
    ensures a % m != b % m
  {
    var d := b / m - a / m;
    assert b - a == d * m + (b % m - a % m) by {
      assert a == (a / m) * m + a % m && b == (b / m) * m + b % m;
      assert d * m == (b / m) * m - (a / m) * m;
    }
    MultipleBounds(d, m);
  }

  lemma ModPeriod(a: nat, m: nat)
    requires m > 0
    ensures (a + m) % m == a % m
  {
    var q := a / m;
    assert a + m == (q + 1) * m + a % m;
    ModUnique(a + m, q + 1, a % m, m);
  }

  lemma ModUnique(a: int, q: int, r: int, m: nat)
    requires m > 0 && a == q * m + r && 0 <= r < m
    ensures a % m == r
  {
    var d := a / m - q;
    assert d * m == r - a % m by {
      assert a == (a / m) * m + a % m;
      assert d * m == (a / m) * m - q * m;
    }
    MultipleBounds(d, m);
  }

  /** The slot after `a % m` in the circle of `m` slots. */
  lemma ModSuccessor(a: nat, m: nat)
    requires m > 0
    ensures (a + 1) % m == (a % m + 1) % m
    ensures (a + 1) % m == if a % m + 1 == m then 0 else a % m + 1
  {
    var q := a / m;
    assert a == q * m + a % m;
    if a % m + 1 == m {
      assert a + 1 == (q + 1) * m + 0;
      ModUnique(a + 1, q + 1, 0, m);
      ModUnique(m, 1, 0, m);
    } else {
      assert a + 1 == q * m + (a % m + 1);
      ModUnique(a + 1, q, a % m + 1, m);
      ModUnique(a % m + 1, 0, a % m + 1, m);
    }
  }

  /** Counters that agree modulo `m` still agree after the same number of increments. */
  lemma ModAdd(a: nat, b: nat, k: nat, m: nat)
    requires m > 0 && a % m == b % m
    ensures (a + k) % m == (b + k) % m
  {
    var qa, qb, ck := a / m, b / m, (a + k) / m;
    assert a == qa * m + a % m && b == qb * m + b % m;
    assert b + k == (ck - qa + qb) * m + (a + k) % m by {
      assert a + k == ck * m + (a + k) % m;
      assert (ck - qa + qb) * m == ck * m - qa * m + qb * m;
    }
    ModUnique(b + k, ck - qa + qb, (a + k) % m, m);
  }
}
