/** Small facts about numbers and finite sets. */
module Finite {
  function Max(a: int, b: int): int {
    if a >= b then a else b
  }

  function Min(a: int, b: int): int {
    if a <= b then a else b
  }

  lemma HalfThen(a: nat, p: nat)
    requires p > 0
    ensures a / 2 / p == a / (2 * p)
  {
    var q := a / (2 * p);
    var r := a - q * (2 * p);
    assert 0 <= r < 2 * p;
    assert a == 2 * (q * p) + r;
    assert a / 2 == q * p + r / 2;
    assert r / 2 < p;
    Quotient(a / 2, q, p, r / 2);
  }

  lemma Quotient(n: nat, q: nat, p: nat, r: nat)
    requires p > 0 && r < p && n == q * p + r
    ensures n / p == q
  {
    var d := n / p;
    assert n == d * p + n % p;
    if d < q {
      Multiples(d + 1, q, p);
    } else if d > q {
      Multiples(q + 1, d, p);
    }
  }

  lemma Multiples(a: nat, b: nat, p: nat)
    requires a <= b
    ensures a * p <= b * p
  {
    assert b * p - a * p == (b - a) * p;
  }

  lemma SubsetSize<T>(a: set<T>, b: set<T>)
    requires a <= b
    ensures |a| <= |b|
  {
    if a != b {
      var x :| x in b && x !in a;
      SubsetSize(a, b - {x});
    }
  }

  lemma SizeWithin(s: set<nat>, low: nat, n: nat)
    requires forall i :: i in s ==> low <= i < low + n
    ensures |s| <= n
  {
    if n == 0 {
      assert s == {};
    } else {
      var last := low + n - 1;
      SizeWithin(s - {last}, low, n - 1);
      assert s - {last} + {last} == if last in s then s else s + {last};
      assert |s| <= |s - {last}| + 1;
    }
  }

  function Range(low: nat, n: nat): set<nat> {
    set i: nat | i < low + n && AtLeast(i, low)
  }

  predicate AtLeast(i: nat, low: nat) {
    i >= low
  }

  lemma RangeSize(s: set<nat>, low: nat, n: nat)
    requires forall i: nat :: i in s <==> low <= i < low + n
    ensures |s| == n
  {
    if n == 0 {
      assert s == {};
    } else {
      RangeSize(s - {low + n - 1}, low, n - 1);
    }
  }

  lemma Least(s: set<nat>) returns (low: nat)
    requires s != {}
    ensures low in s && forall i :: i in s ==> low <= i
  {
    var first :| first in s;
    low := first;
    if s - {first} != {} {
      var rest := Least(s - {first});
      if rest < first {
        low := rest;
      }
    }
    assert forall i :: i in s ==> i == first || i in s - {first};
  }

  /** Some number is not in the set. */
  lemma Outside(s: set<nat>) returns (n: nat)
    ensures n !in s
  {
    n := Above(s);
  }

  lemma Above(s: set<nat>) returns (n: nat)
    ensures forall i :: i in s ==> i < n
  {
    n := 0;
    if s != {} {
      var x :| x in s;
      var rest := Above(s - {x});
      n := Max(rest, x + 1);
      assert forall i :: i in s ==> i == x || i in s - {x};
    }
  }
}
