/** Sums of a weight over a sequence. */
module Sums {
  function Sum<T>(f: T -> nat, s: seq<T>): nat {
    if s == [] then 0 else Sum(f, s[..|s| - 1]) + f(s[|s| - 1])
  }

  lemma {:induction false} SumConcat<T>(f: T -> nat, a: seq<T>, b: seq<T>)
    ensures Sum(f, a + b) == Sum(f, a) + Sum(f, b)
    decreases |b|
  {
    if b == [] {
      assert a + b == a;
    } else {
      assert (a + b)[..|a + b| - 1] == a + b[..|b| - 1];
      SumConcat(f, a, b[..|b| - 1]);
    }
  }

  lemma SumOne<T>(f: T -> nat, x: T)
    ensures Sum(f, [x]) == f(x)
  {
    assert Sum(f, [x][..0]) == 0;
  }

  // Appending one element adds its weight.
  lemma SumSnoc<T>(f: T -> nat, a: seq<T>, x: T)
    ensures Sum(f, a + [x]) == Sum(f, a) + f(x)
  {
    assert (a + [x])[..|a|] == a;
  }

  lemma {:induction false} SumCong<T(!new)>(f: T -> nat, g: T -> nat, s: seq<T>)
    requires forall x :: x in s ==> f(x) == g(x)
    ensures Sum(f, s) == Sum(g, s)
  {
    if s != [] {
      assert s[|s| - 1] in s;
      SumCong(f, g, s[..|s| - 1]);
    }
  }

  // A sum is positive exactly when some element weighs something.
  lemma {:induction false} SumPositive<T(!new)>(f: T -> nat, s: seq<T>)
    ensures Sum(f, s) > 0 <==> exists x :: x in s && f(x) > 0
  {
    if s != [] {
      var init, last := s[..|s| - 1], s[|s| - 1];
      SumPositive(f, init);
      assert last in s;
      assert forall x :: x in s <==> x in init || x == last;
    }
  }

  // x added n times.
  function Times(n: nat, x: nat): nat {
    if n == 0 then 0 else Times(n - 1, x) + x
  }

  lemma {:induction false} TimesIsProduct(n: nat, x: nat)
    ensures Times(n, x) == n * x
  {
    if n > 0 {
      TimesIsProduct(n - 1, x);
      assert n * x == (n - 1) * x + x;
    }
  }

  lemma {:induction false} TimesZero(n: nat)
    ensures Times(n, 0) == 0
  {
    if n > 0 {
      TimesZero(n - 1);
    }
  }

  lemma {:induction false} TimesDistributes(a: nat, b: nat, x: nat)
    ensures Times(a + b, x) == Times(a, x) + Times(b, x)
    decreases b
  {
    if b > 0 {
      TimesDistributes(a, b - 1, x);
    }
  }

  lemma {:induction false} TimesAssoc(a: nat, b: nat, c: nat)
    ensures Times(a, Times(b, c)) == Times(Times(a, b), c)
  {
    if a > 0 {
      TimesAssoc(a - 1, b, c);
      TimesDistributes(Times(a - 1, b), b, c);
    }
  }
}
