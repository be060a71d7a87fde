/** Facts about sequences and division that no one file owns. */
module Basics {

  predicate Distinct<T(==)>(s: seq<T>) {
    forall i, j :: 0 <= i < j < |s| ==> s[i] != s[j]
  }

  /** Times x is among s. */
  function Count<T(==)>(s: seq<T>, x: T): (n: nat)
    ensures n <= |s|
  {
    if s == [] then 0 else Count(s[..|s| - 1], x) + if s[|s| - 1] == x then 1 else 0
  }

  lemma CountSnoc<T>(s: seq<T>, y: T, x: T)
    ensures Count(s + [y], x) == Count(s, x) + if y == x then 1 else 0
  {
    assert (s + [y])[..|s|] == s;
  }

  lemma {:induction false} CountConcat<T>(a: seq<T>, b: seq<T>, x: T)
    ensures Count(a + b, x) == Count(a, x) + Count(b, x)
    decreases |b|
  {
    if b == [] {
      assert a + b == a;
    } else {
      CountConcat(a, b[..|b| - 1], x);
      assert (a + b)[..|a + b| - 1] == a + b[..|b| - 1];
    }
  }

  lemma {:induction false} CountUpdate<T>(s: seq<T>, i: nat, y: T, x: T)
    requires i < |s|
    ensures Count(s[i := y], x) == Count(s, x) - (if s[i] == x then 1 else 0) + if y == x then 1 else 0
  {
    var n := |s| - 1;
    if i < n {
      CountUpdate(s[..n], i, y, x);
      assert s[i := y][..n] == s[..n][i := y];
    } else {
      assert s[i := y][..n] == s[..n];
    }
  }

  /** An element is among s when it is counted. */
  lemma {:induction false} CountIn<T>(s: seq<T>, x: T)
    ensures x in s <==> Count(s, x) > 0
  {
    if s != [] {
      CountIn(s[..|s| - 1], x);
      assert s == s[..|s| - 1] + [s[|s| - 1]];
    }
  }

  /** Nothing counted twice: no element repeats. */
  lemma {:induction false} CountDistinct<T>(s: seq<T>)
    requires forall x :: Count(s, x) <= 1
    ensures Distinct(s)
  {
    if s != [] {
      var n := |s| - 1;
      assert forall x :: Count(s[..n], x) <= Count(s, x);
      CountDistinct(s[..n]);
      CountIn(s[..n], s[n]);
    }
  }

  lemma DivBounds(a: int, n: int)
    requires a >= 0 && n > 0
    ensures 0 <= a / n <= a
  {
    var q := a / n;
    assert a == n * q + a % n;
    if q > a { MulGrows(n, q); }
    if q < 0 { MulGrows(n, -q); }
  }

  lemma MulGrows(n: int, q: int)
    requires n > 0 && q > 0
    ensures n * q >= q
  {
  }

  lemma MulAtLeast(n: int, d: int)
    requires n > 0 && d >= 1
    ensures n * d >= n
  {
  }

  lemma MulOrder(n: int, x: int, y: int)
    requires n > 0 && x <= y
    ensures n * x <= n * y
  {
    if x < y {
      MulAtLeast(n, y - x);
      assert n * y - n * x == n * (y - x);
    }
  }
}
