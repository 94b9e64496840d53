/** Positional numerals over digit sequences, most significant digit first unless said otherwise. */
module Numerals {

  predicate Below(xs: seq<nat>, base: nat) {
    forall i :: 0 <= i < |xs| ==> xs[i] < base
  }

  /** The number written by `xs`, most significant digit first. */
  function Value(xs: seq<nat>, base: nat): nat {
    if xs == [] then 0 else Value(xs[..|xs| - 1], base) * base + xs[|xs| - 1]
  }

  /** The number written by `xs`, least significant digit first. */
  function ValueLE(xs: seq<nat>, base: nat): nat {
    if xs == [] then 0 else ValueLE(xs[..|xs| - 1], base) + xs[|xs| - 1] * Pow(base, |xs| - 1)
  }

  function Pow(base: nat, exponent: nat): nat {
    if exponent == 0 then 1 else base * Pow(base, exponent - 1)
  }

  /** The digits of `n` without leading zeros; zero has no digits. */
  function Canonical(n: nat, base: nat): (xs: seq<nat>)
    requires base >= 2
    ensures Below(xs, base)
    ensures xs != [] ==> xs[0] != 0
  {
    if n == 0 then [] else Canonical(n / base, base) + [n % base]
  }

  function Zeros(n: nat): (xs: seq<nat>)
    ensures |xs| == n
  {
    seq(n, _ => 0)
  }

  function LeadingZeros(xs: seq<nat>): (n: nat)
    ensures n <= |xs|
    ensures xs[..n] == Zeros(n)
    ensures n < |xs| ==> xs[n] != 0
  {
    if xs == [] || xs[0] != 0 then 0 else 1 + LeadingZeros(xs[1..])
  }

  function Reverse<T>(xs: seq<T>): (ys: seq<T>)
    ensures |ys| == |xs|
    ensures forall i :: 0 <= i < |xs| ==> ys[i] == xs[|xs| - 1 - i]
  {
    seq(|xs|, i requires 0 <= i < |xs| => xs[|xs| - 1 - i])
  }

  lemma MulMonotone(a: nat, b: nat, c: nat)
    requires a <= b
    ensures a * c <= b * c
  {
  }

  lemma DivMod(n: nat, q: nat, r: nat, base: nat)
    requires base >= 1 && r < base && n == q * base + r
    ensures n / base == q && n % base == r
  {
    var d := n / base;
    assert n == d * base + n % base;
    Step(q, d, base);
    Step(d, q, base);
  }

  lemma Step(a: nat, b: nat, c: nat)
    ensures a < b ==> a * c + c <= b * c
  {
    if a < b {
      MulMonotone(a + 1, b, c);
      assert (a + 1) * c == a * c + c;
    }
  }

  lemma AppendValue(xs: seq<nat>, digit: nat, base: nat)
    ensures Value(xs + [digit], base) == Value(xs, base) * base + digit
    ensures ValueLE(xs + [digit], base) == ValueLE(xs, base) + digit * Pow(base, |xs|)
  {
    assert (xs + [digit])[..|xs|] == xs;
  }

  lemma AppendBounds(v: nat, p: nat, low: nat, digit: nat, base: nat)
    requires low <= v < p && digit < base
    ensures low * base <= v * base + digit < base * p
  {
    MulMonotone(low, v, base);
    MulMonotone(v + 1, p, base);
    assert (v + 1) * base == v * base + base;
  }

  lemma {:induction false} PowAdd(base: nat, m: nat, n: nat)
    ensures Pow(base, m + n) == Pow(base, m) * Pow(base, n)
    decreases m
  {
    if m == 0 {
    } else {
      PowAdd(base, m - 1, n);
      assert base * (Pow(base, m - 1) * Pow(base, n)) == (base * Pow(base, m - 1)) * Pow(base, n);
    }
  }

  lemma {:induction false} PowMonotone(base: nat, m: nat, n: nat)
    requires base >= 1 && m <= n
    ensures 1 <= Pow(base, m) <= Pow(base, n)
    decreases n
  {
    if n == 0 {
    } else if m == n {
      PowMonotone(base, n - 1, n - 1);
      MulMonotone(1, base, Pow(base, n - 1));
    } else {
      PowMonotone(base, m, n - 1);
      MulMonotone(1, base, Pow(base, n - 1));
    }
  }

  lemma {:induction false} ValueBelow(xs: seq<nat>, base: nat)
    requires base >= 2 && Below(xs, base)
    ensures Value(xs, base) < Pow(base, |xs|)
  {
    if xs != [] {
      var init := xs[..|xs| - 1];
      ValueBelow(init, base);
      AppendBounds(Value(init, base), Pow(base, |init|), 0, xs[|xs| - 1], base);
    }
  }

  lemma {:induction false} ValueReaches(xs: seq<nat>, base: nat)
    requires base >= 2 && xs != [] && xs[0] != 0
    ensures Value(xs, base) >= Pow(base, |xs| - 1)
  {
    var init := xs[..|xs| - 1];
    if |xs| == 1 {
      assert Value(init, base) == 0 && Pow(base, 0) == 1;
    } else {
      ValueReaches(init, base);
      MulMonotone(Pow(base, |init| - 1), Value(init, base), base);
    }
  }

  /** A numeral of `k` digits is below `base^k`, and reaches `base^(k-1)` unless its first digit is zero. */
  lemma ValueBounds(xs: seq<nat>, base: nat)
    requires base >= 2 && Below(xs, base)
    ensures Value(xs, base) < Pow(base, |xs|)
    ensures xs != [] && xs[0] != 0 ==> Value(xs, base) >= Pow(base, |xs| - 1)
  {
    ValueBelow(xs, base);
    if xs != [] && xs[0] != 0 { ValueReaches(xs, base); }
  }

  lemma Quotient(n: nat, base: nat)
    requires base >= 2
    ensures n == (n / base) * base + n % base
    ensures n > 0 ==> n / base < n
  {
    var q := n / base;
    assert n == q * base + n % base;
    MulMonotone(2, base, q);
  }

  lemma {:induction false} CanonicalValue(n: nat, base: nat)
    requires base >= 2
    ensures Value(Canonical(n, base), base) == n
    decreases n
  {
    hide Value;
    if n == 0 {
      EmptyValue(base);
    } else {
      Quotient(n, base);
      CanonicalValue(n / base, base);
      AppendValue(Canonical(n / base, base), n % base, base);
    }
  }

  lemma EmptyValue(base: nat)
    ensures Value([], base) == 0
  {
  }

  lemma CanonicalZero(base: nat)
    requires base >= 2
    ensures Canonical(0, base) == []
  {
  }

  /** The canonical numeral is the only one without a leading zero. */
  lemma {:induction false} CanonicalUnique(xs: seq<nat>, base: nat)
    requires base >= 2 && Below(xs, base)
    requires xs != [] ==> xs[0] != 0
    ensures Canonical(Value(xs, base), base) == xs
  {
    if xs == [] {
    } else {
      var init := xs[..|xs| - 1];
      CanonicalUnique(init, base);
      DivMod(Value(xs, base), Value(init, base), xs[|xs| - 1], base);
      ValueBounds(xs, base);
      PowMonotone(base, 0, |xs| - 1);
      assert init + [xs[|xs| - 1]] == xs;
    }
  }

  lemma {:induction false} ValueZeros(n: nat, xs: seq<nat>, base: nat)
    ensures Value(Zeros(n) + xs, base) == Value(xs, base)
    decreases n + |xs|
  {
    var all := Zeros(n) + xs;
    if xs != [] {
      assert all[..|all| - 1] == Zeros(n) + xs[..|xs| - 1];
      ValueZeros(n, xs[..|xs| - 1], base);
    } else if n > 0 {
      assert all[..|all| - 1] == Zeros(n - 1) + [];
      ValueZeros(n - 1, [], base);
    }
  }

  lemma {:induction false} LeadingZerosOf(n: nat, xs: seq<nat>)
    requires xs != [] ==> xs[0] != 0
    ensures LeadingZeros(Zeros(n) + xs) == n
  {
    if n == 0 {
      assert Zeros(0) + xs == xs;
    } else {
      assert (Zeros(n) + xs)[1..] == Zeros(n - 1) + xs;
      LeadingZerosOf(n - 1, xs);
    }
  }

  /** Reading a little-endian numeral backwards is reading it big-endian. */
  lemma {:induction false} ValueReverse(xs: seq<nat>, base: nat)
    ensures Value(Reverse(xs), base) == ValueLE(xs, base)
  {
    if xs == [] {
    } else {
      ValueShift(xs, base);
      ValueReverse(xs[1..], base);
      var ys := Reverse(xs);
      assert ys[..|ys| - 1] == Reverse(xs[1..]);
    }
  }

  lemma {:induction false} ValueShift(xs: seq<nat>, base: nat)
    requires xs != []
    ensures ValueLE(xs, base) == xs[0] + base * ValueLE(xs[1..], base)
  {
    var init, last := xs[..|xs| - 1], xs[|xs| - 1];
    if |xs| == 1 {
      assert xs[1..] == [] && init == [] && Pow(base, 0) == 1;
    } else {
      ValueShift(init, base);
      var tail := xs[1..];
      assert tail == init[1..] + [last];
      AppendValue(init[1..], last, base);
      var rest, p := ValueLE(init[1..], base), Pow(base, |init| - 1);
      assert Pow(base, |init|) == base * p;
      Distribute(base, rest, last, p);
    }
  }

  lemma Distribute(base: nat, v: nat, digit: nat, p: nat)
    ensures base * (v + digit * p) == base * v + digit * (base * p)
  {
    assert base * (digit * p) == digit * (base * p);
  }
}
