/** Array.prototype.sort on strings: the order of UTF-16 code units. */
module Sorting {

  /**
   The place of a character in code-unit order. A character above U+FFFF is written as a
   surrogate pair, so it sorts before U+E000 although its code point is larger.
   */
  function CodeUnitRank(c: char): int {
    var n := c as int;
    if n < 0xD800 then n else if n >= 0x1_0000 then n - 0x2800 else n + 0x10_0000
  }

  predicate Less(a: string, b: string) {
    b != [] &&
    (a == [] ||
     CodeUnitRank(a[0]) < CodeUnitRank(b[0]) ||
     (a[0] == b[0] && Less(a[1..], b[1..])))
  }

  predicate AtMost(a: string, b: string) { a == b || Less(a, b) }

  function Insert(x: string, xs: seq<string>): (ys: seq<string>)
    ensures multiset(ys) == multiset{x} + multiset(xs)
  {
    if xs == [] || AtMost(x, xs[0]) then [x] + xs
    else
      assert xs == [xs[0]] + xs[1..];
      [xs[0]] + Insert(x, xs[1..])
  }

  function Sort(xs: seq<string>): (ys: seq<string>)
    ensures multiset(ys) == multiset(xs)
  {
    if xs == [] then []
    else
      assert xs == [xs[0]] + xs[1..];
      Insert(xs[0], Sort(xs[1..]))
  }

  ghost predicate Sorted(xs: seq<string>) {
    forall i, j :: 0 <= i < j < |xs| ==> AtMost(xs[i], xs[j])
  }

  lemma {:induction false} Transitive(a: string, b: string, c: string)
    requires AtMost(a, b) && AtMost(b, c)
    ensures AtMost(a, c)
    decreases |a|
  {
    if a == b || b == c || a == [] {
    } else if a[0] == b[0] == c[0] {
      Transitive(a[1..], b[1..], c[1..]);
      assert a == [a[0]] + a[1..] && c == [c[0]] + c[1..];
    }
  }

  lemma {:induction false} AtMostEitherWay(a: string, b: string)
    ensures AtMost(a, b) || AtMost(b, a)
    decreases |a|
  {
    if a != [] && b != [] && a[0] == b[0] {
      AtMostEitherWay(a[1..], b[1..]);
      assert a == [a[0]] + a[1..] && b == [b[0]] + b[1..];
    }
  }

  lemma {:induction false} Antisymmetric(a: string, b: string)
    requires AtMost(a, b) && AtMost(b, a)
    ensures a == b
    decreases |a|
  {
    if a != b {
      assert a == [a[0]] + a[1..] && b == [b[0]] + b[1..];
      Antisymmetric(a[1..], b[1..]);
    }
  }

  lemma {:induction false} InsertSorted(x: string, xs: seq<string>)
    requires Sorted(xs)
    ensures Sorted(Insert(x, xs))
  {
    if xs == [] {
    } else if AtMost(x, xs[0]) {
      forall j | 0 <= j < |xs| ensures AtMost(x, xs[j]) {
        Transitive(x, xs[0], xs[j]);
      }
    } else {
      AtMostEitherWay(x, xs[0]);
      InsertSorted(x, xs[1..]);
      var rest := Insert(x, xs[1..]);
      forall j | 0 <= j < |rest| ensures AtMost(xs[0], rest[j]) {
        assert rest[j] in multiset(rest);
        assert rest[j] == x || rest[j] in xs[1..];
      }
    }
  }

  lemma {:induction false} SortSorted(xs: seq<string>)
    ensures Sorted(Sort(xs))
  {
    if xs != [] {
      SortSorted(xs[1..]);
      InsertSorted(xs[0], Sort(xs[1..]));
    }
  }

  lemma {:induction false} SortedUnique(xs: seq<string>, ys: seq<string>)
    requires Sorted(xs) && Sorted(ys) && multiset(xs) == multiset(ys)
    ensures xs == ys
  {
    if xs == [] {
      assert |multiset(ys)| == |ys|;
    } else {
      SameHead(xs, ys);
      assert xs == [xs[0]] + xs[1..] && ys == [ys[0]] + ys[1..];
      assert multiset(xs[1..]) == multiset(xs) - multiset{xs[0]};
      assert multiset(ys[1..]) == multiset(ys) - multiset{ys[0]};
      SortedUnique(xs[1..], ys[1..]);
    }
  }

  lemma SameHead(xs: seq<string>, ys: seq<string>)
    requires Sorted(xs) && Sorted(ys) && multiset(xs) == multiset(ys) && xs != []
    ensures ys != [] && xs[0] == ys[0]
  {
    assert |multiset(ys)| == |ys| && |multiset(xs)| == |xs|;
    assert xs[0] in multiset(xs) && ys[0] in multiset(ys);
    var i :| 0 <= i < |ys| && ys[i] == xs[0];
    var j :| 0 <= j < |xs| && xs[j] == ys[0];
    Antisymmetric(xs[0], ys[0]);
  }

  /** Sorting forgets the order and nothing else. */
  lemma SortDecidesMultiset(xs: seq<string>, ys: seq<string>)
    ensures Sort(xs) == Sort(ys) <==> multiset(xs) == multiset(ys)
  {
    SortSorted(xs);
    SortSorted(ys);
    if multiset(xs) == multiset(ys) {
      SortedUnique(Sort(xs), Sort(ys));
    }
  }

  ghost predicate Distinct<T>(xs: seq<T>) {
    forall i, j :: 0 <= i < j < |xs| ==> xs[i] != xs[j]
  }

  lemma {:induction false} DistinctCount<T>(xs: seq<T>)
    ensures Distinct(xs) <==> forall x :: x in xs ==> multiset(xs)[x] == 1
  {
    if xs != [] {
      var tail := xs[1..];
      DistinctCount(tail);
      assert xs == [xs[0]] + tail;
      if Distinct(xs) {
        assert xs[0] !in tail;
        assert forall x :: x in tail ==> x in xs;
      } else if forall x :: x in xs ==> multiset(xs)[x] == 1 {
        assert multiset(xs) == multiset{xs[0]} + multiset(tail);
        assert xs[0] in xs && multiset(tail)[xs[0]] == 0;
        assert xs[0] !in tail;
        forall x | x in tail ensures multiset(tail)[x] == 1 {
          assert multiset(xs)[x] == 1 && x != xs[0];
        }
      }
    }
  }

  /** Lists without repetition have the same sorted form when they have the same elements. */
  lemma SameElementsSameSort(xs: seq<string>, ys: seq<string>)
    requires Distinct(xs) && Distinct(ys)
    requires forall x :: x in xs <==> x in ys
    ensures Sort(xs) == Sort(ys)
  {
    DistinctCount(xs);
    DistinctCount(ys);
    assert multiset(xs) == multiset(ys) by {
      forall x ensures multiset(xs)[x] == multiset(ys)[x] {
        assert x in xs <==> x in multiset(xs);
        assert x in ys <==> x in multiset(ys);
      }
    }
    SortDecidesMultiset(xs, ys);
  }

  lemma SortMembers(xs: seq<string>)
    ensures forall x :: x in Sort(xs) <==> x in xs
    ensures |Sort(xs)| == |xs|
    ensures Distinct(xs) <==> Distinct(Sort(xs))
  {
    assert forall x :: x in Sort(xs) <==> x in multiset(Sort(xs));
    assert forall x :: x in xs <==> x in multiset(xs);
    assert |Sort(xs)| == |multiset(Sort(xs))|;
    DistinctCount(xs);
    DistinctCount(Sort(xs));
  }

  // ---------------------------------------------------------------------------------------
  // The order is that of UTF-16 code units

  /** The code units of a character: itself, or a surrogate pair above U+FFFF. */
  function Units(c: char): (us: seq<nat>)
    ensures |us| in {1, 2}
  {
    var n := c as int;
    if n < 0x1_0000 then [n] else [0xD800 + (n - 0x1_0000) / 0x400, 0xDC00 + (n - 0x1_0000) % 0x400]
  }

  function CodeUnits(text: string): seq<nat> {
    if text == "" then [] else Units(text[0]) + CodeUnits(text[1..])
  }

  /** Strictly before in the dictionary order of numbers. */
  predicate UnitsLess(a: seq<nat>, b: seq<nat>) {
    b != [] && (a == [] || a[0] < b[0] || (a[0] == b[0] && UnitsLess(a[1..], b[1..])))
  }

  lemma {:induction false} UnitsPrefix(left: seq<nat>, a: seq<nat>, b: seq<nat>)
    ensures UnitsLess(left + a, left + b) <==> UnitsLess(a, b)
  {
    if left == [] {
      assert left + a == a && left + b == b;
    } else {
      assert (left + a)[1..] == left[1..] + a && (left + b)[1..] == left[1..] + b;
      UnitsPrefix(left[1..], a, b);
    }
  }

  /** Different characters decide the order by their units, whatever follows. */
  lemma UnitsDecide(c: char, d: char, a: seq<nat>, b: seq<nat>)
    requires c != d
    ensures UnitsLess(Units(c) + a, Units(d) + b) <==> CodeUnitRank(c) < CodeUnitRank(d)
  {
    var m, n := c as int, d as int;
    var u, v := Units(c) + a, Units(d) + b;
    assert m != n by { assert c as int as char == c && d as int as char == d; }
    if u[0] == v[0] { assert u[1..][0] == u[1] && v[1..][0] == v[1]; }
  }

  /** Strings are ordered as JavaScript orders them, by their UTF-16 code units. */
  lemma {:induction false} OrderIsCodeUnits(a: string, b: string)
    ensures Less(a, b) <==> UnitsLess(CodeUnits(a), CodeUnits(b))
    ensures AtMost(a, b) <==> a == b || UnitsLess(CodeUnits(a), CodeUnits(b))
    decreases |a|
  {
    hide CodeUnitRank, Units;
    if a != "" && b != "" {
      if a[0] == b[0] {
        OrderIsCodeUnits(a[1..], b[1..]);
        UnitsPrefix(Units(a[0]), CodeUnits(a[1..]), CodeUnits(b[1..]));
      } else {
        UnitsDecide(a[0], b[0], CodeUnits(a[1..]), CodeUnits(b[1..]));
      }
    }
  }
}
