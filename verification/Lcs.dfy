/** src/compare.js:28-44: the one-row longest-common-subsequence table and the log similarity built on it. */
module Lcs {
  import opened JsText

  function Init<T>(xs: seq<T>): seq<T>
    requires xs != []
  {
    xs[..|xs| - 1]
  }

  function Last<T>(xs: seq<T>): T
    requires xs != []
  {
    xs[|xs| - 1]
  }

  function Max(x: nat, y: nat): nat { if x > y then x else y }

  /** The recurrence of the full two-dimensional table. */
  function Length<T(==)>(left: seq<T>, right: seq<T>): nat
    decreases |left| + |right|
  {
    if left == [] || right == [] then 0
    else if Last(left) == Last(right) then Length(Init(left), Init(right)) + 1
    else Max(Length(Init(left), right), Length(left, Init(right)))
  }

  // ---------------------------------------------------------------------------------------
  // Independent meaning: common subsequences and edit scripts

  ghost predicate IsSubsequence<T>(c: seq<T>, xs: seq<T>)
    decreases |xs|
  {
    c == [] ||
    (xs != [] &&
     (IsSubsequence(c, Init(xs)) || (Last(c) == Last(xs) && IsSubsequence(Init(c), Init(xs)))))
  }

  ghost predicate IsCommon<T>(c: seq<T>, left: seq<T>, right: seq<T>) {
    IsSubsequence(c, left) && IsSubsequence(c, right)
  }

  /** A script turns one list of lines into another, working from the last line to the first. */
  datatype Edit<T> = Keep | Delete | Insert(line: T)

  function Apply<T>(script: seq<Edit<T>>, xs: seq<T>): Option<seq<T>>
    decreases |script|
  {
    if script == [] then (if xs == [] then Some([]) else None)
    else match Last(script)
      case Insert(line) =>
        var rest := Apply(Init(script), xs);
        if rest.None? then None else Some(rest.value + [line])
      case Delete => if xs == [] then None else Apply(Init(script), Init(xs))
      case Keep =>
        if xs == [] then None else
        var rest := Apply(Init(script), Init(xs));
        if rest.None? then None else Some(rest.value + [Last(xs)])
  }

  /** The number of inserted and deleted lines. */
  function Cost<T>(script: seq<Edit<T>>): nat {
    if script == [] then 0 else Cost(Init(script)) + (if Last(script).Keep? then 0 else 1)
  }

  function EditDistance<T(==)>(left: seq<T>, right: seq<T>): int {
    |left| + |right| - 2 * Length(left, right)
  }

  /** A longest common subsequence, read off the recurrence. */
  function Witness<T(==)>(left: seq<T>, right: seq<T>): (c: seq<T>)
    decreases |left| + |right|
  {
    if left == [] || right == [] then []
    else if Last(left) == Last(right) then Witness(Init(left), Init(right)) + [Last(left)]
    else if Length(Init(left), right) > Length(left, Init(right)) then Witness(Init(left), right)
    else Witness(left, Init(right))
  }

  lemma {:induction false} WitnessIsCommon<T>(left: seq<T>, right: seq<T>)
    ensures IsCommon(Witness(left, right), left, right)
    ensures |Witness(left, right)| == Length(left, right)
    decreases |left| + |right|
  {
    if left == [] || right == [] {
    } else if Last(left) == Last(right) {
      WitnessIsCommon(Init(left), Init(right));
      var c := Witness(Init(left), Init(right));
      assert Init(c + [Last(left)]) == c;
    } else if Length(Init(left), right) > Length(left, Init(right)) {
      WitnessIsCommon(Init(left), right);
    } else {
      WitnessIsCommon(left, Init(right));
    }
  }

  lemma {:induction false} DropLast<T>(c: seq<T>, xs: seq<T>)
    requires c != [] && IsSubsequence(c, xs)
    ensures IsSubsequence(Init(c), xs)
    decreases |xs|
  {
    if IsSubsequence(c, Init(xs)) {
      DropLast(c, Init(xs));
    }
    if |c| > 1 && Last(c) == Last(xs) && IsSubsequence(Init(c), Init(xs)) {
      assert IsSubsequence(Init(c), xs);
    }
  }

  lemma {:induction false} NoLongerCommon<T>(c: seq<T>, left: seq<T>, right: seq<T>)
    requires IsCommon(c, left, right)
    ensures |c| <= Length(left, right)
    decreases |left| + |right|
  {
    if c == [] {
    } else if Last(left) == Last(right) {
      if IsSubsequence(c, Init(left)) { DropLast(c, Init(left)); }
      if IsSubsequence(c, Init(right)) { DropLast(c, Init(right)); }
      NoLongerCommon(Init(c), Init(left), Init(right));
    } else if IsSubsequence(c, Init(left)) {
      NoLongerCommon(c, Init(left), right);
    } else {
      NoLongerCommon(c, left, Init(right));
    }
  }

  /** The recurrence gives the length of a longest common subsequence. */
  lemma LengthIsMaximal<T(!new)>(left: seq<T>, right: seq<T>)
    ensures exists c :: IsCommon(c, left, right) && |c| == Length(left, right)
    ensures forall c :: IsCommon(c, left, right) ==> |c| <= Length(left, right)
  {
    WitnessIsCommon(left, right);
    forall c | IsCommon(c, left, right) ensures |c| <= Length(left, right) {
      NoLongerCommon(c, left, right);
    }
  }

  lemma {:induction false} SubsequenceLength<T>(c: seq<T>, xs: seq<T>)
    requires IsSubsequence(c, xs)
    ensures |c| <= |xs|
    ensures |c| == |xs| ==> c == xs
    decreases |xs|
  {
    if c == [] {
    } else if IsSubsequence(c, Init(xs)) {
      SubsequenceLength(c, Init(xs));
    } else {
      SubsequenceLength(Init(c), Init(xs));
      assert c == Init(c) + [Last(c)] && xs == Init(xs) + [Last(xs)];
    }
  }

  lemma {:induction false} SelfSubsequence<T>(xs: seq<T>)
    ensures IsSubsequence(xs, xs)
    decreases |xs|
  {
    if xs != [] { SelfSubsequence(Init(xs)); }
  }

  /** The lines a script keeps. */
  ghost function Kept<T>(script: seq<Edit<T>>, xs: seq<T>): seq<T>
    requires Apply(script, xs).Some?
    decreases |script|
  {
    if script == [] then []
    else match Last(script)
      case Insert(_) => Kept(Init(script), xs)
      case Delete => Kept(Init(script), Init(xs))
      case Keep => Kept(Init(script), Init(xs)) + [Last(xs)]
  }

  lemma {:induction false} KeptIsCommon<T>(script: seq<Edit<T>>, left: seq<T>, right: seq<T>)
    requires Apply(script, left) == Some(right)
    ensures IsCommon(Kept(script, left), left, right)
    ensures Cost(script) == |left| + |right| - 2 * |Kept(script, left)|
    decreases |script|
  {
    if script == [] {
    } else {
      match Last(script)
      case Insert(line) =>
        KeptIsCommon(Init(script), left, Init(right));
        assert right == Init(right) + [line];
      case Delete =>
        KeptIsCommon(Init(script), Init(left), right);
      case Keep =>
        KeptIsCommon(Init(script), Init(left), Init(right));
        var c := Kept(Init(script), Init(left));
        assert Init(c + [Last(left)]) == c;
    }
  }

  function BestScript<T(==)>(left: seq<T>, right: seq<T>): seq<Edit<T>>
    decreases |left| + |right|
  {
    if left == [] && right == [] then []
    else if left == [] then BestScript(left, Init(right)) + [Insert(Last(right))]
    else if right == [] then BestScript(Init(left), right) + [Delete]
    else if Last(left) == Last(right) then BestScript(Init(left), Init(right)) + [Keep]
    else if Length(Init(left), right) > Length(left, Init(right)) then BestScript(Init(left), right) + [Delete]
    else BestScript(left, Init(right)) + [Insert(Last(right))]
  }

  lemma {:induction false} BestScriptWorks<T>(left: seq<T>, right: seq<T>)
    ensures Apply(BestScript(left, right), left) == Some(right)
    ensures Cost(BestScript(left, right)) == EditDistance(left, right)
    decreases |left| + |right|
  {
    if left == [] && right == [] {
    } else {
      var l, r := left, right;
      if left != [] &&
        (right == [] || Last(left) == Last(right) || Length(Init(left), right) > Length(left, Init(right))) {
        l := Init(left);
      }
      if right != [] &&
        (left == [] || Last(left) == Last(right) || Length(Init(left), right) <= Length(left, Init(right))) {
        r := Init(right);
      }
      BestScriptWorks(l, r);
      assert Init(BestScript(left, right)) == BestScript(l, r);
      assert right != [] ==> right == Init(right) + [Last(right)];
    }
  }

  /** `|left| + |right| - 2 * LCS` is the least number of line insertions and deletions. */
  lemma EditDistanceIsLeast<T(!new)>(left: seq<T>, right: seq<T>)
    ensures exists script :: Apply(script, left) == Some(right) && Cost(script) == EditDistance(left, right)
    ensures forall script :: Apply(script, left) == Some(right) ==> Cost(script) >= EditDistance(left, right)
  {
    BestScriptWorks(left, right);
    forall script | Apply(script, left) == Some(right) ensures Cost(script) >= EditDistance(left, right) {
      KeptIsCommon(script, left, right);
      NoLongerCommon(Kept(script, left), left, right);
    }
  }

  // ---------------------------------------------------------------------------------------
  // The rolling row

  lemma LengthAtMost<T>(left: seq<T>, right: seq<T>)
    ensures Length(left, right) <= |left| && Length(left, right) <= |right|
  {
    WitnessIsCommon(left, right);
    SubsequenceLength(Witness(left, right), left);
    SubsequenceLength(Witness(left, right), right);
  }

  /** Entry (i, j) of the table: the answer for the first `i` and the first `j` lines. */
  function Entry<T(==)>(left: seq<T>, right: seq<T>, i: nat, j: nat): nat
    requires i <= |left| && j <= |right|
  {
    Length(left[..i], right[..j])
  }

  lemma EntryStep<T>(left: seq<T>, right: seq<T>, i: nat, j: nat)
    requires i < |left| && j < |right|
    ensures Entry(left, right, i + 1, j + 1) ==
            if left[i] == right[j] then Entry(left, right, i, j) + 1
            else Max(Entry(left, right, i, j + 1), Entry(left, right, i + 1, j))
    ensures Entry(left, right, i + 1, j + 1) <= |right|
  {
    LengthAtMost(left[..i + 1], right[..j + 1]);
    assert Init(left[..i + 1]) == left[..i];
    assert Init(right[..j + 1]) == right[..j];
  }

  /**
   The row is a Uint32Array, so the right-hand side has fewer than 2^32 lines, the most a
   JavaScript array can hold.
   */
  method LcsLength<T(==)>(left: seq<T>, right: seq<T>) returns (length: nat)
    requires |right| < 0xFFFF_FFFF
    ensures length == Length(left, right)
  {
    var row := new nat[|right| + 1](_ => 0);
    for i := 0 to |left|
      invariant forall j :: 0 <= j <= |right| ==> row[j] == Entry(left, right, i, j)
    {
      var diagonal := 0;
      var index := 1;
      while index <= |right|
        invariant 1 <= index <= |right| + 1
        invariant diagonal == Entry(left, right, i, index - 1)
        invariant forall j :: 0 <= j < index ==> row[j] == Entry(left, right, i + 1, j)
        invariant forall j :: index <= j <= |right| ==> row[j] == Entry(left, right, i, j)
      {
        var previous := row[index];
        EntryStep(left, right, i, index - 1);
        var next := if left[i] == right[index - 1] then diagonal + 1 else Max(row[index], row[index - 1]);
        assert next == Entry(left, right, i + 1, index) && ToUint32(next) == next;
        row[index] := ToUint32(next);
        diagonal := previous;
        index := index + 1;
      }
    }
    assert left[..|left|] == left && right[..|right|] == right;
    length := row[|right|];
  }

  // ---------------------------------------------------------------------------------------
  // Similarity, as an exact rational

  function Similarity<T(==)>(expected: seq<T>, actual: seq<T>): real {
    if expected == [] && actual == [] then 1.0
    else (2 * Length(expected, actual)) as real / (|expected| + |actual|) as real
  }

  method LogSimilarity<T(==)>(expected: seq<T>, actual: seq<T>) returns (similarity: real)
    requires |actual| < 0xFFFF_FFFF
    ensures similarity == Similarity(expected, actual)
  {
    if |expected| == 0 && |actual| == 0 { return 1.0; }
    var length := LcsLength(expected, actual);
    similarity := (2 * length) as real / (|expected| + |actual|) as real;
  }

  lemma {:induction false} LengthSymmetric<T>(left: seq<T>, right: seq<T>)
    ensures Length(left, right) == Length(right, left)
    decreases |left| + |right|
  {
    if left == [] || right == [] {
    } else {
      LengthSymmetric(Init(left), Init(right));
      LengthSymmetric(Init(left), right);
      LengthSymmetric(left, Init(right));
    }
  }

  lemma LengthFull<T>(left: seq<T>, right: seq<T>)
    ensures 2 * Length(left, right) == |left| + |right| <==> left == right
  {
    LengthAtMost(left, right);
    WitnessIsCommon(left, right);
    SubsequenceLength(Witness(left, right), left);
    SubsequenceLength(Witness(left, right), right);
    if left == right {
      SelfSubsequence(left);
      NoLongerCommon(left, left, right);
    }
  }

  lemma DivideAtLeast(a: real, b: real, t: real)
    requires b > 0.0
    ensures a / b >= t <==> a >= t * b
    ensures a / b <= t <==> a <= t * b
  {
    var q := a / b;
    assert q * b == a;
    if q > t { assert (q - t) * b > 0.0; }
    if q < t { assert (t - q) * b > 0.0; }
  }

  lemma Ratio(a: nat, b: nat)
    requires 0 < b
    ensures a as real / b as real == 1.0 <==> a == b
    ensures 0.0 <= a as real / b as real
    ensures a as real / b as real <= 1.0 <==> a <= b
    ensures a as real / b as real >= 0.95 <==> 20 * (b - a) <= b
  {
    DivideAtLeast(a as real, b as real, 0.0);
    DivideAtLeast(a as real, b as real, 1.0);
    DivideAtLeast(a as real, b as real, 0.95);
  }

  /** Similarity is a symmetric score in [0, 1] that is 1 exactly for identical logs. */
  lemma SimilarityIsScore<T>(expected: seq<T>, actual: seq<T>)
    ensures 0.0 <= Similarity(expected, actual) <= 1.0
    ensures Similarity(expected, actual) == Similarity(actual, expected)
    ensures Similarity(expected, actual) == 1.0 <==> expected == actual
  {
    LengthSymmetric(expected, actual);
    LengthFull(expected, actual);
    LengthAtMost(expected, actual);
    if |expected| + |actual| > 0 {
      Ratio(2 * Length(expected, actual), |expected| + |actual|);
    }
  }

  /** The 0.95 threshold allows exactly the logs an edit of at most 5% of all lines apart. */
  lemma ThresholdIsEditBound<T(!new)>(expected: seq<T>, actual: seq<T>)
    ensures Similarity(expected, actual) >= 0.95 <==>
            exists script :: Apply(script, expected) == Some(actual) && 20 * Cost(script) <= |expected| + |actual|
  {
    EditDistanceIsLeast(expected, actual);
    LengthFull(expected, actual);
    if |expected| + |actual| > 0 {
      Ratio(2 * Length(expected, actual), |expected| + |actual|);
    }
  }

  lemma Share(part: int, whole: int)
    requires whole > 0
    ensures (1.0 - part as real / whole as real) * whole as real == (whole - part) as real
  {
    var n, d := part as real, whole as real;
    Quotient(n, d);
    assert (1.0 - n / d) * d == d - n / d * d;
  }

  lemma Quotient(n: real, d: real)
    requires d > 0.0
    ensures n / d * d == n
  {
  }

  /** At every threshold: what the similarity lacks to 1 is the least edit cost, as a share of all lines. */
  lemma SimilarityIsEditShare<T(!new)>(expected: seq<T>, actual: seq<T>)
    ensures (1.0 - Similarity(expected, actual)) * (|expected| + |actual|) as real ==
      EditDistance(expected, actual) as real
    ensures exists script :: Apply(script, expected) == Some(actual) && Cost(script) == EditDistance(expected, actual)
    ensures forall script :: Apply(script, expected) == Some(actual) ==> Cost(script) >= EditDistance(expected, actual)
  {
    hide Apply, Cost, Length;
    EditDistanceIsLeast(expected, actual);
    LengthAtMost(expected, actual);
    if |expected| + |actual| > 0 {
      Share(2 * Length(expected, actual), |expected| + |actual|);
    }
  }
}
