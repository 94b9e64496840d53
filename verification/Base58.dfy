/** src/base58.js: the base-58 codec and the two predicates built on it. */
module Base58 {
  import opened JsText
  import opened Numerals

  const ALPHABET := "123456789" + "ABCDEFGH" + "JKLMN" + "PQRSTUVWXYZ" + "abcdefghijk" + "mnopqrstuvwxyz"

  type Digit = d: nat | d < 58

  /** `ALPHABET[d]`: the alphabet leaves out 0, I, O and l, and each of its runs is consecutive in ASCII. */
  function Letter(d: Digit): char {
    (d + (if d < 9 then 49
          else if d < 17 then 56
          else if d < 22 then 57
          else if d < 33 then 58
          else if d < 44 then 64
          else 65)) as char
  }

  /** INDEX.get: the position of a character in the alphabet. */
  function Index(c: char): Option<Digit> {
    if '1' <= c <= '9' then Some(c as int - 49)
    else if 'A' <= c <= 'H' then Some(c as int - 56)
    else if 'J' <= c <= 'N' then Some(c as int - 57)
    else if 'P' <= c <= 'Z' then Some(c as int - 58)
    else if 'a' <= c <= 'k' then Some(c as int - 64)
    else if 'm' <= c <= 'z' then Some(c as int - 65)
    else None
  }

  lemma LetterIsAlphabet(d: Digit)
    ensures |ALPHABET| == 58 && ALPHABET[d] == Letter(d)
  {
    var run0, run1, run2 := "123456789", "ABCDEFGH", "JKLMN";
    var run3, run4, run5 := "PQRSTUVWXYZ", "abcdefghijk", "mnopqrstuvwxyz";
    if d < 9 { assert ALPHABET[d] == run0[d]; }
    else if d < 17 { assert ALPHABET[d] == run1[d - 9]; }
    else if d < 22 { assert ALPHABET[d] == run2[d - 17]; }
    else if d < 33 { assert ALPHABET[d] == run3[d - 22]; }
    else if d < 44 { assert ALPHABET[d] == run4[d - 33]; }
    else { assert ALPHABET[d] == run5[d - 44]; }
  }

  lemma IndexOfLetter(d: Digit)
    ensures Index(Letter(d)) == Some(d)
  {
  }

  lemma LetterOfIndex(c: char)
    requires Index(c).Some?
    ensures Letter(Index(c).value) == c
  {
  }

  /**
   The arithmetic forms are the table of the source: a character has a digit exactly when it stands at
   that place of the alphabet.
   */
  lemma IndexIsPosition(c: char, d: Digit)
    ensures |ALPHABET| == 58
    ensures Index(c) == Some(d) <==> ALPHABET[d] == c
    ensures Index(c).None? <==> c !in ALPHABET
  {
    hide Index, Letter;
    LetterIsAlphabet(d);
    IndexOfLetter(d);
    if Index(c).Some? {
      LetterOfIndex(c);
      LetterIsAlphabet(Index(c).value);
    }
    if c in ALPHABET {
      var i: nat :| i < |ALPHABET| && ALPHABET[i] == c;
      LetterIsAlphabet(i);
      IndexOfLetter(i);
    }
  }

  // ---------------------------------------------------------------------------------------
  // The scheme: leading zeros are kept one for one, the rest is a change of base.

  function Rebase(xs: seq<nat>, source: nat, target: nat): (ys: seq<nat>)
    requires target >= 2
    ensures Below(ys, target)
  {
    Zeros(LeadingZeros(xs)) + Canonical(Value(xs, source), target)
  }

  function Letters(ds: seq<nat>): (s: string)
    requires Below(ds, 58)
    ensures |s| == |ds|
  {
    seq(|ds|, i requires 0 <= i < |ds| => Letter(ds[i]))
  }

  predicate InAlphabet(s: string) {
    forall i :: 0 <= i < |s| ==> Index(s[i]).Some?
  }

  function Digits(s: string): (ds: seq<nat>)
    requires InAlphabet(s)
    ensures |ds| == |s| && Below(ds, 58)
    ensures forall i :: 0 <= i < |s| ==> ds[i] == Index(s[i]).value
  {
    seq(|s|, i requires 0 <= i < |s| => Index(s[i]).value)
  }

  function Encoded(bytes: seq<Byte>): string {
    Letters(Rebase(bytes, 256, 58))
  }

  /** The decoding of `s`, or the first character outside the alphabet. */
  function Decoded(s: string): Result<seq<Byte>, char> {
    if InAlphabet(s) then Ok(AsBytes(Rebase(Digits(s), 58, 256))) else Err(FirstInvalid(s))
  }

  function FirstInvalid(s: string): (c: char)
    requires !InAlphabet(s)
    ensures Index(c).None? && c in s
  {
    if Index(s[0]).None? then s[0] else FirstInvalid(s[1..])
  }

  function AsBytes(xs: seq<nat>): (bs: seq<Byte>)
    requires Below(xs, 256)
    ensures bs == xs
  {
    seq(|xs|, i requires 0 <= i < |xs| => xs[i])
  }

  /** Changing the base and back is the identity: the leading zeros and the number determine the numeral. */
  lemma RebaseInverse(xs: seq<nat>, source: nat, target: nat)
    requires source >= 2 && target >= 2 && Below(xs, source)
    ensures Rebase(Rebase(xs, source, target), target, source) == xs
  {
    var z := LeadingZeros(xs);
    var v := Value(xs, source);
    var ys := Canonical(v, target);
    LeadingZerosOf(z, ys);
    ValueZeros(z, ys, target);
    CanonicalValue(v, target);
    var rest := xs[z..];
    assert xs == Zeros(z) + rest;
    ValueZeros(z, rest, source);
    CanonicalUnique(rest, source);
  }

  lemma DigitsOfLetters(ds: seq<nat>)
    requires Below(ds, 58)
    ensures InAlphabet(Letters(ds)) && Digits(Letters(ds)) == ds
  {
    forall i | 0 <= i < |ds| ensures Index(Letters(ds)[i]) == Some(ds[i]) {
      IndexOfLetter(ds[i]);
    }
  }

  /** Every byte sequence, with any run of leading zeros, survives encoding and decoding. */
  lemma DecodeEncode(bytes: seq<Byte>)
    ensures Decoded(Encoded(bytes)) == Ok(bytes)
  {
    DigitsOfLetters(Rebase(bytes, 256, 58));
    RebaseInverse(bytes, 256, 58);
  }

  /** Every text over the alphabet is the encoding of what it decodes to. */
  lemma EncodeDecode(s: string)
    requires Decoded(s).Ok?
    ensures Encoded(Decoded(s).value) == s
  {
    hide Index, Letter;
    RebaseInverse(Digits(s), 58, 256);
    forall i | 0 <= i < |s| ensures Letter(Digits(s)[i]) == s[i] {
      LetterOfIndex(s[i]);
    }
    assert Letters(Digits(s)) == s;
  }

  // ---------------------------------------------------------------------------------------
  // The loops, with their 32-bit operators

  /**
   What both carry loops keep: the limbs already rewritten, with the carry standing just above
   them, make `source` times the limbs they replace, plus the addend.
   */
  ghost predicate Carried(done: seq<nat>, carry: nat, replaced: seq<nat>, addend: nat, source: nat, target: nat) {
    ValueLE(done, target) + carry * Pow(target, |done|) == source * ValueLE(replaced, target) + addend
  }

  lemma CarryStep(done: seq<nat>, carry: nat, replaced: seq<nat>, limb: nat, addend: nat, source: nat, target: nat)
    requires target >= 1 && |done| == |replaced| && Carried(done, carry, replaced, addend, source, target)
    ensures var sum := carry + limb * source;
      Carried(done + [sum % target], sum / target, replaced + [limb], addend, source, target)
  {
    hide ValueLE, Pow;
    var sum, p := carry + limb * source, Pow(target, |done|);
    AppendValue(replaced, limb, target);
    PushStep(done, sum, target);
    StepAlgebra(ValueLE(done, target), carry, p, ValueLE(replaced, target), limb, addend, source);
    var done', replaced' := done + [sum % target], replaced + [limb];
    assert |done'| == |done| + 1;
    assert ValueLE(replaced', target) == ValueLE(replaced, target) + limb * p;
    calc {
      ValueLE(done', target) + (sum / target) * Pow(target, |done'|);
      ValueLE(done, target) + sum * p;
      source * ValueLE(replaced', target) + addend;
    }
  }

  lemma CarriedStart(addend: nat, source: nat, target: nat)
    ensures Carried([], addend, [], addend, source, target)
  {
    assert addend * Pow(target, 0) == addend && source * ValueLE([], target) == 0;
  }

  lemma StepAlgebra(low: nat, carry: nat, p: nat, replaced: nat, limb: nat, addend: nat, source: nat)
    requires low + carry * p == source * replaced + addend
    ensures low + (carry + limb * source) * p == source * (replaced + limb * p) + addend
  {
    assert (limb * source) * p == source * (limb * p);
  }

  lemma PushStep(done: seq<nat>, carry: nat, target: nat)
    requires target >= 1
    ensures ValueLE(done + [carry % target], target) + (carry / target) * Pow(target, |done| + 1)
         == ValueLE(done, target) + carry * Pow(target, |done|)
  {
    AppendValue(done, carry % target, target);
    CarryAlgebra(carry, Pow(target, |done|), target);
  }

  lemma CarryAlgebra(carry: nat, p: nat, target: nat)
    requires target >= 1
    ensures (carry % target) * p + (carry / target) * (target * p) == carry * p
  {
    var q, r := carry / target, carry % target;
    assert carry == q * target + r;
    assert q * (target * p) + r * p == (q * target + r) * p;
  }

  /** The 32-bit operators of the encoder's carry loop do not overflow: a sum is at most 14847. */
  lemma EncoderSum(digit: nat, carry: int)
    requires digit < 58 && 0 <= carry <= 255
    ensures ShiftLeft8(digit) == digit * 256
    ensures carry + digit * 256 <= 14847 && 0 <= (carry + digit * 256) / 58 <= 255
    ensures digit > 0 ==> (carry + digit * 256) / 58 > 0
  {
  }

  /** A little-endian numeral without a superfluous top digit. */
  predicate Trimmed(xs: seq<nat>) {
    |xs| >= 1 && (|xs| == 1 || xs[|xs| - 1] != 0)
  }

  /** Reading a trimmed little-endian numeral backwards gives the canonical one; zero keeps its one digit. */
  lemma TrimmedIsCanonical(xs: seq<nat>, base: nat)
    requires base >= 2 && Below(xs, base) && Trimmed(xs)
    ensures Reverse(xs) == if ValueLE(xs, base) == 0 then [0] else Canonical(ValueLE(xs, base), base)
  {
    ValueReverse(xs, base);
    var ys := Reverse(xs);
    if ys[0] == 0 {
      assert ys == [0];
      assert Value([0], base) == 0 * base + 0;
    } else {
      CanonicalUnique(ys, base);
      ValueBounds(ys, base);
      PowMonotone(base, 0, |ys| - 1);
    }
  }

  /** The inner loops of the encoder: multiply the digits by 256 and add one byte, carrying in base 58. */
  method AbsorbByte(before: seq<nat>, byte: Byte) returns (digits: seq<nat>)
    requires Below(before, 58) && Trimmed(before)
    ensures Below(digits, 58) && Trimmed(digits)
    ensures ValueLE(digits, 58) == 256 * ValueLE(before, 58) + byte
    ensures |before| <= |digits| <= |before| + 2
  {
    hide Pow, ValueLE;
    digits := before;
    var carry: int := byte;
    CarriedStart(byte, 256, 58);
    assert digits[..0] == [] && before[..0] == [];
    for index := 0 to |digits|
      invariant |digits| == |before| && digits[index..] == before[index..]
      invariant Below(digits[..index], 58)
      invariant 0 <= carry <= 255
      invariant index > 0 && before[index - 1] > 0 ==> carry > 0
      invariant Carried(digits[..index], carry, before[..index], byte, 256, 58)
    {
      ghost var low, digit := digits[..index], digits[index];
      CarryStep(low, carry, before[..index], digit, byte, 256, 58);
      EncoderSum(digit, carry);
      carry := carry + ShiftLeft8(digits[index]);
      digits := digits[index := carry % 58];
      carry := carry / 58;
      assert digits[..index + 1] == low + [digits[index]];
      assert before[..index + 1] == before[..index] + [digit];
    }
    assert digits[..|digits|] == digits && before[..|before|] == before;
    digits := PushCarry58(digits, carry);
  }

  /** The encoder's tail loop pushes at most two digits, and none is left zero at the top. */
  method PushCarry58(before: seq<nat>, carryIn: nat) returns (digits: seq<nat>)
    requires Below(before, 58) && before != [] && carryIn <= 255
    requires carryIn == 0 ==> Trimmed(before)
    ensures Below(digits, 58) && Trimmed(digits)
    ensures ValueLE(digits, 58) == ValueLE(before, 58) + carryIn * Pow(58, |before|)
    ensures |before| <= |digits| <= |before| + 2
  {
    digits := before;
    var carry := carryIn;
    while carry > 0
      invariant 0 <= carry <= 255
      invariant |before| <= |digits| <= |before| + 2
      invariant |digits| == |before| + 1 ==> carry <= 4
      invariant |digits| == |before| + 2 ==> carry == 0
      invariant Below(digits, 58) && (carry == 0 ==> Trimmed(digits))
      invariant ValueLE(digits, 58) + carry * Pow(58, |digits|) == ValueLE(before, 58) + carryIn * Pow(58, |before|)
    {
      PushStep(digits, carry, 58);
      digits := digits + [carry % 58];
      carry := carry / 58;
    }
  }

  method EncodeBase58(bytes: seq<Byte>) returns (result: string)
    ensures result == Encoded(bytes)
  {
    if |bytes| == 0 { return ""; }
    var digits: seq<nat> := [0];
    for i := 0 to |bytes|
      invariant Below(digits, 58) && Trimmed(digits)
      invariant ValueLE(digits, 58) == Value(bytes[..i], 256)
    {
      digits := AbsorbByte(digits, bytes[i]);
      AppendValue(bytes[..i], bytes[i], 256);
      assert bytes[..i + 1] == bytes[..i] + [bytes[i]];
    }
    assert bytes[..|bytes|] == bytes;
    result := "";
    var index := 0;
    while index < |bytes| - 1 && bytes[index] == 0
      invariant index <= |bytes| - 1
      invariant bytes[..index] == Zeros(index)
      invariant result == Letters(Zeros(index))
    {
      result := result + [Letter(0)];
      index := index + 1;
    }
    ghost var ones := index;
    index := |digits| - 1;
    while index >= 0
      invariant -1 <= index < |digits|
      invariant result == Letters(Zeros(ones) + Reverse(digits)[..|digits| - 1 - index])
    {
      result := result + [Letter(digits[index])];
      index := index - 1;
    }
    assert Reverse(digits)[..|digits|] == Reverse(digits);
    EncodedFrom(bytes, digits, ones);
  }

  lemma EncodedFrom(bytes: seq<Byte>, digits: seq<nat>, zeros: nat)
    requires Below(digits, 58) && Trimmed(digits) && ValueLE(digits, 58) == Value(bytes, 256)
    requires zeros < |bytes| && bytes[..zeros] == Zeros(zeros)
    requires zeros == |bytes| - 1 || bytes[zeros] != 0
    ensures Letters(Zeros(zeros) + Reverse(digits)) == Encoded(bytes)
  {
    hide Value, ValueLE, Canonical;
    TrimmedIsCanonical(digits, 58);
    TrimmedZeros(bytes, zeros, 256);
    CanonicalZero(58);
    assert Zeros(zeros) + [0] == Zeros(zeros + 1) + [];
    assert Zeros(zeros) + Reverse(digits) == Rebase(bytes, 256, 58);
  }

  /** Stopping the zero count one short of the end loses nothing: the last zero is the numeral zero itself. */
  lemma TrimmedZeros(xs: seq<nat>, n: nat, base: nat)
    requires base >= 2 && Below(xs, base)
    requires n < |xs| && xs[..n] == Zeros(n) && (n == |xs| - 1 || xs[n] != 0)
    ensures Value(xs, base) == 0 ==> LeadingZeros(xs) == n + 1
    ensures Value(xs, base) > 0 ==> LeadingZeros(xs) == n
  {
    var rest := xs[n..];
    assert xs == Zeros(n) + rest;
    ValueZeros(n, rest, base);
    if xs[n] != 0 {
      LeadingZerosOf(n, rest);
      ValueBounds(rest, base);
      PowMonotone(base, 0, |rest| - 1);
    } else {
      assert xs == Zeros(n + 1) + [];
      LeadingZerosOf(n + 1, []);
      ValueZeros(n + 1, [], base);
    }
  }

  lemma DecoderSum(byte: nat, carry: int)
    requires byte < 256 && 0 <= carry <= 57
    ensures carry + byte * 58 <= 14847
    ensures LowByte(carry + byte * 58) == (carry + byte * 58) % 256
    ensures ShiftRight8(carry + byte * 58) == (carry + byte * 58) / 256 <= 57
  {
  }

  /** The inner loops of the decoder: multiply the bytes by 58 and add one digit; at most one byte is pushed. */
  method AbsorbDigit(before: seq<nat>, digit: Digit) returns (bytes: seq<nat>)
    requires Below(before, 256) && Trimmed(before)
    ensures Below(bytes, 256) && Trimmed(bytes)
    ensures ValueLE(bytes, 256) == 58 * ValueLE(before, 256) + digit
    ensures |before| <= |bytes| <= |before| + 1
  {
    hide Pow, ValueLE;
    bytes := before;
    var carry: int := digit;
    CarriedStart(digit, 58, 256);
    assert bytes[..0] == [] && before[..0] == [];
    for index := 0 to |bytes|
      invariant |bytes| == |before| && bytes[index..] == before[index..]
      invariant Below(bytes[..index], 256)
      invariant 0 <= carry <= 57
      invariant index > 0 && before[index - 1] > 0 ==> carry > 0 || bytes[index - 1] > 0
      invariant Carried(bytes[..index], carry, before[..index], digit, 58, 256)
    {
      ghost var low, byte := bytes[..index], bytes[index];
      CarryStep(low, carry, before[..index], byte, digit, 58, 256);
      DecoderSum(byte, carry);
      carry := carry + bytes[index] * 58;
      bytes := bytes[index := LowByte(carry)];
      carry := ShiftRight8(carry);
      assert bytes[..index + 1] == low + [bytes[index]];
      assert before[..index + 1] == before[..index] + [byte];
    }
    assert bytes[..|bytes|] == bytes && before[..|before|] == before;
    bytes := PushCarry256(bytes, carry);
  }

  /** The decoder's tail loop pushes at most one byte, and it is not zero. */
  method PushCarry256(before: seq<nat>, carryIn: nat) returns (bytes: seq<nat>)
    requires Below(before, 256) && before != [] && carryIn <= 57
    requires carryIn == 0 ==> Trimmed(before)
    ensures Below(bytes, 256) && Trimmed(bytes)
    ensures ValueLE(bytes, 256) == ValueLE(before, 256) + carryIn * Pow(256, |before|)
    ensures |before| <= |bytes| <= |before| + 1
  {
    bytes := before;
    var carry: int := carryIn;
    while carry > 0
      invariant 0 <= carry <= 57
      invariant |before| <= |bytes| <= |before| + 1
      invariant |bytes| == |before| + 1 ==> carry == 0
      invariant Below(bytes, 256) && (carry == 0 ==> Trimmed(bytes))
      invariant ValueLE(bytes, 256) + carry * Pow(256, |bytes|) == ValueLE(before, 256) + carryIn * Pow(256, |before|)
    {
      PushStep(bytes, carry, 256);
      DecoderSum(0, carry);
      bytes := bytes + [LowByte(carry)];
      carry := ShiftRight8(carry);
    }
  }

  lemma FirstInvalidAt(s: string, i: nat)
    requires i < |s| && InAlphabet(s[..i]) && Index(s[i]).None?
    ensures !InAlphabet(s) && FirstInvalid(s) == s[i]
  {
    hide Index;
    assert !InAlphabet(s);
    if i > 0 {
      assert s[..i][0] == s[0];
      assert s[1..][..i - 1] == s[..i][1..];
      FirstInvalidAt(s[1..], i - 1);
    }
  }

  lemma DigitsAppend(value: string, i: nat)
    requires i < |value| && InAlphabet(value[..i]) && Index(value[i]).Some?
    ensures InAlphabet(value[..i + 1])
    ensures Value(Digits(value[..i + 1]), 58) == 58 * Value(Digits(value[..i]), 58) + Index(value[i]).value
  {
    hide Index, Value;
    AppendValue(Digits(value[..i]), Index(value[i]).value, 58);
    assert value[..i + 1] == value[..i] + [value[i]];
    assert Digits(value[..i + 1]) == Digits(value[..i]) + [Index(value[i]).value];
  }

  /** The decoder's outer loop. */
  method DecodeNumber(value: string) returns (result: Result<seq<nat>, char>)
    ensures result.Err? ==> Decoded(value) == Err(result.error)
    ensures result.Ok? ==> InAlphabet(value) && Below(result.value, 256) && Trimmed(result.value)
    ensures result.Ok? ==> ValueLE(result.value, 256) == Value(Digits(value), 58)
  {
    hide Index, Value, ValueLE, Canonical;
    DecodedEmpty();
    var bytes: seq<nat> := [0];
    for i := 0 to |value|
      invariant InAlphabet(value[..i])
      invariant Below(bytes, 256) && Trimmed(bytes)
      invariant ValueLE(bytes, 256) == Value(Digits(value[..i]), 58)
    {
      var digit := Index(value[i]);
      if digit.None? {
        FirstInvalidAt(value, i);
        return Err(value[i]);
      }
      bytes := AbsorbDigit(bytes, digit.value);
      DigitsAppend(value, i);
    }
    assert value[..|value|] == value;
    result := Ok(bytes);
  }

  method DecodeBase58(value: string) returns (result: Result<seq<Byte>, char>)
    ensures result == Decoded(value)
  {
    hide Index, Decoded, Value, ValueLE;
    DecodedEmpty();
    if |value| == 0 { return Ok([]); }
    var number := DecodeNumber(value);
    if number.Err? { return Err(number.error); }
    var bytes, index := number.value, 0;
    while index < |value| - 1 && value[index] == Letter(0)
      invariant index <= |value| - 1
      invariant Digits(value)[..index] == Zeros(index)
      invariant bytes == number.value + Zeros(index)
    {
      IndexOne(value[index]);
      bytes := bytes + [0];
      index := index + 1;
    }
    IndexOne(value[index]);
    DecodedFrom(value, number.value, index);
    result := Ok(AsBytes(Reverse(bytes)));
  }

  lemma IndexOne(c: char)
    ensures c == Letter(0) <==> Index(c) == Some(0)
  {
    IndexOfLetter(0);
  }

  lemma DecodedEmpty()
    ensures Decoded("") == Ok([])
    ensures Value([], 58) == ValueLE([0], 256)
  {
    assert Value([], 58) == 0 && ValueLE([0], 256) == ValueLE([], 256) + 0;
    assert Digits("") == [] && Rebase([], 58, 256) == [];
  }

  lemma DecodedFrom(value: string, number: seq<nat>, zeros: nat)
    requires InAlphabet(value) && Below(number, 256) && Trimmed(number)
    requires ValueLE(number, 256) == Value(Digits(value), 58)
    requires zeros < |value| && Digits(value)[..zeros] == Zeros(zeros)
    requires zeros == |value| - 1 || Digits(value)[zeros] != 0
    ensures Below(Reverse(number + Zeros(zeros)), 256)
    ensures Decoded(value) == Ok(AsBytes(Reverse(number + Zeros(zeros))))
  {
    hide Index, Value, ValueLE, Canonical;
    TrimmedIsCanonical(number, 256);
    TrimmedZeros(Digits(value), zeros, 58);
    assert Canonical(0, 256) == [] by { CanonicalZero(256); }
    var digits := Reverse(number);
    assert Reverse(number + Zeros(zeros)) == Zeros(zeros) + digits;
    assert Zeros(zeros) + [0] == Zeros(zeros + 1) + [];
    assert Zeros(zeros) + digits == Rebase(Digits(value), 58, 256);
  }

  // ---------------------------------------------------------------------------------------
  // The length windows of the two predicates

  ghost predicate Fits(m: nat, slack: nat) {
    Pow(58, m + slack) >= Pow(256, m)
  }

  lemma {:induction false} FitsBelow(m: nat, n: nat, slack: nat)
    requires m <= n && Fits(n, slack)
    ensures Fits(m, slack)
    decreases n
  {
    if m < n {
      assert 58 * Pow(58, n - 1 + slack) == Pow(58, n + slack);
      assert Fits(n - 1, slack);
      FitsBelow(m, n - 1, slack);
    }
  }

  lemma PowersAt32()
    ensures Pow(58, 43) < Pow(256, 32) <= Pow(58, 44)
    ensures Pow(58, 87) < Pow(256, 64)
  {
    assert Pow(58, 11) == 24986644000165537792 && Pow(256, 8) == 18446744073709551616;
    PowAdd(58, 11, 11);
    PowAdd(256, 8, 8);
    assert Pow(58, 22) == 624332378391008467754527498760580235264 &&
      Pow(256, 16) == 340282366920938463463374607431768211456;
    PowAdd(58, 22, 22);
    PowAdd(256, 16, 16);
    assert Pow(58, 44) == 389790918707373377135528568990913592653094657612049369038476873218241589149696 &&
      Pow(256, 32) == 115792089237316195423570985008687907853269984665640564039457584007913129639936;
    assert Pow(58, 44) == 58 * Pow(58, 43);
    PowAdd(58, 44, 44);
    PowAdd(256, 32, 32);
    assert Pow(58, 88) == 58 * Pow(58, 87);
  }

  lemma FitsWindows()
    ensures Fits(32, 12) && Fits(64, 24)
  {
    PowersAt32();
    PowAdd(58, 44, 44);
    PowAdd(256, 32, 32);
    MulMonotone(Pow(256, 32), Pow(58, 44), Pow(256, 32));
    MulMonotone(Pow(256, 32), Pow(58, 44), Pow(58, 44));
  }

  lemma PowCompare(base: nat, other: nat, n: nat)
    requires base <= other
    ensures Pow(base, n) <= Pow(other, n)
  {
    if n > 0 {
      PowCompare(base, other, n - 1);
      MulMonotone(base, other, Pow(base, n - 1));
      MulMonotone(Pow(base, n - 1), Pow(other, n - 1), other);
    }
  }

  /** Numerals of one number without leading zeros: base 58 never needs fewer digits than base 256. */
  lemma CanonicalLengths(xs: seq<nat>, ys: seq<nat>, slack: nat)
    requires Below(xs, 58) && Below(ys, 256) && Value(xs, 58) == Value(ys, 256)
    requires xs != [] ==> xs[0] != 0
    requires ys != [] ==> ys[0] != 0
    requires Fits(|ys|, slack)
    ensures |ys| <= |xs| <= |ys| + slack
  {
    ValueBounds(xs, 58);
    ValueBounds(ys, 256);
    if |xs| > |ys| + slack {
      PowMonotone(58, |ys| + slack, |xs| - 1);
    }
    if |ys| > |xs| {
      PowCompare(58, 256, |xs|);
      PowMonotone(256, |xs|, |ys| - 1);
    }
  }

  lemma RebasedLength(xs: seq<nat>, slack: nat)
    requires Below(xs, 58) && Fits(|Rebase(xs, 58, 256)|, slack)
    ensures |Rebase(xs, 58, 256)| <= |xs| <= |Rebase(xs, 58, 256)| + slack
  {
    hide Pow, Value;
    var z, v := LeadingZeros(xs), Value(xs, 58);
    var rest, ys := xs[z..], Canonical(v, 256);
    assert xs == Zeros(z) + rest;
    ValueZeros(z, rest, 58);
    CanonicalValue(v, 256);
    FitsBelow(|ys|, z + |ys|, slack);
    CanonicalLengths(rest, ys, slack);
  }

  /** Decoding never lengthens a text, and shortens one of `n` bytes by at most `slack` characters. */
  lemma DecodedLength(s: string, slack: nat)
    requires Decoded(s).Ok? && Fits(|Decoded(s).value|, slack)
    ensures |Decoded(s).value| <= |s| <= |Decoded(s).value| + slack
  {
    hide Index, Fits, Rebase;
    RebasedLength(Digits(s), slack);
  }

  /** What the predicates mean once the length windows are set aside. */
  predicate IsAddress(s: string) { Decoded(s).Ok? && |Decoded(s).value| == 32 }

  predicate IsSignature(s: string) { Decoded(s).Ok? && |Decoded(s).value| == 64 }

  method IsBase58Address(value: string) returns (r: bool)
    ensures r == IsAddress(value)
  {
    FitsWindows();
    if IsAddress(value) { DecodedLength(value, 12); }
    if |value| < 32 || |value| > 44 { return false; }
    var decoded := DecodeBase58(value);
    r := decoded.Ok? && |decoded.value| == 32;
  }

  method IsTransactionSignature(value: string) returns (r: bool)
    ensures r == IsSignature(value)
  {
    FitsWindows();
    if IsSignature(value) { DecodedLength(value, 24); }
    if |value| < 64 || |value| > 88 { return false; }
    var decoded := DecodeBase58(value);
    r := decoded.Ok? && |decoded.value| == 64;
  }

  function Repeat(b: Byte, n: nat): (bs: seq<Byte>)
    ensures |bs| == n && forall i :: 0 <= i < n ==> bs[i] == b
  {
    seq(n, _ => b)
  }

  lemma {:induction false} LargestValue(n: nat)
    ensures Value(Repeat(255, n), 256) + 1 == Pow(256, n)
  {
    if n > 0 {
      LargestValue(n - 1);
      AppendValue(Repeat(255, n - 1), 255, 256);
      assert Repeat(255, n) == Repeat(255, n - 1) + [255];
    }
  }

  /** The texts of the all-ones bytes are as long as the windows allow, those of the all-zero bytes as short. */
  lemma WindowsAreTight()
    ensures |Encoded(Repeat(0, 32))| == 32 && |Encoded(Repeat(255, 32))| == 44
    ensures |Encoded(Repeat(0, 64))| == 64 && |Encoded(Repeat(255, 64))| == 88
  {
    FitsWindows();
    PowersAt32();
    LongestText(32, 12);
    LongestText(64, 24);
    ShortestText(32);
    ShortestText(64);
  }

  lemma ShortestText(n: nat)
    ensures |Encoded(Repeat(0, n))| == n
  {
    assert Repeat(0, n) == Zeros(n) + [];
    LeadingZerosOf(n, []);
    ValueZeros(n, [], 256);
  }

  lemma LongestText(n: nat, slack: nat)
    requires n > 0 && Fits(n, slack) && Pow(256, n) > Pow(58, n + slack - 1)
    ensures |Encoded(Repeat(255, n))| == n + slack
  {
    hide Index, Value, Pow, Encoded, Decoded, Fits;
    var bytes := Repeat(255, n);
    DecodeEncode(bytes);
    DecodedLength(Encoded(bytes), slack);
    LargestValue(n);
    PowMonotone(58, 0, n + slack - 1);
    LongNumeral(Value(bytes, 256), n + slack);
    EncodedAtLeast(bytes);
  }

  lemma EncodedAtLeast(bytes: seq<Byte>)
    ensures |Encoded(bytes)| >= |Canonical(Value(bytes, 256), 58)|
  {
    hide Letter, Value, Canonical;
    assert |Encoded(bytes)| == |Rebase(bytes, 256, 58)|;
  }

  lemma LongNumeral(v: nat, n: nat)
    requires n > 0 && v >= Pow(58, n - 1)
    ensures |Canonical(v, 58)| >= n
  {
    var ds := Canonical(v, 58);
    CanonicalValue(v, 58);
    ValueBounds(ds, 58);
    if |ds| < n {
      PowMonotone(58, |ds|, n - 1);
    }
  }

  lemma {:induction false} LeadingDigit(xs: seq<nat>, base: nat)
    requires base >= 2 && xs != []
    ensures Value(xs, base) >= xs[0] * Pow(base, |xs| - 1)
  {
    var init := xs[..|xs| - 1];
    if |xs| == 1 {
      assert Value(init, base) == 0 && Pow(base, 0) == 1;
    } else {
      LeadingDigit(init, base);
      MulMonotone(xs[0] * Pow(base, |init| - 1), Value(init, base), base);
      assert xs[0] * Pow(base, |init| - 1) * base == xs[0] * (Pow(base, |init| - 1) * base);
    }
  }

  lemma LongTextBounds()
    ensures 4 * Pow(58, 42) >= Pow(256, 31)
  {
    assert Pow(58, 10) == 430804206899405824 && Pow(58, 11) == 24986644000165537792;
    PowAdd(58, 10, 11);
    assert Pow(58, 21) == 10764351351569111513009094806216900608;
    PowAdd(58, 21, 21);
    assert Pow(256, 7) == 72057594037927936 && Pow(256, 8) == 18446744073709551616;
    PowAdd(256, 7, 8);
    PowAdd(256, 8, 8);
    assert Pow(256, 15) == 1329227995784915872903807060280344576 &&
      Pow(256, 16) == 340282366920938463463374607431768211456;
    PowAdd(256, 15, 16);
  }

  /** Every 43-character text over the alphabet that begins with `5` or later is an address. */
  lemma LongTextsAreAddresses(s: string)
    requires |s| == 43 && InAlphabet(s) && Index(s[0]).value >= 4
    ensures IsAddress(s)
  {
    hide Index, Pow, Value;
    var ds := Digits(s);
    var v := Value(ds, 58);
    var bytes := Canonical(v, 256);
    PowersAt32();
    LongTextBounds();
    LeadingDigit(ds, 58);
    MulMonotone(4, ds[0], Pow(58, 42));
    ValueBounds(ds, 58);
    CanonicalValue(v, 256);
    ValueBounds(bytes, 256);
    if |bytes| < 32 { PowMonotone(256, |bytes|, 31); }
    if |bytes| > 32 { PowMonotone(256, 32, |bytes| - 1); }
  }
}
