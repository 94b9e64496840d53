/** JSON values, JSON.stringify, and the key-order-free printer `stable` of src/compare.js:6-10. */
module Json {
  import opened JsText
  import opened Sorting

  /** A value as JSON.parse returns it; an object lists its members in property order. */
  datatype Json =
    | Null
    | Bool(b: bool)
    | Num(n: int)
    | Str(s: string)
    | Arr(items: seq<Json>)
    | Obj(members: seq<(string, Json)>)

  /** What a value means: an object is a map, its property order is forgotten. */
  datatype Meaning =
    | MNull
    | MBool(b: bool)
    | MNum(n: int)
    | MStr(s: string)
    | MArr(items: seq<Meaning>)
    | MObj(members: map<string, Meaning>)

  function Keys(ms: seq<(string, Json)>): (ks: seq<string>)
    ensures |ks| == |ms| && forall i :: 0 <= i < |ms| ==> ks[i] == ms[i].0
  {
    seq(|ms|, i requires 0 <= i < |ms| => ms[i].0)
  }

  function Lookup(ms: seq<(string, Json)>, key: string): (v: Json)
    requires key in Keys(ms)
    ensures (key, v) in ms
  {
    if ms[0].0 == key then ms[0].1
    else
      assert key in Keys(ms[1..]) by {
        var i :| 0 <= i < |ms| && Keys(ms)[i] == key;
        assert Keys(ms[1..])[i - 1] == key;
      }
      Lookup(ms[1..], key)
  }

  /** `value[key]`, for the property names the code reads; only objects carry them. */
  function Property(v: Json, key: string): Option<Json> {
    if v.Obj? && key in Keys(v.members) then Some(Lookup(v.members, key)) else None
  }

  /** Conversion to a boolean. */
  predicate Truthy(v: Json) {
    match v
    case Null => false
    case Bool(b) => b
    case Num(n) => n != 0
    case Str(s) => s != ""
    case _ => true
  }

  lemma FalsyValues(v: Json)
    ensures !Truthy(v) <==> v in {Null, Bool(false), Num(0), Str("")}
  {
  }

  /** Objects do not repeat a key; JSON.parse guarantees it. */
  ghost predicate WellFormed(v: Json) {
    match v
    case Arr(items) => forall i :: 0 <= i < |items| ==> WellFormed(items[i])
    case Obj(ms) => Distinct(Keys(ms)) && forall i :: 0 <= i < |ms| ==> WellFormed(ms[i].1)
    case _ => true
  }

  ghost function Denote(v: Json): Meaning {
    match v
    case Null => MNull
    case Bool(b) => MBool(b)
    case Num(n) => MNum(n)
    case Str(s) => MStr(s)
    case Arr(items) => MArr(seq(|items|, i requires 0 <= i < |items| => Denote(items[i])))
    case Obj(ms) => MObj(map k | k in Keys(ms) :: Denote(Lookup(ms, k)))
  }

  // ---------------------------------------------------------------------------------------
  // Printing

  function DigitChar(d: nat): char
    requires d < 10
  {
    '0' + d as char
  }

  function Decimal(n: nat): (s: string)
    ensures s != [] && forall i :: 0 <= i < |s| ==> '0' <= s[i] <= '9'
  {
    if n < 10 then [DigitChar(n)] else Decimal(n / 10) + [DigitChar(n % 10)]
  }

  function Integer(n: int): string {
    if n < 0 then "-" + Decimal(-n) else Decimal(n)
  }

  function HexChar(d: nat): char
    requires d < 16
  {
    if d < 10 then '0' + d as char else 'a' + (d - 10) as char
  }

  /** JSON.stringify escapes the quote, the backslash and the control characters below U+0020. */
  function Escape(c: char): string {
    if c == '\"' then "\\\""
    else if c == '\\' then "\\\\"
    else if c == '\U{8}' then "\\b"
    else if c == '\U{C}' then "\\f"
    else if c == '\n' then "\\n"
    else if c == '\r' then "\\r"
    else if c == '\t' then "\\t"
    else if c < ' ' then "\\u00" + [HexChar(c as int / 16), HexChar(c as int % 16)]
    else [c]
  }

  /** Seven characters have an escape of two, other control characters one of six; the rest stand for themselves. */
  lemma EscapeLengths(c: char)
    ensures |Escape(c)| == 2 <==> c in {'\"', '\\', '\U{8}', '\U{C}', '\n', '\r', '\t'}
    ensures |Escape(c)| == 6 <==> c < ' ' && c !in {'\U{8}', '\U{C}', '\n', '\r', '\t'}
    ensures |Escape(c)| in {1, 2, 6} && (|Escape(c)| == 1 ==> Escape(c) == [c])
  {
  }

  function EscapeAll(s: string): string {
    if s == [] then "" else Escape(s[0]) + EscapeAll(s[1..])
  }

  function Quote(s: string): string { "\"" + EscapeAll(s) + "\"" }

  function Stringify(v: Json): string {
    match v
    case Null => "null"
    case Bool(b) => if b then "true" else "false"
    case Num(n) => Integer(n)
    case Str(s) => Quote(s)
    case Arr(items) => "[" + StringifyItems(items) + "]"
    case Obj(ms) => "{" + StringifyMembers(ms) + "}"
  }

  function StringifyItems(items: seq<Json>): string {
    if items == [] then ""
    else if |items| == 1 then Stringify(items[0])
    else Stringify(items[0]) + "," + StringifyItems(items[1..])
  }

  function StringifyMember(m: (string, Json)): string { Quote(m.0) + ":" + Stringify(m.1) }

  function StringifyMembers(ms: seq<(string, Json)>): string {
    if ms == [] then ""
    else if |ms| == 1 then StringifyMember(ms[0])
    else StringifyMember(ms[0]) + "," + StringifyMembers(ms[1..])
  }

  /** src/compare.js:6-10: every object prints its keys in sorted order. */
  function Stable(v: Json): string
    decreases v, if v.Obj? then |v.members| + 1 else 0
  {
    match v
    case Arr(items) => "[" + StableItems(items) + "]"
    case Obj(ms) =>
      SortMembers(Keys(ms));
      "{" + StableMembers(v, Sort(Keys(ms))) + "}"
    case _ => Stringify(v)
  }

  function StableItems(items: seq<Json>): string {
    if items == [] then ""
    else if |items| == 1 then Stable(items[0])
    else Stable(items[0]) + "," + StableItems(items[1..])
  }

  function StableMembers(v: Json, keys: seq<string>): string
    requires v.Obj? && forall k :: k in keys ==> k in Keys(v.members)
    decreases v, |keys|
  {
    if keys == [] then ""
    else
      var first := Quote(keys[0]) + ":" + Stable(Lookup(v.members, keys[0]));
      if |keys| == 1 then first else first + "," + StableMembers(v, keys[1..])
  }

  // ---------------------------------------------------------------------------------------
  // Reading printed text back

  datatype Parsed<+T> = Parsed(value: T, rest: string)

  predicate IsDigit(c: char) { '0' <= c <= '9' }

  function CountDigits(t: string): (n: nat)
    ensures n <= |t| && forall i :: 0 <= i < n ==> IsDigit(t[i])
  {
    if t == [] || !IsDigit(t[0]) then 0 else 1 + CountDigits(t[1..])
  }

  function DigitsValue(s: string): nat
    requires forall i :: 0 <= i < |s| ==> IsDigit(s[i])
  {
    if s == [] then 0
    else
      assert IsDigit(s[|s| - 1]);
      DigitsValue(s[..|s| - 1]) * 10 + (s[|s| - 1] as int - '0' as int)
  }

  function ReadNatural(t: string): (r: Option<Parsed<int>>)
    ensures r.Some? ==> |r.value.rest| < |t|
  {
    var n := CountDigits(t);
    if n == 0 then None else Some(Parsed(DigitsValue(t[..n]), t[n..]))
  }

  function ReadInteger(t: string): (r: Option<Parsed<int>>)
    ensures r.Some? ==> |r.value.rest| < |t|
  {
    if t != [] && t[0] == '-' then
      var r := ReadNatural(t[1..]);
      if r.None? then None else Some(Parsed(-r.value.value, r.value.rest))
    else ReadNatural(t)
  }

  function HexValue(c: char): Option<nat> {
    if '0' <= c <= '9' then Some(c as int - '0' as int)
    else if 'a' <= c <= 'f' then Some(c as int - 'a' as int + 10)
    else None
  }

  function ReadChar(t: string): (r: Option<Parsed<char>>)
    ensures r.Some? ==> |r.value.rest| < |t|
  {
    if t == [] then None
    else if t[0] != '\\' then Some(Parsed(t[0], t[1..]))
    else if |t| < 2 then None
    else if t[1] == '\"' then Some(Parsed('\"', t[2..]))
    else if t[1] == '\\' then Some(Parsed('\\', t[2..]))
    else if t[1] == 'b' then Some(Parsed('\U{8}', t[2..]))
    else if t[1] == 'f' then Some(Parsed('\U{C}', t[2..]))
    else if t[1] == 'n' then Some(Parsed('\n', t[2..]))
    else if t[1] == 'r' then Some(Parsed('\r', t[2..]))
    else if t[1] == 't' then Some(Parsed('\t', t[2..]))
    else if |t| < 6 || t[..4] != "\\u00" || HexValue(t[4]).None? || HexValue(t[5]).None? then None
    else Some(Parsed((HexValue(t[4]).value * 16 + HexValue(t[5]).value) as char, t[6..]))
  }

  /** The rest of a string whose opening quote has been read. */
  function ReadChars(t: string): (r: Option<Parsed<string>>)
    ensures r.Some? ==> |r.value.rest| < |t|
    decreases |t|
  {
    if t == [] then None
    else if t[0] == '\"' then Some(Parsed("", t[1..]))
    else
      var c := ReadChar(t);
      if c.None? then None else
      var s := ReadChars(c.value.rest);
      if s.None? then None else Some(Parsed([c.value.value] + s.value.value, s.value.rest))
  }

  function Read(t: string): (r: Option<Parsed<Json>>)
    ensures r.Some? ==> |r.value.rest| < |t|
    decreases |t|, 1
  {
    if "null" <= t then Some(Parsed(Null, t[4..]))
    else if "true" <= t then Some(Parsed(Bool(true), t[4..]))
    else if "false" <= t then Some(Parsed(Bool(false), t[5..]))
    else if "\"" <= t then
      var s := ReadChars(t[1..]);
      if s.None? then None else Some(Parsed(Str(s.value.value), s.value.rest))
    else if "[]" <= t then Some(Parsed(Arr([]), t[2..]))
    else if "[" <= t then
      var items := ReadItems(t[1..]);
      if items.None? then None else Some(Parsed(Arr(items.value.value), items.value.rest))
    else if "{}" <= t then Some(Parsed(Obj([]), t[2..]))
    else if "{" <= t then
      var ms := ReadMembers(t[1..]);
      if ms.None? then None else Some(Parsed(Obj(ms.value.value), ms.value.rest))
    else
      var n := ReadInteger(t);
      if n.None? then None else Some(Parsed(Num(n.value.value), n.value.rest))
  }

  function ReadItems(t: string): (r: Option<Parsed<seq<Json>>>)
    ensures r.Some? ==> |r.value.rest| < |t|
    decreases |t|, 2
  {
    var first := Read(t);
    if first.None? then None
    else if "]" <= first.value.rest then Some(Parsed([first.value.value], first.value.rest[1..]))
    else if "," <= first.value.rest then
      var others := ReadItems(first.value.rest[1..]);
      if others.None? then None else Some(Parsed([first.value.value] + others.value.value, others.value.rest))
    else None
  }

  function ReadMember(t: string): (r: Option<Parsed<(string, Json)>>)
    ensures r.Some? ==> |r.value.rest| < |t|
    decreases |t|, 2
  {
    if !("\"" <= t) then None else
    var key := ReadChars(t[1..]);
    if key.None? || !(":" <= key.value.rest) then None else
    var v := Read(key.value.rest[1..]);
    if v.None? then None else Some(Parsed((key.value.value, v.value.value), v.value.rest))
  }

  function ReadMembers(t: string): (r: Option<Parsed<seq<(string, Json)>>>)
    ensures r.Some? ==> |r.value.rest| < |t|
    decreases |t|, 3
  {
    var first := ReadMember(t);
    if first.None? then None
    else if "}" <= first.value.rest then Some(Parsed([first.value.value], first.value.rest[1..]))
    else if "," <= first.value.rest then
      var others := ReadMembers(first.value.rest[1..]);
      if others.None? then None else Some(Parsed([first.value.value] + others.value.value, others.value.rest))
    else None
  }

  lemma {:induction false} DecimalReads(n: nat)
    ensures DigitsValue(Decimal(n)) == n
  {
    if n >= 10 {
      DecimalReads(n / 10);
      assert Decimal(n)[..|Decimal(n)| - 1] == Decimal(n / 10);
    } else {
      assert Decimal(n)[..0] == [];
    }
  }

  lemma {:induction false} CountDigitsOf(s: string, rest: string)
    requires forall i :: 0 <= i < |s| ==> IsDigit(s[i])
    requires rest != [] ==> !IsDigit(rest[0])
    ensures CountDigits(s + rest) == |s|
  {
    if s == [] {
      assert s + rest == rest;
    } else {
      assert (s + rest)[1..] == s[1..] + rest;
      CountDigitsOf(s[1..], rest);
    }
  }

  lemma ReadsNatural(n: nat, rest: string)
    requires rest != [] ==> !IsDigit(rest[0])
    ensures ReadNatural(Decimal(n) + rest) == Some(Parsed(n, rest))
  {
    CountDigitsOf(Decimal(n), rest);
    DecimalReads(n);
    var t := Decimal(n) + rest;
    assert t[..|Decimal(n)|] == Decimal(n) && t[|Decimal(n)|..] == rest;
  }

  lemma ReadsInteger(n: int, rest: string)
    requires rest != [] ==> !IsDigit(rest[0])
    ensures ReadInteger(Integer(n) + rest) == Some(Parsed(n, rest))
    ensures Integer(n) != [] && (Integer(n)[0] == '-' || IsDigit(Integer(n)[0]))
  {
    hide ReadNatural, Decimal;
    var m := if n < 0 then -n else n;
    ReadsNatural(m, rest);
    if n < 0 {
      ReadNegative(Decimal(m) + rest);
      assert Integer(n) + rest == "-" + (Decimal(m) + rest);
    } else {
      ReadPositive(Decimal(m) + rest);
    }
  }

  lemma ReadNegative(t: string)
    requires ReadNatural(t).Some?
    ensures ReadInteger("-" + t) == Some(Parsed(-ReadNatural(t).value.value, ReadNatural(t).value.rest))
  {
    hide ReadNatural;
    assert ("-" + t)[1..] == t;
  }

  lemma ReadPositive(t: string)
    requires t != [] && t[0] != '-'
    ensures ReadInteger(t) == ReadNatural(t)
  {
    hide ReadNatural;
  }

  lemma ReadsChar(c: char, rest: string)
    ensures ReadChar(Escape(c) + rest) == Some(Parsed(c, rest))
    ensures Escape(c)[0] != '\"'
  {
    var e := Escape(c);
    var t := e + rest;
    assert t[|e|..] == rest;
    if |e| == 6 {
      assert t[..4] == "\\u00";
    }
  }

  lemma {:induction false} ReadsChars(s: string, rest: string)
    ensures ReadChars(EscapeAll(s) + "\"" + rest) == Some(Parsed(s, rest))
  {
    var t := EscapeAll(s) + "\"" + rest;
    if s == [] {
      assert t == "\"" + rest;
    } else {
      var tail := EscapeAll(s[1..]) + "\"" + rest;
      assert t == Escape(s[0]) + tail;
      ReadsChar(s[0], tail);
      ReadsChars(s[1..], rest);
      assert s == [s[0]] + s[1..];
    }
  }

  /** What may follow a printed value inside a text. */
  predicate Ends(rest: string) { rest == [] || rest[0] in {',', ']', '}'} }

  lemma FirstItem(items: seq<Json>)
    requires items != []
    ensures StringifyItems(items) != [] && StringifyItems(items)[0] != ']'
  {
    var first := Stringify(items[0]);
    assert first != [] && first[0] != ']';
    assert StringifyItems(items)[0] == first[0];
  }

  lemma FirstMember(ms: seq<(string, Json)>)
    requires ms != []
    ensures StringifyMembers(ms) != [] && StringifyMembers(ms)[0] == '\"'
  {
    var first := StringifyMember(ms[0]);
    assert first[0] == '\"';
    assert StringifyMembers(ms)[0] == first[0];
  }

  // The branches of the reader, one by one

  lemma ReadLiteral(v: Json, rest: string)
    requires v.Null? || v.Bool?
    ensures Read(Stringify(v) + rest) == Some(Parsed(v, rest))
  {
    var t := Stringify(v) + rest;
    assert t[|Stringify(v)|..] == rest;
    assert Stringify(v) <= t && t[0] == Stringify(v)[0];
  }

  lemma ReadNumber(t: string, n: int, rest: string)
    requires t != [] && (t[0] == '-' || IsDigit(t[0])) && ReadInteger(t) == Some(Parsed(n, rest))
    ensures Read(t) == Some(Parsed(Num(n), rest))
  {
    hide ReadInteger;
  }

  lemma ReadString(t: string, s: string, rest: string)
    requires t != [] && t[0] == '\"' && ReadChars(t[1..]) == Some(Parsed(s, rest))
    ensures Read(t) == Some(Parsed(Str(s), rest))
  {
    hide ReadChars;
  }

  lemma ReadArray(t: string, items: seq<Json>, rest: string)
    requires |t| > 1 && t[0] == '[' && t[1] != ']' && ReadItems(t[1..]) == Some(Parsed(items, rest))
    ensures Read(t) == Some(Parsed(Arr(items), rest))
  {
    hide ReadItems;
  }

  lemma ReadObject(t: string, ms: seq<(string, Json)>, rest: string)
    requires |t| > 1 && t[0] == '{' && t[1] != '}' && ReadMembers(t[1..]) == Some(Parsed(ms, rest))
    ensures Read(t) == Some(Parsed(Obj(ms), rest))
  {
    hide ReadMembers;
  }

  lemma ReadEmpty(rest: string)
    ensures Read(Stringify(Arr([])) + rest) == Some(Parsed(Arr([]), rest))
    ensures Read(Stringify(Obj([])) + rest) == Some(Parsed(Obj([]), rest))
  {
    hide ReadItems, ReadMembers;
    var a, o := "[]" + rest, "{}" + rest;
    assert Stringify(Arr([])) == "[]" && Stringify(Obj([])) == "{}";
    assert a[0] == '[' && a[1] == ']' && a[2..] == rest;
    assert o[0] == '{' && o[1] == '}' && o[2..] == rest;
  }

  lemma {:induction false} Reads(v: Json, rest: string)
    requires Ends(rest)
    ensures Read(Stringify(v) + rest) == Some(Parsed(v, rest))
    decreases v, 0
  {
    hide Read, ReadChars, ReadItems, ReadMembers, ReadInteger, EscapeAll, Integer, StringifyItems, StringifyMembers;
    var t := Stringify(v) + rest;
    match v
    case Null => ReadLiteral(v, rest);
    case Bool(b) => ReadLiteral(v, rest);
    case Num(n) =>
      ReadsInteger(n, rest);
      assert t[0] == Integer(n)[0];
      ReadNumber(t, n, rest);
    case Str(s) =>
      ReadsChars(s, rest);
      assert t[1..] == EscapeAll(s) + "\"" + rest;
      ReadString(t, s, rest);
    case Arr(items) =>
      if items == [] {
        ReadEmpty(rest);
      } else {
        ReadsItems(items, rest);
        FirstItem(items);
        assert t[1..] == StringifyItems(items) + "]" + rest;
        assert t[1] == StringifyItems(items)[0];
        ReadArray(t, items, rest);
      }
    case Obj(ms) =>
      if ms == [] {
        ReadEmpty(rest);
      } else {
        ReadsMembers(ms, rest);
        FirstMember(ms);
        assert t[1..] == StringifyMembers(ms) + "}" + rest;
        assert t[1] == StringifyMembers(ms)[0];
        ReadObject(t, ms, rest);
      }
  }

  lemma ReadItemsStep(t: string, v: Json, tail: string)
    requires Read(t) == Some(Parsed(v, tail)) && tail != []
    ensures tail[0] == ']' ==> ReadItems(t) == Some(Parsed([v], tail[1..]))
    ensures tail[0] == ',' && ReadItems(tail[1..]).Some? ==>
      ReadItems(t) == Some(Parsed([v] + ReadItems(tail[1..]).value.value, ReadItems(tail[1..]).value.rest))
  {
    hide Read;
  }

  lemma ItemsText(items: seq<Json>, rest: string)
    requires items != []
    ensures StringifyItems(items) + "]" + rest ==
            Stringify(items[0]) + (if |items| == 1 then "]" + rest else "," + (StringifyItems(items[1..]) + "]" + rest))
  {
    hide Stringify;
    if |items| > 1 {
      Regroup(Stringify(items[0]), StringifyItems(items[1..]), "]", rest);
    }
  }

  lemma Regroup(first: string, others: string, close: string, rest: string)
    ensures (first + "," + others) + close + rest == first + ("," + (others + close + rest))
  {
  }

  lemma MembersText(ms: seq<(string, Json)>, rest: string)
    requires ms != []
    ensures StringifyMembers(ms) + "}" + rest ==
            StringifyMember(ms[0]) + (if |ms| == 1 then "}" + rest else "," + (StringifyMembers(ms[1..]) + "}" + rest))
  {
    hide StringifyMember;
    if |ms| > 1 {
      Regroup(StringifyMember(ms[0]), StringifyMembers(ms[1..]), "}", rest);
    }
  }

  lemma {:induction false} ReadsItems(items: seq<Json>, rest: string)
    requires items != []
    ensures ReadItems(StringifyItems(items) + "]" + rest) == Some(Parsed(items, rest))
    decreases items
  {
    hide Read, ReadItems, Stringify, StringifyItems;
    ItemsText(items, rest);
    var tail := if |items| == 1 then "]" + rest else "," + (StringifyItems(items[1..]) + "]" + rest);
    Reads(items[0], tail);
    ReadItemsStep(StringifyItems(items) + "]" + rest, items[0], tail);
    if |items| > 1 {
      ReadsItems(items[1..], rest);
      assert tail[1..] == StringifyItems(items[1..]) + "]" + rest;
      assert items == [items[0]] + items[1..];
    } else {
      assert tail[1..] == rest && items == [items[0]];
    }
  }

  lemma {:induction false} ReadsMember(m: (string, Json), rest: string)
    requires Ends(rest)
    ensures ReadMember(StringifyMember(m) + rest) == Some(Parsed(m, rest))
    decreases m
  {
    hide Read, ReadChars, Stringify, EscapeAll;
    var t := StringifyMember(m) + rest;
    var tail := ":" + Stringify(m.1) + rest;
    assert t[1..] == EscapeAll(m.0) + "\"" + tail;
    ReadsChars(m.0, tail);
    assert tail[1..] == Stringify(m.1) + rest;
    Reads(m.1, rest);
  }

  lemma ReadMembersStep(t: string, m: (string, Json), tail: string)
    requires ReadMember(t) == Some(Parsed(m, tail)) && tail != []
    ensures tail[0] == '}' ==> ReadMembers(t) == Some(Parsed([m], tail[1..]))
    ensures tail[0] == ',' && ReadMembers(tail[1..]).Some? ==>
      ReadMembers(t) == Some(Parsed([m] + ReadMembers(tail[1..]).value.value, ReadMembers(tail[1..]).value.rest))
  {
    hide ReadMember;
  }

  lemma {:induction false} ReadsMembers(ms: seq<(string, Json)>, rest: string)
    requires ms != []
    ensures ReadMembers(StringifyMembers(ms) + "}" + rest) == Some(Parsed(ms, rest))
    decreases ms
  {
    hide ReadMember, ReadMembers, StringifyMember, StringifyMembers;
    MembersText(ms, rest);
    var tail := if |ms| == 1 then "}" + rest else "," + (StringifyMembers(ms[1..]) + "}" + rest);
    ReadsMember(ms[0], tail);
    ReadMembersStep(StringifyMembers(ms) + "}" + rest, ms[0], tail);
    if |ms| > 1 {
      ReadsMembers(ms[1..], rest);
      assert tail[1..] == StringifyMembers(ms[1..]) + "}" + rest;
      assert ms == [ms[0]] + ms[1..];
    } else {
      assert tail[1..] == rest && ms == [ms[0]];
    }
  }

  /** Reading what JSON.stringify printed gives the value back. */
  lemma ParsePrint(v: Json)
    ensures Read(Stringify(v)) == Some(Parsed(v, ""))
  {
    Reads(v, "");
    assert Stringify(v) + "" == Stringify(v);
  }

  lemma StringifyInjective(v: Json, w: Json)
    ensures Stringify(v) == Stringify(w) <==> v == w
  {
    ParsePrint(v);
    ParsePrint(w);
  }

  // ---------------------------------------------------------------------------------------
  // `stable` decides meaning

  /** The value with every object's members put in key order. */
  function Canon(v: Json): Json
    decreases v, if v.Obj? then |v.members| + 1 else 0
  {
    match v
    case Arr(items) => Arr(seq(|items|, i requires 0 <= i < |items| => Canon(items[i])))
    case Obj(ms) =>
      SortMembers(Keys(ms));
      Obj(CanonMembers(v, Sort(Keys(ms))))
    case _ => v
  }

  function CanonMembers(v: Json, keys: seq<string>): (ms: seq<(string, Json)>)
    requires v.Obj? && forall k :: k in keys ==> k in Keys(v.members)
    ensures |ms| == |keys| && forall i :: 0 <= i < |keys| ==> ms[i].0 == keys[i]
    decreases v, |keys|
  {
    if keys == [] then [] else [(keys[0], Canon(Lookup(v.members, keys[0])))] + CanonMembers(v, keys[1..])
  }

  lemma {:induction false} StableIsStringifyCanon(v: Json)
    ensures Stable(v) == Stringify(Canon(v))
    decreases v, if v.Obj? then |v.members| + 1 else 0
  {
    match v
    case Arr(items) =>
      StableItemsCanon(items);
    case Obj(ms) =>
      SortMembers(Keys(ms));
      StableMembersCanon(v, Sort(Keys(ms)));
    case _ =>
  }

  lemma {:induction false} StableItemsCanon(items: seq<Json>)
    ensures StableItems(items) == StringifyItems(seq(|items|, i requires 0 <= i < |items| => Canon(items[i])))
    decreases items
  {
    var cs := seq(|items|, i requires 0 <= i < |items| => Canon(items[i]));
    if items != [] {
      StableIsStringifyCanon(items[0]);
      StableItemsCanon(items[1..]);
      assert cs[1..] == seq(|items[1..]|, i requires 0 <= i < |items[1..]| => Canon(items[1..][i]));
    }
  }

  lemma {:induction false} StableMembersCanon(v: Json, keys: seq<string>)
    requires v.Obj? && forall k :: k in keys ==> k in Keys(v.members)
    ensures StableMembers(v, keys) == StringifyMembers(CanonMembers(v, keys))
    decreases v, |keys|
  {
    if keys != [] {
      StableIsStringifyCanon(Lookup(v.members, keys[0]));
      StableMembersCanon(v, keys[1..]);
      assert CanonMembers(v, keys)[1..] == CanonMembers(v, keys[1..]);
    }
  }

  lemma {:induction false} CanonMembersAt(v: Json, keys: seq<string>, i: nat)
    requires v.Obj? && (forall k :: k in keys ==> k in Keys(v.members)) && i < |keys|
    ensures CanonMembers(v, keys)[i] == (keys[i], Canon(Lookup(v.members, keys[i])))
    decreases i
  {
    if i > 0 { CanonMembersAt(v, keys[1..], i - 1); }
  }

  lemma LookupUnique(ms: seq<(string, Json)>, i: nat)
    requires i < |ms| && Distinct(Keys(ms))
    ensures Keys(ms)[i] in Keys(ms) && Lookup(ms, ms[i].0) == ms[i].1
  {
    assert Keys(ms)[i] == ms[i].0;
    var v := Lookup(ms, ms[i].0);
    var j :| 0 <= j < |ms| && ms[j] == (ms[i].0, v);
    assert Keys(ms)[j] == Keys(ms)[i];
  }

  /** Putting members in key order does not change the meaning. */
  lemma {:induction false} CanonDenotes(v: Json)
    requires WellFormed(v)
    ensures Denote(Canon(v)) == Denote(v)
    decreases v
  {
    match v
    case Arr(items) =>
      forall i | 0 <= i < |items| ensures Denote(Canon(items[i])) == Denote(items[i]) {
        CanonDenotes(items[i]);
      }
    case Obj(ms) =>
      var keys := Sort(Keys(ms));
      SortMembers(Keys(ms));
      var cs := CanonMembers(v, keys);
      assert Keys(cs) == keys;
      forall k | k in keys ensures Denote(Lookup(cs, k)) == Denote(Lookup(ms, k)) {
        CanonLookup(v, k);
        MemberSmaller(v, k);
        CanonDenotes(Lookup(ms, k));
      }
      SameObjects(cs, ms);
    case _ =>
  }

  lemma MemberSmaller(v: Json, k: string)
    requires v.Obj? && k in Keys(v.members)
    ensures Lookup(v.members, k) < v
    ensures WellFormed(v) ==> WellFormed(Lookup(v.members, k))
  {
    var i :| 0 <= i < |v.members| && v.members[i] == (k, Lookup(v.members, k));
  }

  lemma SameObjects(ms: seq<(string, Json)>, ns: seq<(string, Json)>)
    requires forall k :: k in Keys(ms) <==> k in Keys(ns)
    requires forall k :: k in Keys(ms) ==> Denote(Lookup(ms, k)) == Denote(Lookup(ns, k))
    ensures Denote(Obj(ms)) == Denote(Obj(ns))
  {
  }

  lemma CanonLookup(v: Json, k: string)
    requires v.Obj? && k in Keys(v.members) && Distinct(Keys(v.members))
    ensures forall j :: j in Sort(Keys(v.members)) <==> j in Keys(v.members)
    ensures var cs := CanonMembers(v, Sort(Keys(v.members)));
      Keys(cs) == Sort(Keys(v.members)) && Lookup(cs, k) == Canon(Lookup(v.members, k))
  {
    hide Canon;
    SortMembers(Keys(v.members));
    var keys := Sort(Keys(v.members));
    var cs := CanonMembers(v, keys);
    assert Keys(cs) == keys;
    var i :| 0 <= i < |keys| && keys[i] == k;
    CanonMembersAt(v, keys, i);
    LookupUnique(cs, i);
  }

  lemma {:induction false} SameMembersSameCanon(v: Json, w: Json, keys: seq<string>)
    requires v.Obj? && w.Obj?
    requires forall k :: k in keys ==> k in Keys(v.members) && k in Keys(w.members)
    requires forall k :: k in keys ==> Canon(Lookup(v.members, k)) == Canon(Lookup(w.members, k))
    ensures CanonMembers(v, keys) == CanonMembers(w, keys)
  {
    if keys != [] { SameMembersSameCanon(v, w, keys[1..]); }
  }

  lemma {:induction false} SameMeaningSameCanon(v: Json, w: Json)
    requires WellFormed(v) && WellFormed(w) && Denote(v) == Denote(w)
    ensures Canon(v) == Canon(w)
    decreases v
  {
    match v
    case Arr(items) =>
      forall i | 0 <= i < |items| ensures Canon(items[i]) == Canon(w.items[i]) {
        assert Denote(v).items[i] == Denote(w).items[i];
        SameMeaningSameCanon(items[i], w.items[i]);
      }
    case Obj(ms) =>
      assert forall k :: k in Keys(ms) <==> k in Denote(v).members;
      assert forall k :: k in Keys(w.members) <==> k in Denote(w).members;
      SameElementsSameSort(Keys(ms), Keys(w.members));
      forall k | k in Keys(ms) ensures Canon(Lookup(ms, k)) == Canon(Lookup(w.members, k)) {
        assert Denote(v).members[k] == Denote(w).members[k];
        MemberSmaller(v, k);
        MemberSmaller(w, k);
        SameMeaningSameCanon(Lookup(ms, k), Lookup(w.members, k));
      }
      SortMembers(Keys(ms));
      SameMembersSameCanon(v, w, Sort(Keys(ms)));
    case _ =>
  }

  /** The text comparison of the comparator decides equality of meaning, whatever the key order. */
  lemma StableDecidesMeaning(v: Json, w: Json)
    requires WellFormed(v) && WellFormed(w)
    ensures Stable(v) == Stable(w) <==> Denote(v) == Denote(w)
  {
    StableIsStringifyCanon(v);
    StableIsStringifyCanon(w);
    StringifyInjective(Canon(v), Canon(w));
    CanonDenotes(v);
    CanonDenotes(w);
    if Denote(v) == Denote(w) {
      SameMeaningSameCanon(v, w);
    }
  }
}
