/** src/compare.js: what a replay is measured on, and the status the measurements earn. */
module Compare {
  import opened JsText
  import opened Json
  import opened Records
  import Lcs
  import Numerals
  import Splitting

  // ---------------------------------------------------------------------------------------
  // canonicalError, src/compare.js:12-26

  function Strip(s: string): string {
    if s == [] then "" else (if IsSpace(s[0]) then "" else [s[0]]) + Strip(s[1..])
  }

  /** The text of a value inside a template literal. */
  function TemplateText(v: Json): string {
    match v
    case Null => "null"
    case Str(s) => s
    case Arr(items) => JoinItems(items)
    case Obj(_) => "[object Object]"
    case _ => Stringify(v)
  }

  function JoinItems(items: seq<Json>): string {
    if items == [] then ""
    else
      var first := if items[0].Null? then "" else TemplateText(items[0]);
      if |items| == 1 then first else first + "," + JoinItems(items[1..])
  }

  function Template(v: Option<Json>): string {
    if v.None? then "undefined" else TemplateText(v.value)
  }

  /** `const [index, detail] = value`; only arrays and strings can be taken apart. */
  function Destructure(v: Json): Result<(Option<Json>, Option<Json>), string> {
    match v
    case Arr(items) => Ok((At(items, 0), At(items, 1)))
    case Str(s) => Ok((At(CharItems(s), 0), At(CharItems(s), 1)))
    case _ => Err("value is not iterable")
  }

  function At<T>(xs: seq<T>, i: nat): Option<T> {
    if i < |xs| then Some(xs[i]) else None
  }

  function CharItems(s: string): seq<Json> { seq(|s|, i requires 0 <= i < |s| => Str([s[i]])) }

  function CanonicalError(error: Json): Result<Option<string>, string> {
    match error
    case Null => Ok(None)
    case Str(s) => Ok(Some(Strip(s)))
    case _ =>
      var instruction := Property(error, "InstructionError");
      var rent := Property(error, "InsufficientFundsForRent");
      if instruction.Some? && Truthy(instruction.value) then
        match Destructure(instruction.value)
        case Err(e) => Err(e)
        case Ok((index, detail)) =>
          if detail.Some? && Property(detail.value, "Custom").Some? then
            Ok(Some("InstructionError(" + Template(index) + ",Custom(" + Template(Property(detail.value, "Custom")) +
              "))"))
          else
            var text :=
              if detail.None? then "undefined" else if detail.value.Str? then detail.value.s else Stable(detail.value);
            Ok(Some(Strip("InstructionError(" + Template(index) + "," + text + ")")))
      else if rent.Some? && Truthy(rent.value) then
        Ok(Some("InsufficientFundsForRent{account_index:" + Template(Property(rent.value, "account_index")) + "}"))
      else
        Ok(Some(Strip(Stable(error))))
  }

  function CustomError(index: int, code: int): Json {
    Obj([("InstructionError", Arr([Num(index), Obj([("Custom", Num(code))])]))])
  }

  function CustomErrorText(index: int, code: int): string {
    "InstructionError(" + Integer(index) + ",Custom(" + Integer(code) + "))"
  }

  lemma CustomErrorCanonical(index: int, code: int)
    ensures CanonicalError(CustomError(index, code)) == Ok(Some(CustomErrorText(index, code)))
  {
    var custom := Obj([("Custom", Num(code))]);
    var pair := Arr([Num(index), custom]);
    assert Keys(custom.members)[0] == "Custom";
    assert Keys(CustomError(index, code).members)[0] == "InstructionError";
    assert Property(custom, "Custom") == Some(Num(code));
    assert Property(CustomError(index, code), "InstructionError") == Some(pair);
    assert TemplateText(Num(index)) == Integer(index) && TemplateText(Num(code)) == Integer(code);
  }

  /**
   The RPC form and any spacing of the runner's text form of a custom instruction error meet in
   one canonical text, and no two custom errors share it.
   */
  lemma CustomErrorsAgreeExactly(index: int, code: int, index': int, code': int, text: string)
    requires Strip(text) == CustomErrorText(index', code')
    ensures CanonicalError(CustomError(index, code)) == CanonicalError(Str(text)) <==> index == index' && code == code'
  {
    hide CanonicalError;
    CustomErrorCanonical(index, code);
    CanonicalText(text);
    if CustomErrorText(index, code) == CustomErrorText(index', code') {
      CustomTextInjective(index, code, index', code');
    }
  }

  lemma CanonicalText(text: string)
    ensures CanonicalError(Str(text)) == Ok(Some(Strip(text)))
  {
  }

  lemma IntegerPrefix(n: int, m: int, rest: string, rest': string)
    requires Integer(n) + rest == Integer(m) + rest'
    requires rest != [] && rest' != [] && !IsDigit(rest[0]) && !IsDigit(rest'[0])
    ensures n == m && rest == rest'
  {
    hide Integer;
    ReadsInteger(n, rest);
    ReadsInteger(m, rest');
  }

  lemma CustomTextInjective(index: int, code: int, index': int, code': int)
    requires CustomErrorText(index, code) == CustomErrorText(index', code')
    ensures index == index' && code == code'
  {
    hide Integer;
    var prefix, middle := "InstructionError(", ",Custom(";
    var rest, rest' := middle + (Integer(code) + "))"), middle + (Integer(code') + "))");
    assert CustomErrorText(index, code) == prefix + (Integer(index) + rest);
    assert CustomErrorText(index', code') == prefix + (Integer(index') + rest');
    assert (prefix + (Integer(index) + rest))[|prefix|..] == Integer(index) + rest;
    assert (prefix + (Integer(index') + rest'))[|prefix|..] == Integer(index') + rest';
    IntegerPrefix(index, index', rest, rest');
    assert rest[|middle|..] == Integer(code) + "))";
    assert rest'[|middle|..] == Integer(code') + "))";
    IntegerPrefix(code, code', "))", "))");
  }

  /** The commonest form: an instruction index and the name of the error. */
  function NamedError(index: int, name: string): Json {
    Obj([("InstructionError", Arr([Num(index), Str(name)]))])
  }

  function NamedErrorText(index: int, name: string): string {
    "InstructionError(" + Integer(index) + "," + Strip(name) + ")"
  }

  lemma {:induction false} StripAppend(left: string, right: string)
    ensures Strip(left + right) == Strip(left) + Strip(right)
  {
    hide IsSpace;
    if left == [] {
      assert left + right == right;
    } else {
      assert (left + right)[1..] == left[1..] + right;
      StripAppend(left[1..], right);
    }
  }

  lemma {:induction false} StripNothing(text: string)
    requires forall i :: 0 <= i < |text| ==> '!' <= text[i] <= '~'
    ensures Strip(text) == text
  {
    if text != [] {
      assert !IsSpace(text[0]);
      StripNothing(text[1..]);
    }
  }

  /** What is stripped is exactly the white space, wherever it stands. */
  lemma StripMeans(left: string, c: char, right: string)
    ensures Strip("") == ""
    ensures Strip(left + [c] + right) == Strip(left) + (if IsSpace(c) then "" else [c]) + Strip(right)
  {
    hide IsSpace, Strip;
    StripAppend(left + [c], right);
    StripAppend(left, [c]);
    StripOne(c);
  }

  lemma StripOne(c: char)
    ensures Strip("") == "" && Strip([c]) == if IsSpace(c) then "" else [c]
  {
    hide IsSpace;
    assert [c][1..] == "";
  }

  /** A text without white space is not changed. */
  predicate Spaceless(text: string) { forall i :: 0 <= i < |text| ==> !IsSpace(text[i]) }

  lemma {:induction false} StripSpaceless(text: string)
    requires Spaceless(text)
    ensures Strip(text) == text
  {
    hide IsSpace;
    if text != [] { StripSpaceless(text[1..]); }
  }

  lemma IntegerPrintable(n: int)
    ensures forall i :: 0 <= i < |Integer(n)| ==> '!' <= Integer(n)[i] <= '~'
  {
  }

  lemma NamedErrorStripped(index: int, name: string)
    ensures Strip("InstructionError(" + Integer(index) + "," + name + ")") == NamedErrorText(index, name)
  {
    hide Strip, Integer;
    var start, number := "InstructionError(", Integer(index);
    StripNothing(start);
    IntegerPrintable(index);
    StripNothing(number);
    StripNothing(",");
    StripNothing(")");
    StripAppend(start + number + "," + name, ")");
    StripAppend(start + number + ",", name);
    StripAppend(start + number, ",");
    StripAppend(start, number);
  }

  lemma NamedErrorCanonical(index: int, name: string)
    ensures CanonicalError(NamedError(index, name)) == Ok(Some(NamedErrorText(index, name)))
  {
    hide Strip, NamedErrorText;
    var pair := Arr([Num(index), Str(name)]);
    assert Keys(NamedError(index, name).members)[0] == "InstructionError";
    assert Property(NamedError(index, name), "InstructionError") == Some(pair);
    assert TemplateText(Num(index)) == Integer(index);
    NamedErrorStripped(index, name);
  }

  lemma AfterIndex(index: int, tail: string, index': int, tail': string)
    requires "InstructionError(" + Integer(index) + "," + tail + ")" ==
      "InstructionError(" + Integer(index') + "," + tail' + ")"
    ensures index == index' && tail == tail'
  {
    hide Integer;
    var prefix := "InstructionError(";
    var rest, rest' := "," + tail + ")", "," + tail' + ")";
    assert prefix + Integer(index) + "," + tail + ")" == prefix + (Integer(index) + rest);
    assert prefix + Integer(index') + "," + tail' + ")" == prefix + (Integer(index') + rest');
    assert (prefix + (Integer(index) + rest))[|prefix|..] == Integer(index) + rest;
    assert (prefix + (Integer(index') + rest'))[|prefix|..] == Integer(index') + rest';
    IntegerPrefix(index, index', rest, rest');
    assert rest[1..|rest| - 1] == tail && rest'[1..|rest'| - 1] == tail';
  }

  /**
   Named instruction errors, as RPC values and as any spacing of the runner's text, meet exactly
   when the instruction index agrees and so do the names up to white space.
   */
  lemma NamedErrorsAgreeExactly(index: int, name: string, index': int, name': string, text: string)
    requires Strip(text) == NamedErrorText(index', name')
    ensures CanonicalError(NamedError(index, name)) == CanonicalError(Str(text)) <==>
      index == index' && Strip(name) == Strip(name')
    ensures CanonicalError(NamedError(index, name)) == CanonicalError(NamedError(index', name')) <==>
      index == index' && Strip(name) == Strip(name')
  {
    hide CanonicalError, Strip, Integer;
    NamedErrorCanonical(index, name);
    NamedErrorCanonical(index', name');
    CanonicalText(text);
    if NamedErrorText(index, name) == NamedErrorText(index', name') {
      AfterIndex(index, Strip(name), index', Strip(name'));
    }
  }

  /** A named error is taken for a custom one exactly when its name spells that custom error out. */
  lemma NamedMeetsCustomExactly(index: int, name: string, index': int, code: int)
    ensures CanonicalError(NamedError(index, name)) == CanonicalError(CustomError(index', code)) <==>
      index == index' && Strip(name) == "Custom(" + Integer(code) + ")"
  {
    hide CanonicalError, Strip, Integer;
    NamedErrorCanonical(index, name);
    CustomErrorCanonical(index', code);
    var custom := "Custom(" + Integer(code) + ")";
    assert CustomErrorText(index', code) == "InstructionError(" + Integer(index') + "," + custom + ")";
    if NamedErrorText(index, name) == CustomErrorText(index', code) {
      AfterIndex(index, Strip(name), index', custom);
    }
  }

  /** Printed objects begin with a brace, and stripping white space leaves it. */
  predicate Braced(text: string) { text != "" && text[0] == '{' }

  lemma StrippedObject(v: Json)
    requires v.Obj?
    ensures Braced(Strip(Stable(v)))
  {
    var text := Stable(v);
    assert text[0] == '{' && !IsSpace('{');
  }

  /** Objects the canonical form has no case for. */
  predicate OtherError(error: Json) {
    error.Obj? &&
    (Property(error, "InstructionError").Some? ==> !Truthy(Property(error, "InstructionError").value)) &&
    (Property(error, "InsufficientFundsForRent").Some? ==> !Truthy(Property(error, "InsufficientFundsForRent").value))
  }

  /**
   Any other error object meets a text of the runner only if that text is the object's own JSON up to
   white space; so it never meets the runner's form, a name with its arguments.
   */
  lemma OtherErrorsMeetOnlyJson(error: Json, text: string)
    requires OtherError(error)
    ensures CanonicalError(error) == CanonicalError(Str(text)) <==> Strip(text) == Strip(Stable(error))
    ensures !Braced(Strip(text)) ==> CanonicalError(error) != CanonicalError(Str(text))
  {
    hide Strip, Stable;
    StrippedObject(error);
  }

  function StructuredError(index: int, detail: Json): Json {
    Obj([("InstructionError", Arr([Num(index), detail]))])
  }

  lemma StructuredErrorCanonical(index: int, detail: Json)
    requires detail.Obj? && Property(detail, "Custom").None?
    ensures CanonicalError(StructuredError(index, detail)) == Ok(Some(NamedErrorText(index, Stable(detail))))
  {
    hide Strip, NamedErrorText, Stable;
    var pair := Arr([Num(index), detail]);
    assert Keys(StructuredError(index, detail).members)[0] == "InstructionError";
    assert Property(StructuredError(index, detail), "InstructionError") == Some(pair);
    assert TemplateText(Num(index)) == Integer(index);
    NamedErrorStripped(index, Stable(detail));
  }

  /** The same for an instruction error whose detail is an object other than Custom. */
  lemma StructuredErrorsMeetOnlyJson(index: int, detail: Json, index': int, name: string, text: string)
    requires detail.Obj? && Property(detail, "Custom").None?
    requires Strip(text) == NamedErrorText(index', name)
    ensures CanonicalError(StructuredError(index, detail)) == CanonicalError(Str(text)) <==>
      index == index' && Strip(name) == Strip(Stable(detail))
    ensures !Braced(Strip(name)) ==> CanonicalError(StructuredError(index, detail)) != CanonicalError(Str(text))
  {
    hide CanonicalError, Strip, Integer, Stable;
    StructuredErrorCanonical(index, detail);
    CanonicalText(text);
    StrippedObject(detail);
    if NamedErrorText(index, Stable(detail)) == NamedErrorText(index', name) {
      AfterIndex(index, Strip(Stable(detail)), index', Strip(name));
    }
  }

  lemma SpacedError(index: int, name: string)
    ensures Strip("InstructionError(" + Integer(index) + ", " + name + ")") == NamedErrorText(index, name)
  {
    hide Strip, Integer, IsSpace;
    NamedErrorStripped(index, name);
    var start, rest := "InstructionError(" + Integer(index) + ",", name + ")";
    assert IsSpace(' ') by { BlankIsSpace(); }
    StripMeans(start, ' ', rest);
    StripAppend(start, rest);
    assert start + [' '] + rest == "InstructionError(" + Integer(index) + ", " + name + ")";
    assert start + rest == "InstructionError(" + Integer(index) + "," + name + ")";
  }

  lemma BlankIsSpace()
    ensures IsSpace(' ')
  {
  }

  /** The runner writes a blank after the comma: `InstructionError(2, Custom(6001))`. */
  lemma CustomErrorAsPrinted(index: int, code: int, index': int, code': int)
    ensures CanonicalError(CustomError(index, code)) ==
            CanonicalError(Str("InstructionError(" + Integer(index') + ", Custom(" + Integer(code') + "))")) <==>
      index == index' && code == code'
  {
    hide CanonicalError, Strip, Integer, IsSpace;
    var custom := "Custom(" + Integer(code') + ")";
    var text := "InstructionError(" + Integer(index') + ", Custom(" + Integer(code') + "))";
    assert text == "InstructionError(" + Integer(index') + ", " + custom + ")";
    SpacedError(index', custom);
    IntegerPrintable(code');
    StripNothing(custom);
    assert NamedErrorText(index', custom) == CustomErrorText(index', code');
    CustomErrorsAgreeExactly(index, code, index', code', text);
  }

  /** `InstructionError(0, InsufficientFunds)`; names hold no white space. */
  lemma NamedErrorAsPrinted(index: int, name: string, index': int, name': string)
    requires Spaceless(name) && Spaceless(name')
    ensures CanonicalError(NamedError(index, name)) ==
            CanonicalError(Str("InstructionError(" + Integer(index') + ", " + name' + ")")) <==>
      index == index' && name == name'
  {
    hide CanonicalError, Strip, Integer, IsSpace;
    SpacedError(index', name');
    StripSpaceless(name);
    StripSpaceless(name');
    NamedErrorsAgreeExactly(index, name, index', name', "InstructionError(" + Integer(index') + ", " + name' + ")");
  }

  function RentError(index: int): Json {
    Obj([("InsufficientFundsForRent", Obj([("account_index", Num(index))]))])
  }

  function RentErrorText(index: int): string { "InsufficientFundsForRent{account_index:" + Integer(index) + "}" }

  lemma RentErrorCanonical(index: int)
    ensures CanonicalError(RentError(index)) == Ok(Some(RentErrorText(index)))
  {
    var detail := Obj([("account_index", Num(index))]);
    assert Keys(detail.members) == ["account_index"];
    assert Keys(RentError(index).members) == ["InsufficientFundsForRent"];
    assert |"InstructionError"| != |"InsufficientFundsForRent"|;
    assert Property(detail, "account_index") == Some(Num(index));
    assert Property(RentError(index), "InsufficientFundsForRent") == Some(detail);
    assert TemplateText(Num(index)) == Integer(index);
  }

  /** The same for rent errors: RPC value and runner text agree exactly on the account index. */
  lemma RentErrorsAgreeExactly(index: int, index': int, text: string)
    requires Strip(text) == RentErrorText(index')
    ensures CanonicalError(RentError(index)) == CanonicalError(Str(text)) <==> index == index'
  {
    hide CanonicalError, Integer;
    RentErrorCanonical(index);
    CanonicalText(text);
    if RentErrorText(index) == RentErrorText(index') {
      var prefix := "InsufficientFundsForRent{account_index:";
      assert RentErrorText(index) == prefix + (Integer(index) + "}");
      assert RentErrorText(index') == prefix + (Integer(index') + "}");
      assert (prefix + (Integer(index) + "}"))[|prefix|..] == Integer(index) + "}";
      assert (prefix + (Integer(index') + "}"))[|prefix|..] == Integer(index') + "}";
      IntegerPrefix(index, index', "}", "}");
    }
  }

  lemma StripBlank(left: string, right: string)
    ensures Strip(left + " " + right) == Strip(left) + Strip(right)
  {
    hide Strip;
    BlankIsSpace();
    StripMeans(left, ' ', right);
    assert left + [' '] + right == left + " " + right;
  }

  lemma RentPrefix()
    ensures Strip("InsufficientFundsForRent { account_index: ") == "InsufficientFundsForRent{account_index:"
  {
    hide Strip, IsSpace;
    var name, open, field := "InsufficientFundsForRent", "{", "account_index:";
    assert "InsufficientFundsForRent { account_index: " == name + " " + open + " " + field + " " + "";
    StripNothing(name);
    StripNothing(open);
    StripNothing(field);
    StripNothing("");
    StripBlank(name, open);
    StripBlank(name + " " + open, field);
    StripBlank(name + " " + open + " " + field, "");
  }

  /** `InsufficientFundsForRent { account_index: 3 }` */
  lemma RentErrorAsPrinted(index: int, index': int)
    ensures CanonicalError(RentError(index)) ==
            CanonicalError(Str("InsufficientFundsForRent { account_index: " + Integer(index') + " }")) <==>
      index == index'
  {
    hide CanonicalError, Strip, Integer, IsSpace;
    var prefix, number := "InsufficientFundsForRent { account_index: ", Integer(index');
    RentPrefix();
    IntegerPrintable(index');
    StripNothing(number);
    StripNothing("}");
    StripBlank(prefix + number, "}");
    StripAppend(prefix, number);
    assert prefix + number + " }" == prefix + number + " " + "}";
    RentErrorsAgreeExactly(index, index', prefix + number + " }");
  }

  /** A missing error has the canonical form of no other value. */
  lemma NoErrorMeetsOnlyNull(error: Json)
    ensures CanonicalError(error) == Ok(None) <==> error.Null?
  {
    hide Strip, Stable, TemplateText, Property, Truthy;
  }

  /** The one error value that cannot be taken apart: an InstructionError that is neither a list nor a text. */
  lemma CanonicalErrorThrows(error: Json)
    ensures CanonicalError(error).Err? <==>
      var v := Property(error, "InstructionError");
      v.Some? && Truthy(v.value) && !v.value.Arr? && !v.value.Str?
  {
    hide Strip, Stable, TemplateText, Truthy;
  }

  function ItemTexts(items: seq<Json>): (texts: seq<string>)
    ensures |texts| == |items|
    ensures forall i :: 0 <= i < |items| ==> texts[i] == if items[i].Null? then "" else TemplateText(items[i])
  {
    seq(|items|, i requires 0 <= i < |items| => if items[i].Null? then "" else TemplateText(items[i]))
  }

  /** A list inside a template literal is its items joined by commas, null items being empty. */
  lemma {:induction false} ListText(items: seq<Json>)
    ensures TemplateText(Arr(items)) == Splitting.Join(ItemTexts(items), ',')
  {
    if |items| > 1 {
      ListText(items[1..]);
      assert ItemTexts(items) == [ItemTexts(items)[0]] + ItemTexts(items[1..]);
      Splitting.JoinFirst(ItemTexts(items)[0], ItemTexts(items[1..]), ',');
    }
  }

  lemma InstructionErrorOf(v: Json)
    ensures Property(Obj([("InstructionError", v)]), "InstructionError") == Some(v)
  {
    assert Keys([("InstructionError", v)])[0] == "InstructionError";
  }

  /** The canonical form of an instruction error, given its two parts as texts. */
  lemma PartsCanonical(v: Json, index: Option<Json>, detail: Option<Json>, text: string)
    requires Truthy(v) && Destructure(v) == Ok((index, detail))
    requires (detail.None? && text == "undefined") || (detail.Some? && detail.value == Str(text))
    ensures CanonicalError(Obj([("InstructionError", v)])) ==
            Ok(Some(Strip("InstructionError(" + Template(index) + "," + text + ")")))
  {
    hide Strip, Property, Template, Destructure, Truthy;
    InstructionErrorOf(v);
    if detail.Some? { TextHasNoMembers(text); }
  }

  /** Instruction errors of other shapes: an empty list, no detail, no index, and a text, taken apart by characters. */
  lemma OddInstructionErrors(index: int, name: string, c: char, d: char, rest: string)
    ensures CanonicalError(Obj([("InstructionError", Arr([]))])) ==
            CanonicalError(Str("InstructionError(undefined,undefined)"))
    ensures CanonicalError(Obj([("InstructionError", Arr([Num(index)]))])) ==
      CanonicalError(NamedError(index, "undefined"))
    ensures CanonicalError(Obj([("InstructionError", Arr([Null, Str(name)]))])) ==
            CanonicalError(Str("InstructionError(null," + name + ")"))
    ensures CanonicalError(Obj([("InstructionError", Str([c, d] + rest))])) ==
            CanonicalError(Str("InstructionError(" + [c] + "," + [d] + ")"))
  {
    hide Strip, Integer, CanonicalError;
    PartsCanonical(Arr([]), None, None, "undefined");
    CanonicalText("InstructionError(undefined,undefined)");
    assert "InstructionError(" + "undefined" + "," + "undefined" + ")" == "InstructionError(undefined,undefined)";
    PartsCanonical(Arr([Num(index)]), Some(Num(index)), None, "undefined");
    PartsCanonical(Arr([Num(index), Str("undefined")]), Some(Num(index)), Some(Str("undefined")), "undefined");
    PartsCanonical(Arr([Null, Str(name)]), Some(Null), Some(Str(name)), name);
    CanonicalText("InstructionError(null," + name + ")");
    assert "InstructionError(" + "null" + "," + name + ")" == "InstructionError(null," + name + ")";
    assert At(CharItems([c, d] + rest), 0) == Some(Str([c])) && At(CharItems([c, d] + rest), 1) == Some(Str([d]));
    PartsCanonical(Str([c, d] + rest), Some(Str([c])), Some(Str([d])), [d]);
    CanonicalText("InstructionError(" + [c] + "," + [d] + ")");
  }

  /** Other values in the place of an index. */
  lemma OddIndices(members: seq<(string, Json)>, flag: bool, text: string, name: string)
    ensures CanonicalError(Obj([("InstructionError", Arr([Obj(members), Str(name)]))])) ==
            CanonicalError(Str("InstructionError([object Object]," + name + ")"))
    ensures CanonicalError(Obj([("InstructionError", Arr([Bool(flag), Str(name)]))])) ==
            CanonicalError(Str("InstructionError(" + (if flag then "true" else "false") + "," + name + ")"))
    ensures CanonicalError(Obj([("InstructionError", Arr([Str(text), Str(name)]))])) ==
            CanonicalError(Str("InstructionError(" + text + "," + name + ")"))
  {
    hide Strip, CanonicalError;
    PartsCanonical(Arr([Obj(members), Str(name)]), Some(Obj(members)), Some(Str(name)), name);
    CanonicalText("InstructionError([object Object]," + name + ")");
    assert "InstructionError(" + "[object Object]" + "," + name + ")" ==
      "InstructionError([object Object]," + name + ")";
    PartsCanonical(Arr([Bool(flag), Str(name)]), Some(Bool(flag)), Some(Str(name)), name);
    CanonicalText("InstructionError(" + (if flag then "true" else "false") + "," + name + ")");
    PartsCanonical(Arr([Str(text), Str(name)]), Some(Str(text)), Some(Str(name)), name);
    CanonicalText("InstructionError(" + text + "," + name + ")");
  }

  lemma TextHasNoMembers(text: string)
    ensures Property(Str(text), "Custom") == None
  {
  }

  // ---------------------------------------------------------------------------------------
  // canonicalReturnData, src/compare.js:46-52

  /** `v || default` */
  function Or(v: Option<Json>, default: Json): Json {
    if v.Some? && Truthy(v.value) then v.value else default
  }

  function ReturnProgram(v: Json): Json {
    Or(Property(v, "programId"), Or(Property(v, "program_id"), Null))
  }

  function ReturnBytes(v: Json): Json {
    var data := Property(v, "data");
    var first := if data.Some? && data.value.Arr? then At(data.value.items, 0) else data;
    Or(Property(v, "dataBase64"), Or(first, Str("")))
  }

  function CanonicalReturnData(v: Json): Json {
    if v.Null? then Null else Obj([("programId", ReturnProgram(v)), ("dataBase64", ReturnBytes(v))])
  }

  /** Either nothing was returned on both sides, or the same data by the same program. */
  ghost predicate SameReturnData(v: Json, w: Json) {
    (v.Null? <==> w.Null?) &&
    (!v.Null? ==>
      Denote(ReturnProgram(v)) == Denote(ReturnProgram(w)) && Denote(ReturnBytes(v)) == Denote(ReturnBytes(w)))
  }

  lemma TwoFieldsDenote(program: Json, data: Json)
    ensures Denote(Obj([("programId", program), ("dataBase64", data)])) ==
      MObj(map["programId" := Denote(program), "dataBase64" := Denote(data)])
  {
    var ms := [("programId", program), ("dataBase64", data)];
    assert "programId"[0] == 'p' && "dataBase64"[0] == 'd';
    assert Keys(ms)[0] == "programId" && Keys(ms)[1] == "dataBase64";
    assert ms[1..][0].0 == "dataBase64";
  }

  lemma ReturnDataMeans(v: Json, w: Json)
    ensures Denote(CanonicalReturnData(v)) == Denote(CanonicalReturnData(w)) <==> SameReturnData(v, w)
  {
    hide Denote, ReturnProgram, ReturnBytes;
    if !v.Null? { TwoFieldsDenote(ReturnProgram(v), ReturnBytes(v)); }
    if !w.Null? { TwoFieldsDenote(ReturnProgram(w), ReturnBytes(w)); }
    assert "programId"[0] == 'p' && "dataBase64"[0] == 'd';
    if !v.Null? && !w.Null? {
      var a := map["programId" := Denote(ReturnProgram(v)), "dataBase64" := Denote(ReturnBytes(v))];
      var b := map["programId" := Denote(ReturnProgram(w)), "dataBase64" := Denote(ReturnBytes(w))];
      assert a == b ==> a["programId"] == b["programId"] && a["dataBase64"] == b["dataBase64"];
    } else {
      NullDenotes();
    }
  }

  lemma NullDenotes()
    ensures Denote(Null) == MNull
  {
  }

  lemma PropertyWellFormed(v: Json, key: string)
    requires WellFormed(v)
    ensures Property(v, key).Some? ==> WellFormed(Property(v, key).value)
  {
    if Property(v, key).Some? { MemberSmaller(v, key); }
  }

  lemma CanonicalReturnDataWellFormed(v: Json)
    requires WellFormed(v)
    ensures WellFormed(CanonicalReturnData(v))
  {
    PropertyWellFormed(v, "programId");
    PropertyWellFormed(v, "program_id");
    PropertyWellFormed(v, "dataBase64");
    PropertyWellFormed(v, "data");
    var r := CanonicalReturnData(v);
    if r.Obj? {
      assert "programId"[0] != "dataBase64"[0];
      assert Keys(r.members) == ["programId", "dataBase64"];
    }
  }

  function RpcReturnData(program: string, data: string, encoding: string): Json {
    Obj([("programId", Str(program)), ("data", Arr([Str(data), Str(encoding)]))])
  }

  function RunnerReturnData(program: string, data: string): Json {
    Obj([("programId", Str(program)), ("dataBase64", Str(data))])
  }

  lemma ReturnDataCanonical(program: string, data: string, encoding: string)
    requires program != ""
    ensures CanonicalReturnData(RpcReturnData(program, data, encoding)) == RunnerReturnData(program, data)
    ensures CanonicalReturnData(RunnerReturnData(program, data)) == RunnerReturnData(program, data)
  {
    var rpc, runner := RpcReturnData(program, data, encoding), RunnerReturnData(program, data);
    assert |"programId"| == 9 && |"program_id"| == 10 && |"data"| == 4 && |"dataBase64"| == 10;
    assert "dataBase64"[0] != "program_id"[0];
    assert Keys(rpc.members) == ["programId", "data"] && Keys(runner.members) == ["programId", "dataBase64"];
    assert rpc.members[1..][0].0 == "data" && runner.members[1..][0].0 == "dataBase64";
    assert Property(rpc, "programId") == Some(Str(program)) && Property(runner, "programId") == Some(Str(program));
    assert Property(rpc, "dataBase64") == None && Property(runner, "data") == None;
    assert Keys(rpc.members[1..]) == ["data"] && Keys(runner.members[1..]) == ["dataBase64"];
    assert Property(rpc, "data") == Some(Arr([Str(data), Str(encoding)]));
    assert Property(runner, "dataBase64") == Some(Str(data));
  }

  /** A member of an object with at most two. */
  lemma TwoMembers(key: string, v: Json, other: string, w: Json, name: string)
    requires key != other
    ensures Property(Obj([(key, v), (other, w)]), name) ==
      if name == key then Some(v) else if name == other then Some(w) else None
  {
    var ms := [(key, v), (other, w)];
    assert Keys(ms) == [key, other] && Keys(ms[1..]) == [other];
  }

  /** Return data may say `program_id`, and may give its data as text, as text and encoding, or as base 64. */
  lemma ReturnDataShapes(program: string, data: string, encoding: string, name: string, field: string)
    requires program != "" && name in {"programId", "program_id"} && field in {"data", "dataBase64"}
    ensures CanonicalReturnData(Obj([(name, Str(program)), (field, Str(data))])) == RunnerReturnData(program, data)
    ensures CanonicalReturnData(Obj([(name, Str(program)), ("data", Arr([Str(data), Str(encoding)]))])) ==
      RunnerReturnData(program, data)
    ensures CanonicalReturnData(Obj([])) == Obj([("programId", Null), ("dataBase64", Str(""))])
  {
    hide Property;
    assert |"programId"| == 9 && |"program_id"| == 10 && |"data"| == 4 && |"dataBase64"| == 10;
    assert "dataBase64"[0] != "program_id"[0];
    forall key
      ensures Property(Obj([]), key) == None
      ensures Property(Obj([(name, Str(program)), (field, Str(data))]), key) ==
        if key == name then Some(Str(program)) else if key == field then Some(Str(data)) else None
      ensures Property(Obj([(name, Str(program)), ("data", Arr([Str(data), Str(encoding)]))]), key) ==
        if key == name then Some(Str(program))
        else if key == "data" then Some(Arr([Str(data), Str(encoding)]))
        else None
    {
      TwoMembers(name, Str(program), field, Str(data), key);
      TwoMembers(name, Str(program), "data", Arr([Str(data), Str(encoding)]), key);
      NoMembers(key);
    }
  }

  lemma NoMembers(key: string)
    ensures Property(Obj([]), key) == None
  {
  }

  /** The two shapes of return data compare equal exactly for the same program and the same data. */
  lemma ReturnDataAgreesExactly(program: string, data: string, encoding: string, program': string, data': string)
    requires program != "" && program' != ""
    ensures (Stable(CanonicalReturnData(RpcReturnData(program, data, encoding))) ==
             Stable(CanonicalReturnData(RunnerReturnData(program', data'))))
            <==> (program == program' && data == data')
  {
    hide CanonicalReturnData, Stable, Denote;
    ReturnDataCanonical(program, data, encoding);
    ReturnDataCanonical(program', data', encoding);
    RunnerReturnDataDenotes(program, data);
    RunnerReturnDataDenotes(program', data');
    StableDecidesMeaning(RunnerReturnData(program, data), RunnerReturnData(program', data'));
  }

  lemma RunnerReturnDataDenotes(program: string, data: string)
    ensures var v := RunnerReturnData(program, data);
      && WellFormed(v) && Denote(v).MObj?
      && "programId" in Denote(v).members && Denote(v).members["programId"] == MStr(program)
      && "dataBase64" in Denote(v).members && Denote(v).members["dataBase64"] == MStr(data)
  {
    var v := RunnerReturnData(program, data);
    assert "programId"[0] == 'p' && "dataBase64"[0] == 'd';
    assert Keys(v.members)[0] == "programId" && Keys(v.members)[1] == "dataBase64";
    assert v.members[1..][0].0 == "dataBase64";
  }

  // ---------------------------------------------------------------------------------------
  // The post-state checks, src/compare.js:54-75

  /** An account after replay; `data` is the bytes its base64 text stands for. */
  datatype PostAccount = PostAccount(pubkey: string, lamports: int, data: seq<Byte>)

  datatype Original = Original(
    accountRoles: seq<Role>, postBalances: seq<int>, postTokenBalances: seq<TokenBalance>)

  /** A JavaScript Map built from a list of pairs: the last entry for a key wins. */
  function LastAccount(accounts: seq<PostAccount>, pubkey: string): (r: Option<PostAccount>)
    ensures r.Some? ==> r.value in accounts && r.value.pubkey == pubkey
    ensures r.None? ==> forall a :: a in accounts ==> a.pubkey != pubkey
  {
    if accounts == [] then None
    else
      var last := accounts[|accounts| - 1];
      if last.pubkey == pubkey then Some(last) else LastAccount(accounts[..|accounts| - 1], pubkey)
  }

  function LastRole(roles: seq<Role>, index: nat): Option<string> {
    if roles == [] then None
    else
      var last := roles[|roles| - 1];
      if last.index == index then Some(last.pubkey) else LastRole(roles[..|roles| - 1], index)
  }

  /** Of several roles with one index, the last one names the account. */
  lemma {:induction false} LastRoleCounts(roles: seq<Role>, k: nat)
    requires k < |roles| && forall j :: k < j < |roles| ==> roles[j].index != roles[k].index
    ensures LastRole(roles, roles[k].index) == Some(roles[k].pubkey)
  {
    if k < |roles| - 1 { LastRoleCounts(roles[..|roles| - 1], k); }
  }

  lemma {:induction false} NoRole(roles: seq<Role>, index: nat)
    ensures LastRole(roles, index) == None <==> forall r :: r in roles ==> r.index != index
  {
    if roles != [] {
      var init := roles[..|roles| - 1];
      NoRole(init, index);
      assert forall r :: r in roles <==> r in init || r == roles[|roles| - 1];
    }
  }

  datatype BalanceCheck = BalanceCheck(pubkey: string, expected: Option<int>, actual: Option<int>, exact: bool)

  function CheckBalance(original: Original, accounts: seq<PostAccount>, role: Role): BalanceCheck {
    var expected := At(original.postBalances, role.index);
    var last := LastAccount(accounts, role.pubkey);
    var actual := if last.Some? then Some(last.value.lamports) else if expected == Some(0) then Some(0) else None;
    BalanceCheck(role.pubkey, expected, actual, expected.Some? && actual == expected)
  }

  function WritableRoles(roles: seq<Role>): (ws: seq<Role>)
    ensures forall r :: r in ws <==> r in roles && r.writable
  {
    if roles == [] then []
    else (if roles[0].writable then [roles[0]] else []) + WritableRoles(roles[1..])
  }

  function PostBalanceChecks(original: Original, accounts: seq<PostAccount>): seq<BalanceCheck> {
    var ws := WritableRoles(original.accountRoles);
    seq(|ws|, i requires 0 <= i < |ws| => CheckBalance(original, accounts, ws[i]))
  }

  datatype TokenCheck = TokenCheck(pubkey: Option<string>, mint: string, expected: string, actual: Option<string>,
    exact: bool)

  /** readBigUInt64LE */
  function ReadU64LE(data: seq<Byte>, offset: nat): nat
    requires offset + 8 <= |data|
  {
    Numerals.ValueLE(data[offset..offset + 8], 256)
  }

  function CheckToken(original: Original, accounts: seq<PostAccount>, balance: TokenBalance): TokenCheck {
    var pubkey := LastRole(original.accountRoles, balance.accountIndex);
    var last := if pubkey.Some? then LastAccount(accounts, pubkey.value) else None;
    var data := if last.Some? then last.value.data else [];
    var actual := if |data| >= 72 then Some(Decimal(ReadU64LE(data, 64))) else None;
    TokenCheck(pubkey, balance.mint, balance.amount, actual, actual == Some(balance.amount))
  }

  function PostTokenChecks(original: Original, accounts: seq<PostAccount>): seq<TokenCheck> {
    var bs := original.postTokenBalances;
    seq(|bs|, i requires 0 <= i < |bs| => CheckToken(original, accounts, bs[i]))
  }

  lemma {:induction false} WritableAppend(a: seq<Role>, b: seq<Role>)
    ensures WritableRoles(a + b) == WritableRoles(a) + WritableRoles(b)
  {
    if a == [] {
      assert a + b == b;
    } else {
      assert (a + b)[1..] == a[1..] + b;
      WritableAppend(a[1..], b);
    }
  }

  /** The balance checks follow the writable roles, in their order. */
  lemma ChecksFollowRoles(
    original: Original, accounts: seq<PostAccount>, before: seq<Role>, role: Role, after: seq<Role>)
    requires original.accountRoles == before + [role] + after
    ensures PostBalanceChecks(original, accounts) ==
      PostBalanceChecks(original.(accountRoles := before), accounts) +
      (if role.writable then [CheckBalance(original, accounts, role)] else []) +
      PostBalanceChecks(original.(accountRoles := after), accounts)
  {
    hide WritableRoles, LastAccount;
    WritableAppend(before + [role], after);
    WritableAppend(before, [role]);
    assert WritableRoles([role]) == if role.writable then [role] else [] by { OneWritable(role); }
  }

  lemma OneWritable(role: Role)
    ensures WritableRoles([role]) == if role.writable then [role] else []
  {
    assert [role][1..] == [];
  }

  /** What a check reports beside its verdict; an account that is gone counts as holding an expected zero. */
  lemma ChecksReport(original: Original, accounts: seq<PostAccount>, role: Role, balance: TokenBalance)
    ensures var check, last := CheckBalance(original, accounts, role), LastAccount(accounts, role.pubkey);
      && check.pubkey == role.pubkey && check.expected == At(original.postBalances, role.index)
      && (last.Some? ==> check.actual == Some(last.value.lamports))
      && (last.None? ==> check.actual == if check.expected == Some(0) then Some(0) else None)
      && (check.exact <==> check.expected.Some? && check.actual == check.expected)
    ensures var check := CheckToken(original, accounts, balance);
      && check.pubkey == LastRole(original.accountRoles, balance.accountIndex)
      && check.mint == balance.mint && check.expected == balance.amount
      && (check.exact <==> check.actual == Some(check.expected))
  {
    hide LastAccount, LastRole;
  }

  /** The accounts either list of checks looks at. */
  ghost predicate Compared(original: Original, pubkey: string) {
    (exists r :: r in original.accountRoles && r.writable && r.pubkey == pubkey) ||
    (exists b :: b in original.postTokenBalances && LastRole(original.accountRoles, b.accountIndex) == Some(pubkey))
  }

  ghost predicate SameOnCompared(original: Original, accounts: seq<PostAccount>, accounts': seq<PostAccount>) {
    forall pubkey :: Compared(original, pubkey) ==> LastAccount(accounts, pubkey) == LastAccount(accounts', pubkey)
  }

  lemma ChecksDependOnCompared(original: Original, accounts: seq<PostAccount>, accounts': seq<PostAccount>)
    requires SameOnCompared(original, accounts, accounts')
    ensures PostBalanceChecks(original, accounts) == PostBalanceChecks(original, accounts')
    ensures PostTokenChecks(original, accounts) == PostTokenChecks(original, accounts')
  {
    var ws := WritableRoles(original.accountRoles);
    forall i | 0 <= i < |ws|
      ensures CheckBalance(original, accounts, ws[i]) == CheckBalance(original, accounts', ws[i]) {
      assert ws[i] in ws;
      assert Compared(original, ws[i].pubkey);
    }
    var bs := original.postTokenBalances;
    forall i | 0 <= i < |bs| ensures CheckToken(original, accounts, bs[i]) == CheckToken(original, accounts', bs[i]) {
      var pubkey := LastRole(original.accountRoles, bs[i].accountIndex);
      assert bs[i] in bs;
      assert pubkey.Some? ==> Compared(original, pubkey.value);
    }
  }

  ghost predicate DistinctAccounts(accounts: seq<PostAccount>) {
    forall i, j :: 0 <= i < j < |accounts| ==> accounts[i].pubkey != accounts[j].pubkey
  }

  lemma LastAccountOf(accounts: seq<PostAccount>, account: PostAccount)
    requires DistinctAccounts(accounts) && account in accounts
    ensures LastAccount(accounts, account.pubkey) == Some(account)
  {
  }

  /** The order of post-accounts with distinct addresses does not matter. */
  lemma PermutedAccounts(original: Original, accounts: seq<PostAccount>, accounts': seq<PostAccount>)
    requires DistinctAccounts(accounts) && DistinctAccounts(accounts')
    requires multiset(accounts) == multiset(accounts')
    ensures SameOnCompared(original, accounts, accounts')
  {
    forall pubkey ensures LastAccount(accounts, pubkey) == LastAccount(accounts', pubkey) {
      assert forall a :: a in accounts <==> a in multiset(accounts);
      assert forall a :: a in accounts' <==> a in multiset(accounts');
      var last := LastAccount(accounts, pubkey);
      if last.Some? { LastAccountOf(accounts', last.value); }
    }
  }

  /** Accounts nobody compares can be added anywhere. */
  lemma {:induction false} ExtraAccounts(
    original: Original, before: seq<PostAccount>, extra: seq<PostAccount>, after: seq<PostAccount>)
    requires forall a :: a in extra ==> !Compared(original, a.pubkey)
    ensures SameOnCompared(original, before + extra + after, before + after)
  {
    forall pubkey | Compared(original, pubkey)
      ensures LastAccount(before + extra + after, pubkey) == LastAccount(before + after, pubkey)
    {
      LastAccountAppend(before + extra, after, pubkey);
      LastAccountAppend(before, extra, pubkey);
      LastAccountAppend(before, after, pubkey);
    }
  }

  lemma {:induction false} LastAccountAppend(left: seq<PostAccount>, right: seq<PostAccount>, pubkey: string)
    ensures LastAccount(left + right, pubkey) ==
            if LastAccount(right, pubkey).Some? then LastAccount(right, pubkey) else LastAccount(left, pubkey)
    decreases |right|
  {
    if right == [] {
      assert left + right == left;
    } else {
      var init := right[..|right| - 1];
      assert (left + right)[..|left + right| - 1] == left + init;
      LastAccountAppend(left, init, pubkey);
    }
  }

  // ---------------------------------------------------------------------------------------
  // The status ladder, src/compare.js:86-125

  datatype Fidelity = EXACT | HIGH_FIDELITY | PARTIAL | FAILED | UNSUPPORTED

  /** The parts of expected.json the comparison reads; a missing value reads as Null. */
  datatype Expected = Expected(
    success: Field<bool>, error: Json, logs: Option<seq<string>>, computeUnits: Field<nat>,
    innerInstructions: Json, returnData: Json)

  /** A replay.json, whoever wrote it. */
  datatype Replay = Replay(
    status: Option<string>, success: Field<bool>, error: Json, logs: Option<seq<string>>, computeUnits: Field<nat>,
    postAccounts: seq<PostAccount>, innerInstructions: Json, returnData: Json)

  datatype Signals = Signals(
    result: bool, error: bool, similarity: real, compute: bool, percent: Option<real>,
    balances: bool, tokens: bool, inner: bool, returnData: bool)
  {
    predicate LogsExact() { similarity == 1.0 }
    predicate ComputeClose() { percent.None? || percent.value <= 1.0 }
  }

  function Lines(logs: Option<seq<string>>): seq<string> { if logs.Some? then logs.value else [] }

  function OrNoItems(v: Json): Json { if Truthy(v) then v else Arr([]) }

  function DifferencePercent(original: Field<nat>, replay: Field<nat>): Option<real> {
    if !original.Is? || !replay.Is? || original.value == 0 then None
    else
      var difference := replay.value - original.value;
      Some((if difference < 0 then -difference else difference) as real / original.value as real * 100.0)
  }

  /** The difference as a percentage of the original, where both are counted and the original is not zero. */
  lemma DifferencePercentMeans(original: Field<nat>, replay: Field<nat>)
    ensures DifferencePercent(original, replay).Some? <==> original.Is? && replay.Is? && original.value > 0
    ensures DifferencePercent(original, replay).Some? ==>
      var difference :=
        if replay.value < original.value then original.value - replay.value else replay.value - original.value;
      DifferencePercent(original, replay).value * original.value as real == 100.0 * difference as real
  {
    if DifferencePercent(original, replay).Some? {
      var a := if replay.value < original.value then original.value - replay.value else replay.value - original.value;
      DivideMultiply(a as real, original.value as real);
    }
  }

  lemma DivideMultiply(a: real, b: real)
    requires b != 0.0
    ensures a / b * 100.0 * b == 100.0 * a
  {
    var q := a / b;
    assert q * b == a;
    assert q * 100.0 * b == 100.0 * (q * b);
  }

  /** Logs and inner instructions that are missing are empty. */
  lemma MissingIsEmpty(logs: Option<seq<string>>, inner: Json)
    ensures Lines(logs) == [] <==> logs in {None, Some([])}
    ensures forall lines :: lines != [] ==> (Lines(logs) == lines <==> logs == Some(lines))
    ensures OrNoItems(inner) == if inner in {Null, Bool(false), Num(0), Str("")} then Arr([]) else inner
  {
  }

  /** Lines 99-116; the error of either side may be a value the canonical form cannot take apart. */
  function Measure(expected: Expected, original: Original, replay: Replay): Result<Signals, string> {
    var left, right := CanonicalError(expected.error), CanonicalError(replay.error);
    if left.Err? then Err(left.error)
    else if right.Err? then Err(right.error)
    else
      var balances := PostBalanceChecks(original, replay.postAccounts);
      var tokens := PostTokenChecks(original, replay.postAccounts);
      Ok(Signals(
        expected.success == replay.success,
        left.value == right.value,
        Lcs.Similarity(Lines(expected.logs), Lines(replay.logs)),
        expected.computeUnits == replay.computeUnits,
        DifferencePercent(expected.computeUnits, replay.computeUnits),
        forall i :: 0 <= i < |balances| ==> balances[i].exact,
        forall i :: 0 <= i < |tokens| ==> tokens[i].exact,
        Stable(OrNoItems(expected.innerInstructions)) == Stable(OrNoItems(replay.innerInstructions)),
        Stable(CanonicalReturnData(expected.returnData)) == Stable(CanonicalReturnData(replay.returnData))))
  }

  function StatusOf(s: Signals, ineligible: bool): Fidelity {
    if !s.result || !s.error then FAILED
    else if ineligible then UNSUPPORTED
    else if s.LogsExact() && s.compute && s.balances && s.tokens && s.inner && s.returnData then EXACT
    else if s.similarity >= 0.95 && s.ComputeClose() && s.balances && s.tokens && s.inner then HIGH_FIDELITY
    else PARTIAL
  }

  /** The status assignments of the source, in their order. */
  method Classify(s: Signals, eligibility: string) returns (status: Fidelity)
    ensures status == StatusOf(s, eligibility == "UNSUPPORTED")
  {
    if !s.result || !s.error {
      status := FAILED;
    } else if s.LogsExact() && s.compute && s.balances && s.tokens && s.inner && s.returnData {
      status := EXACT;
    } else if s.similarity >= 0.95 && s.ComputeClose() && s.balances && s.tokens && s.inner {
      status := HIGH_FIDELITY;
    } else {
      status := PARTIAL;
    }
    if eligibility == "UNSUPPORTED" && status != FAILED {
      status := UNSUPPORTED;
    }
  }

  /** The whole comparison: a refused replay is not measured at all. */
  function Verdict(
    expected: Expected, original: Original, replay: Replay, eligibility: string): Result<Fidelity, string> {
    if replay.status == Some("UNSUPPORTED") then Ok(UNSUPPORTED)
    else
      var signals := Measure(expected, original, replay);
      if signals.Err? then Err(signals.error) else Ok(StatusOf(signals.value, eligibility == "UNSUPPORTED"))
  }

  method CompareReplay(expected: Expected, original: Original, replay: Replay, eligibility: string)
    returns (verdict: Result<Fidelity, string>)
    requires |Lines(replay.logs)| < 0xFFFF_FFFF
    ensures verdict == Verdict(expected, original, replay, eligibility)
  {
    if replay.status == Some("UNSUPPORTED") { return Ok(UNSUPPORTED); }
    var left, right := CanonicalError(expected.error), CanonicalError(replay.error);
    if left.Err? { return Err(left.error); }
    if right.Err? { return Err(right.error); }
    var similarity := Lcs.LogSimilarity(Lines(expected.logs), Lines(replay.logs));
    var balances := PostBalanceChecks(original, replay.postAccounts);
    var tokens := PostTokenChecks(original, replay.postAccounts);
    var signals := Signals(
      expected.success == replay.success,
      left.value == right.value,
      similarity,
      expected.computeUnits == replay.computeUnits,
      DifferencePercent(expected.computeUnits, replay.computeUnits),
      forall i :: 0 <= i < |balances| ==> balances[i].exact,
      forall i :: 0 <= i < |tokens| ==> tokens[i].exact,
      Stable(OrNoItems(expected.innerInstructions)) == Stable(OrNoItems(replay.innerInstructions)),
      Stable(CanonicalReturnData(expected.returnData)) == Stable(CanonicalReturnData(replay.returnData)));
    var status := Classify(signals, eligibility);
    verdict := Ok(status);
  }

  // ---------------------------------------------------------------------------------------
  // What the statuses mean

  /** The lamports of an account after replay; an account that is gone holds none. */
  ghost predicate BalanceHolds(original: Original, replay: Replay, role: Role) {
    role.index < |original.postBalances| &&
    var last := LastAccount(replay.postAccounts, role.pubkey);
    original.postBalances[role.index] == if last.Some? then last.value.lamports else 0
  }

  ghost predicate TokenHolds(original: Original, replay: Replay, balance: TokenBalance) {
    var pubkey := LastRole(original.accountRoles, balance.accountIndex);
    pubkey.Some? &&
    var last := LastAccount(replay.postAccounts, pubkey.value);
    last.Some? && |last.value.data| >= 72 && balance.amount == Decimal(ReadU64LE(last.value.data, 64))
  }

  ghost predicate StateHolds(original: Original, replay: Replay) {
    (forall r :: r in original.accountRoles && r.writable ==> BalanceHolds(original, replay, r)) &&
    (forall b :: b in original.postTokenBalances ==> TokenHolds(original, replay, b))
  }

  ghost predicate WellFormedSides(expected: Expected, replay: Replay) {
    WellFormed(expected.innerInstructions) && WellFormed(replay.innerInstructions) &&
    WellFormed(expected.returnData) && WellFormed(replay.returnData)
  }

  lemma StateChecks(original: Original, replay: Replay)
    ensures (forall i :: 0 <= i < |PostBalanceChecks(original, replay.postAccounts)| ==>
               PostBalanceChecks(original, replay.postAccounts)[i].exact) <==>
            forall r :: r in original.accountRoles && r.writable ==> BalanceHolds(original, replay, r)
    ensures (forall i :: 0 <= i < |PostTokenChecks(original, replay.postAccounts)| ==>
               PostTokenChecks(original, replay.postAccounts)[i].exact) <==>
            forall b :: b in original.postTokenBalances ==> TokenHolds(original, replay, b)
  {
    var ws := WritableRoles(original.accountRoles);
    var checks := PostBalanceChecks(original, replay.postAccounts);
    assert forall i :: 0 <= i < |ws| ==> (checks[i].exact <==> BalanceHolds(original, replay, ws[i]));
    if forall i :: 0 <= i < |checks| ==> checks[i].exact {
      forall r | r in original.accountRoles && r.writable ensures BalanceHolds(original, replay, r) {
        var i :| 0 <= i < |ws| && ws[i] == r;
        assert checks[i].exact;
      }
    }
    var bs := original.postTokenBalances;
    var tokens := PostTokenChecks(original, replay.postAccounts);
    assert forall i :: 0 <= i < |bs| ==> (tokens[i].exact <==> TokenHolds(original, replay, bs[i]));
  }

  /**
   EXACT is earned by a bundle and a replay neither of which is UNSUPPORTED, and by nothing short of
   agreement in all eight dimensions. Errors are compared in canonical form, whose meaning is given
   above for custom, named and rent errors; every other dimension is stated on the data itself.
   */
  lemma ExactMeans(expected: Expected, original: Original, replay: Replay, eligibility: string)
    requires WellFormedSides(expected, replay)
    ensures Verdict(expected, original, replay, eligibility) == Ok(EXACT) <==>
      && eligibility != "UNSUPPORTED" && replay.status != Some("UNSUPPORTED")
      && expected.success == replay.success
      && CanonicalError(expected.error).Ok? && CanonicalError(expected.error) == CanonicalError(replay.error)
      && Lines(expected.logs) == Lines(replay.logs)
      && expected.computeUnits == replay.computeUnits
      && StateHolds(original, replay)
      && Denote(OrNoItems(expected.innerInstructions)) == Denote(OrNoItems(replay.innerInstructions))
      && SameReturnData(expected.returnData, replay.returnData)
  {
    hide CanonicalError, Stable, Denote, CanonicalReturnData, SameReturnData;
    ReturnDataMeans(expected.returnData, replay.returnData);
    StateChecks(original, replay);
    Lcs.SimilarityIsScore(Lines(expected.logs), Lines(replay.logs));
    StableDecidesMeaning(OrNoItems(expected.innerInstructions), OrNoItems(replay.innerInstructions));
    CanonicalReturnDataWellFormed(expected.returnData);
    CanonicalReturnDataWellFormed(replay.returnData);
    StableDecidesMeaning(CanonicalReturnData(expected.returnData), CanonicalReturnData(replay.returnData));
  }

  /** The compute-unit clause of HIGH_FIDELITY: within 1% of the original, where both are counted and it is not zero. */
  predicate ComputeWithin(original: Field<nat>, replay: Field<nat>) {
    original.Is? && replay.Is? && original.value != 0 ==>
      100 * replay.value <= 101 * original.value && 99 * original.value <= 100 * replay.value
  }

  /** Result and error agree, and both errors can be taken apart. */
  ghost predicate SameResult(expected: Expected, replay: Replay) {
    && expected.success == replay.success
    && CanonicalError(expected.error).Ok? && CanonicalError(expected.error) == CanonicalError(replay.error)
  }

  /** HIGH_FIDELITY is what falls short of EXACT and keeps to all its bounds: log, compute units and state. */
  lemma HighFidelityMeans(expected: Expected, original: Original, replay: Replay, eligibility: string)
    requires WellFormedSides(expected, replay)
    ensures Verdict(expected, original, replay, eligibility) == Ok(HIGH_FIDELITY) <==>
      && Verdict(expected, original, replay, eligibility) != Ok(EXACT)
      && eligibility != "UNSUPPORTED" && replay.status != Some("UNSUPPORTED")
      && SameResult(expected, replay)
      && (exists script ::
            Lcs.Apply(script, Lines(expected.logs)) == Some(Lines(replay.logs)) &&
            20 * Lcs.Cost(script) <= |Lines(expected.logs)| + |Lines(replay.logs)|)
      && ComputeWithin(expected.computeUnits, replay.computeUnits)
      && StateHolds(original, replay)
      && Denote(OrNoItems(expected.innerInstructions)) == Denote(OrNoItems(replay.innerInstructions))
  {
    hide CanonicalError, Stable, Denote, CanonicalReturnData, DifferencePercent, Lcs.Similarity, StateHolds;
    StateChecks(original, replay);
    StateHoldsMeans(original, replay);
    Lcs.SimilarityIsScore(Lines(expected.logs), Lines(replay.logs));
    Lcs.ThresholdIsEditBound(Lines(expected.logs), Lines(replay.logs));
    ComputeCloseMeans(expected.computeUnits, replay.computeUnits);
    StableDecidesMeaning(OrNoItems(expected.innerInstructions), OrNoItems(replay.innerInstructions));
  }

  lemma StateHoldsMeans(original: Original, replay: Replay)
    ensures StateHolds(original, replay) <==>
      (forall r :: r in original.accountRoles && r.writable ==> BalanceHolds(original, replay, r)) &&
      (forall b :: b in original.postTokenBalances ==> TokenHolds(original, replay, b))
  {
  }

  /** FAILED, UNSUPPORTED and the thrown error; what is left over is PARTIAL. */
  lemma OtherVerdictsMean(expected: Expected, original: Original, replay: Replay, eligibility: string)
    ensures Verdict(expected, original, replay, eligibility) == Ok(FAILED) <==>
      && replay.status != Some("UNSUPPORTED")
      && CanonicalError(expected.error).Ok? && CanonicalError(replay.error).Ok? && !SameResult(expected, replay)
    ensures Verdict(expected, original, replay, eligibility) == Ok(UNSUPPORTED) <==>
      replay.status == Some("UNSUPPORTED") || (eligibility == "UNSUPPORTED" && SameResult(expected, replay))
    ensures Verdict(expected, original, replay, eligibility).Err? <==>
      && replay.status != Some("UNSUPPORTED")
      && (CanonicalError(expected.error).Err? || CanonicalError(replay.error).Err?)
  {
    hide CanonicalError, Stable, CanonicalReturnData, DifferencePercent, Lcs.Similarity, PostBalanceChecks;
    hide PostTokenChecks;
  }

  /** Either passing status entails agreement of result, error, compared state and inner instructions. */
  lemma PassingMeans(expected: Expected, original: Original, replay: Replay, eligibility: string)
    requires WellFormedSides(expected, replay)
    requires Verdict(expected, original, replay, eligibility) in {Ok(EXACT), Ok(HIGH_FIDELITY)}
    ensures eligibility != "UNSUPPORTED" && replay.status != Some("UNSUPPORTED")
    ensures expected.success == replay.success
    ensures CanonicalError(expected.error).Ok? && CanonicalError(expected.error) == CanonicalError(replay.error)
    ensures StateHolds(original, replay)
    ensures Denote(OrNoItems(expected.innerInstructions)) == Denote(OrNoItems(replay.innerInstructions))
    ensures ComputeWithin(expected.computeUnits, replay.computeUnits)
    ensures Lcs.Similarity(Lines(expected.logs), Lines(replay.logs)) >= 0.95
    ensures (exists script ::
      Lcs.Apply(script, Lines(expected.logs)) == Some(Lines(replay.logs)) &&
      20 * Lcs.Cost(script) <= |Lines(expected.logs)| + |Lines(replay.logs)|)
  {
    hide CanonicalError, Stable, Denote, CanonicalReturnData, DifferencePercent;
    ComputeCloseMeans(expected.computeUnits, replay.computeUnits);
    SameComputeIsClose(expected.computeUnits);
    StateChecks(original, replay);
    Lcs.SimilarityIsScore(Lines(expected.logs), Lines(replay.logs));
    Lcs.ThresholdIsEditBound(Lines(expected.logs), Lines(replay.logs));
    StableDecidesMeaning(OrNoItems(expected.innerInstructions), OrNoItems(replay.innerInstructions));
  }

  lemma MeasuredConsistent(expected: Expected, original: Original, replay: Replay)
    requires Measure(expected, original, replay).Ok?
    ensures Consistent(Measure(expected, original, replay).value)
  {
    hide CanonicalError, Stable, CanonicalReturnData, PostBalanceChecks, PostTokenChecks, Lcs.Similarity;
    Lcs.SimilarityIsScore(Lines(expected.logs), Lines(replay.logs));
  }

  predicate Consistent(s: Signals) {
    0.0 <= s.similarity <= 1.0 && (s.compute ==> s.ComputeClose())
  }

  /** `t` is at least as good as `s` in every dimension, with result and error as they were. */
  predicate AtLeastAsGood(s: Signals, t: Signals) {
    && s.result == t.result && s.error == t.error
    && s.similarity <= t.similarity
    && (s.compute ==> t.compute) && (s.ComputeClose() ==> t.ComputeClose())
    && (s.balances ==> t.balances) && (s.tokens ==> t.tokens)
    && (s.inner ==> t.inner) && (s.returnData ==> t.returnData)
  }

  function Rank(f: Fidelity): nat {
    match f case FAILED => 0 case UNSUPPORTED => 1 case PARTIAL => 2 case HIGH_FIDELITY => 3 case EXACT => 4
  }

  /** Improving any measurement never lowers the status. */
  lemma StatusMonotone(s: Signals, t: Signals, ineligible: bool)
    requires Consistent(s) && Consistent(t) && AtLeastAsGood(s, t)
    ensures Rank(StatusOf(s, ineligible)) <= Rank(StatusOf(t, ineligible))
  {
  }

  /** The compute-unit clause of HIGH_FIDELITY bounds the difference by 1% only where a percentage exists. */
  lemma ComputeCloseMeans(original: Field<nat>, replay: Field<nat>)
    ensures (DifferencePercent(original, replay).None? || DifferencePercent(original, replay).value <= 1.0) <==>
            ComputeWithin(original, replay)
  {
    if original.Is? && replay.Is? && original.value != 0 {
      var d := replay.value - original.value;
      var a := if d < 0 then -d else d;
      Lcs.DivideAtLeast(a as real, original.value as real, 0.01);
    }
  }

  lemma SameComputeIsClose(count: Field<nat>)
    ensures ComputeWithin(count, count)
  {
  }

  /** With an original count of zero, a replay may consume any amount and still be HIGH_FIDELITY. */
  lemma ZeroOriginalIsUnbounded(consumed: nat)
    requires consumed > 0
    ensures Verdict(
        Expected(Is(true), Null, None, Is(0), Null, Null),
        Original([], [], []),
        Replay(None, Is(true), Null, None, Is(consumed), [], Null, Null),
        "SUPPORTED") == Ok(HIGH_FIDELITY)
  {
  }

  /** Exact agreement would also satisfy every HIGH_FIDELITY condition. */
  lemma ExactMeetsHighFidelity(expected: Expected, original: Original, replay: Replay)
    requires Measure(expected, original, replay).Ok? &&
      StatusOf(Measure(expected, original, replay).value, false) == EXACT
    ensures var s := Measure(expected, original, replay).value;
      s.similarity >= 0.95 && s.ComputeClose() && s.balances && s.tokens && s.inner
  {
    hide Measure;
    MeasuredConsistent(expected, original, replay);
  }

  /** Accounts nobody compares cannot change the verdict. */
  lemma VerdictDependsOnCompared(
    expected: Expected, original: Original, replay: Replay, accounts: seq<PostAccount>, eligibility: string)
    requires SameOnCompared(original, replay.postAccounts, accounts)
    ensures Verdict(expected, original, replay, eligibility) ==
            Verdict(expected, original, replay.(postAccounts := accounts), eligibility)
  {
    hide CanonicalError, Stable, CanonicalReturnData, PostBalanceChecks, PostTokenChecks, Lcs.Similarity, StatusOf;
    ChecksDependOnCompared(original, replay.postAccounts, accounts);
  }

  /**
   An error object without a canonical form of its own makes every comparison with a runner's text
   FAILED, however exact the replay is otherwise.
   */
  lemma OtherErrorsFail(expected: Expected, original: Original, replay: Replay, eligibility: string)
    requires OtherError(expected.error) && replay.error.Str? && !Braced(Strip(replay.error.s))
    requires replay.status != Some("UNSUPPORTED")
    ensures Verdict(expected, original, replay, eligibility) == Ok(FAILED)
  {
    hide Strip, Stable, OtherError, PostBalanceChecks, PostTokenChecks, Lcs.Similarity, DifferencePercent;
    hide CanonicalReturnData;
    OtherErrorsMeetOnlyJson(expected.error, replay.error.s);
    OtherErrorIsText(expected.error);
  }

  lemma OtherErrorIsText(error: Json)
    requires OtherError(error)
    ensures CanonicalError(error).Ok?
  {
  }

  /** One such pair: the same failure as the node and as the runner write it. */
  lemma DuplicateInstructionFails(expected: Expected, original: Original, replay: Replay, eligibility: string)
    requires expected.error == Obj([("DuplicateInstruction", Num(3))]) && replay.error == Str("DuplicateInstruction(3)")
    requires replay.status != Some("UNSUPPORTED")
    ensures Verdict(expected, original, replay, eligibility) == Ok(FAILED)
  {
    hide Verdict, Property, Strip, IsSpace;
    var error := expected.error;
    assert Keys(error.members) == ["DuplicateInstruction"] && "DuplicateInstruction"[0] == 'D';
    assert "InstructionError"[0] == 'I' && "InsufficientFundsForRent"[0] == 'I';
    OtherKeys(error, "InstructionError");
    OtherKeys(error, "InsufficientFundsForRent");
    assert replay.error.s[0] == 'D';
    StripStarts(replay.error.s);
    OtherErrorsFail(expected, original, replay, eligibility);
  }

  lemma StripStarts(text: string)
    requires text != "" && '!' <= text[0] <= '~'
    ensures Strip(text) != "" && Strip(text)[0] == text[0]
  {
  }

  lemma OtherKeys(v: Json, key: string)
    requires v.Obj? && key !in Keys(v.members)
    ensures Property(v, key) == None
  {
  }
}
