/** String.prototype.split and Array.prototype.join for a one-character separator. */
module Splitting {

  function Join(parts: seq<string>, separator: char): string {
    if parts == [] then ""
    else if |parts| == 1 then parts[0]
    else Join(parts[..|parts| - 1], separator) + [separator] + parts[|parts| - 1]
  }

  function Split(text: string, separator: char): (parts: seq<string>)
    ensures parts != []
    ensures forall p :: p in parts ==> separator !in p
  {
    if text == "" then [""]
    else
      var parts, last := Split(text[..|text| - 1], separator), text[|text| - 1];
      if last == separator then parts + [""]
      else parts[..|parts| - 1] + [parts[|parts| - 1] + [last]]
  }

  lemma {:induction false} SplitAppend(left: string, right: string, separator: char)
    requires separator !in right
    ensures Split(left + [separator] + right, separator) == Split(left, separator) + [right]
    decreases |right|
  {
    var text := left + [separator] + right;
    if right == "" {
      assert text[..|text| - 1] == left;
    } else {
      var init := right[..|right| - 1];
      assert text[..|text| - 1] == left + [separator] + init;
      SplitAppend(left, init, separator);
      assert init + [right[|right| - 1]] == right;
    }
  }

  lemma {:induction false} SplitSingle(text: string, separator: char)
    requires separator !in text
    ensures Split(text, separator) == [text]
  {
    if text != "" {
      SplitSingle(text[..|text| - 1], separator);
      assert text[..|text| - 1] + [text[|text| - 1]] == text;
    }
  }

  /** Parts free of the separator survive joining and splitting. */
  lemma {:induction false} SplitJoin(parts: seq<string>, separator: char)
    requires parts != [] && forall p :: p in parts ==> separator !in p
    ensures Split(Join(parts, separator), separator) == parts
  {
    var init, last := parts[..|parts| - 1], parts[|parts| - 1];
    assert parts == init + [last];
    if |parts| == 1 {
      SplitSingle(last, separator);
    } else {
      SplitJoin(init, separator);
      SplitAppend(Join(init, separator), last, separator);
    }
  }

  lemma JoinAppend(parts: seq<string>, last: string, separator: char)
    requires parts != []
    ensures Join(parts + [last], separator) == Join(parts, separator) + [separator] + last
  {
    assert (parts + [last])[..|parts|] == parts;
  }

  lemma {:induction false} JoinFirst(first: string, parts: seq<string>, separator: char)
    requires parts != []
    ensures Join([first] + parts, separator) == first + [separator] + Join(parts, separator)
    decreases |parts|
  {
    var init, last := parts[..|parts| - 1], parts[|parts| - 1];
    assert ([first] + parts)[..|parts|] == [first] + init;
    if init == [] {
      assert parts == [last];
    } else {
      JoinFirst(first, init, separator);
    }
  }

  lemma {:induction false} JoinStarts(parts: seq<string>, separator: char)
    requires parts != [] && parts[0] != ""
    ensures Join(parts, separator) != "" && Join(parts, separator)[0] == parts[0][0]
  {
    if |parts| > 1 { JoinStarts(parts[..|parts| - 1], separator); }
  }

  lemma SplitLast(text: string, separator: char)
    requires text != ""
    ensures var parts, last := Split(text[..|text| - 1], separator), text[|text| - 1];
      Split(text, separator) ==
        if last == separator then parts + [""] else parts[..|parts| - 1] + [parts[|parts| - 1] + [last]]
  {
  }

  lemma JoinLonger(parts: seq<string>, last: char, separator: char)
    requires parts != []
    ensures Join(parts[..|parts| - 1] + [parts[|parts| - 1] + [last]], separator) == Join(parts, separator) + [last]
  {
    var init, tail := parts[..|parts| - 1], parts[|parts| - 1];
    assert parts == init + [tail];
    if init != [] {
      JoinAppend(init, tail, separator);
      JoinAppend(init, tail + [last], separator);
    }
  }

  /** Splitting loses nothing. */
  lemma {:induction false} JoinSplit(text: string, separator: char)
    ensures Join(Split(text, separator), separator) == text
  {
    hide Split, Join;
    if text == "" {
      JoinNothing(separator);
    } else {
      var init, last := text[..|text| - 1], text[|text| - 1];
      JoinSplit(init, separator);
      SplitLast(text, separator);
      JoinAppend(Split(init, separator), "", separator);
      JoinLonger(Split(init, separator), last, separator);
      assert text == init + [last];
    }
  }

  lemma JoinNothing(separator: char)
    ensures Join(Split("", separator), separator) == ""
  {
  }
}
