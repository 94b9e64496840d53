/** The log lines on their way into a bundle: written by src/inspect.js:192, read by src/bundle.js:95-96. */
module Logs {
  import opened JsText
  import opened Splitting

  /** `filter(Boolean)` */
  function NonEmpty(lines: seq<string>): (r: seq<string>)
    ensures forall line :: line in r ==> line in lines && line != ""
  {
    if lines == [] then []
    else
      var rest := NonEmpty(lines[..|lines| - 1]);
      if lines[|lines| - 1] == "" then rest else rest + [lines[|lines| - 1]]
  }

  lemma {:induction false} NonEmptyKeeps(lines: seq<string>)
    requires forall line :: line in lines ==> line != ""
    ensures NonEmpty(lines) == lines
  {
    if lines != [] {
      var init := lines[..|lines| - 1];
      assert forall i :: 0 <= i < |init| ==> init[i] == lines[i] && lines[i] in lines;
      NonEmptyKeeps(init);
      assert lines[|lines| - 1] in lines && lines == lines[..|lines| - 1] + [lines[|lines| - 1]];
    }
  }

  /** logs.txt */
  function Written(logs: seq<string>): string { Join(logs, '\n') + "\n" }

  function ReadBack(text: string): seq<string> { NonEmpty(Split(TrimEnd(text), '\n')) }

  /** Lines the text file can carry. */
  predicate Plain(logs: seq<string>) {
    && (forall line :: line in logs ==> line != "" && '\n' !in line)
    && (logs != [] ==> var last := logs[|logs| - 1]; last != "" && !IsSpace(last[|last| - 1]))
  }

  lemma JoinEnds(lines: seq<string>)
    requires lines != [] && lines[|lines| - 1] != ""
    ensures var text, last := Join(lines, '\n'), lines[|lines| - 1]; text != "" && text[|text| - 1] == last[|last| - 1]
  {
  }

  /** The last piece of a text that does not end in a line break ends as the text does. */
  lemma SplitEnds(text: string)
    requires text != "" && text[|text| - 1] != '\n'
    ensures var parts := Split(text, '\n'); var last := parts[|parts| - 1];
      last != "" && last[|last| - 1] == text[|text| - 1]
  {
  }

  /**
   A bundle's expected logs are the transaction's logs exactly when no line is empty or holds a
   line break and the last line does not end in white space.
   */
  lemma LogsSurviveExactly(logs: seq<string>)
    ensures ReadBack(Written(logs)) == logs <==> Plain(logs)
  {
    var text := Written(logs);
    var trimmed := TrimEnd(text);
    assert NonEmpty([""]) == NonEmpty([]) == [] by { assert [""][..0] == []; }
    if Plain(logs) {
      assert text[..|text| - 1] == Join(logs, '\n');
      if logs == [] {
        assert trimmed == "";
      } else {
        JoinEnds(logs);
        assert TrimEnd(Join(logs, '\n')) == Join(logs, '\n');
        assert text[|text| - 1] == '\n' && IsSpace('\n');
        assert trimmed == Join(logs, '\n');
        SplitJoin(logs, '\n');
        NonEmptyKeeps(logs);
      }
    }
    if ReadBack(text) == logs && logs != [] {
      assert trimmed != "";
      SplitEnds(trimmed);
      var parts := Split(trimmed, '\n');
      assert logs[|logs| - 1] == parts[|parts| - 1];
    }
  }

  /** One line that holds a line break comes back as two. */
  lemma BrokenLineIsSplit()
    ensures ReadBack(Written(["a\nb"])) == ["a", "b"]
  {
    assert ["a", "b"][..1] == ["a"];
    assert Join(["a", "b"], '\n') == "a\nb";
    assert Plain(["a", "b"]);
    LogsSurviveExactly(["a", "b"]);
  }

  lemma {:induction false} NonEmptyAppend(a: seq<string>, b: seq<string>)
    ensures NonEmpty(a + b) == NonEmpty(a) + NonEmpty(b)
    decreases |b|
  {
    if b == [] {
      assert a + b == a;
    } else {
      var init := b[..|b| - 1];
      assert (a + b)[..|a + b| - 1] == a + init;
      NonEmptyAppend(a, init);
    }
  }

  lemma {:induction false} SplitConcat(left: string, right: string)
    ensures Split(left + ['\n'] + right, '\n') == Split(left, '\n') + Split(right, '\n')
    decreases |right|
  {
    hide Split;
    var text := left + ['\n'] + right;
    SplitLast(text, '\n');
    if right == "" {
      assert text[..|text| - 1] == left;
      assert Split("", '\n') == [""] by { SplitSingle("", '\n'); }
    } else {
      var init, last := right[..|right| - 1], right[|right| - 1];
      assert text[..|text| - 1] == left + ['\n'] + init;
      SplitConcat(left, init);
      SplitLast(right, '\n');
      var a, b := Split(left, '\n'), Split(init, '\n');
      assert (a + b)[..|a + b| - 1] == a + b[..|b| - 1] && (a + b)[|a + b| - 1] == b[|b| - 1];
    }
  }

  /** The lines a text holds: its pieces between line breaks, blank ones left out. */
  function Pieces(text: string): seq<string> { NonEmpty(Split(text, '\n')) }

  function AllPieces(lines: seq<string>): seq<string> {
    if lines == [] then [] else AllPieces(lines[..|lines| - 1]) + Pieces(lines[|lines| - 1])
  }

  lemma NoPieces()
    ensures Pieces("") == []
  {
    assert [""][..0] == [];
  }

  lemma {:induction false} PiecesOfJoin(lines: seq<string>)
    ensures Pieces(Join(lines, '\n')) == AllPieces(lines)
  {
    hide Split, NonEmpty;
    if lines == [] {
      NoPieces();
    } else {
      var init, last := lines[..|lines| - 1], lines[|lines| - 1];
      PiecesOfJoin(init);
      if init != [] {
        SplitConcat(Join(init, '\n'), last);
        NonEmptyAppend(Split(Join(init, '\n'), '\n'), Split(last, '\n'));
      }
    }
  }

  /**
   What comes back of any log: the pieces of its lines between line breaks, in their order, without
   blank ones, the last line losing the white space at its end.
   */
  lemma LogsComeBackAs(lines: seq<string>, last: string)
    ensures ReadBack(Written([])) == []
    ensures TrimEnd(last) != "" ==> ReadBack(Written(lines + [last])) == AllPieces(lines) + Pieces(TrimEnd(last))
  {
    hide Split, NonEmpty, TrimEnd;
    NoPieces();
    assert Written([]) == "" + "\n";
    TrimEndMeans("", "\n");
    if TrimEnd(last) != "" {
      var kept := lines + [TrimEnd(last)];
      var tail := last[|TrimEnd(last)|..];
      TrimmedTail(last);
      assert Written(lines + [last]) == Join(kept, '\n') + (tail + "\n") by {
        assert (lines + [last])[..|lines|] == lines && kept[..|lines|] == lines;
        assert last == TrimEnd(last) + tail;
      }
      JoinEnds(kept);
      TrimEndMeans(Join(kept, '\n'), tail + "\n");
      PiecesOfJoin(kept);
      assert kept[..|lines|] == lines;
    }
  }

  lemma {:induction false} TrimmedTail(text: string)
    ensures forall c :: c in text[|TrimEnd(text)|..] ==> IsSpace(c)
  {
    hide IsSpace;
    if text != "" && IsSpace(text[|text| - 1]) { TrimmedTail(text[..|text| - 1]); }
  }
}
