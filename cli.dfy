/** The interactive loop: each line read is either a request to leave
    ("salir", "exit" or "quit", in any case and with surrounding whitespace),
    a blank line that is ignored, or a question handed to `ask`. */
module Cli {
  import opened Text

  datatype Command = Exit | Skip | Ask

  const ExitWords: set<string> := {"salir", "exit", "quit"}

  /** What the loop does with one line; the exit test comes first. */
  function Classify(line: string): Command {
    if Strip(Lower(line)) in ExitWords then Exit
    else if Strip(line) == "" then Skip
    else Ask
  }

  /** `line` is the word `w`, in any case, padded only by whitespace starting at `i`. */
  ghost predicate ExitAt(line: string, i: int, w: string) {
    w in ExitWords && 0 <= i && i + |w| <= |line|
    && Lower(line[i..i + |w|]) == w
    && AllIn(line[..i], Whitespace) && AllIn(line[i + |w|..], Whitespace)
  }

  lemma ExitWordsTrimmed(w: string)
    requires w in ExitWords
    ensures Trimmed(w) && w != []
  {
  }

  /** An exit word with any case and any whitespace around it ends the session. */
  lemma ClassifyExit(pre: string, word: string, post: string)
    requires AllIn(pre, Whitespace) && AllIn(post, Whitespace)
    requires Lower(word) in ExitWords
    ensures Classify(pre + word + post) == Exit
  {
    ExitWordsTrimmed(Lower(word));
    LowerTrimmed(word);
    StripPadded(pre, word, post);
    LowerStrip(pre + word + post);
  }

  /** The exit word of a line that ends the session, and where it starts. */
  lemma ExitWitness(line: string) returns (i: int, w: string)
    requires Classify(line) == Exit
    ensures ExitAt(line, i, w)
  {
    i, w := FoldedWordAt(line);
  }

  lemma FoldedWordAt(line: string) returns (i: int, w: string)
    requires Strip(Lower(line)) in ExitWords
    ensures ExitAt(line, i, w)
  {
    i := StripLowerAt(line);
    w := Strip(Lower(line));
    assert |w| == |Strip(line)|;
    assert w in ExitWords;
    assert 0 <= i && i + |w| <= |line|;
    assert Lower(line[i..i + |w|]) == w;
    assert AllIn(line[..i], Whitespace);
    assert AllIn(line[i + |w|..], Whitespace);
  }

  /** A line ends the session exactly when it is an exit word padded by whitespace. */
  lemma ClassifyExitIff(line: string)
    ensures Classify(line) == Exit <==> exists i, w :: ExitAt(line, i, w)
  {
    if Classify(line) == Exit {
      var i, w := ExitWitness(line);
    }
    if exists i, w :: ExitAt(line, i, w) {
      var i, w :| ExitAt(line, i, w);
      ExitAtClassifies(line, i, w);
    }
  }

  lemma ExitAtClassifies(line: string, i: int, w: string)
    requires ExitAt(line, i, w)
    ensures Classify(line) == Exit
  {
    var j := i + |w|;
    assert line == line[..i] + line[i..j] + line[j..];
    ClassifyExit(line[..i], line[i..j], line[j..]);
  }

  /** A line is skipped exactly when it is whitespace only (the empty line included). */
  lemma ClassifySkipIff(line: string)
    ensures Classify(line) == Skip <==> AllIn(line, Whitespace)
  {
    StripEmptyIff(line);
    LowerStrip(line);
    if AllIn(line, Whitespace) {
      assert Lower(Strip(line)) == [];
    }
  }

  /** Every other line is a question. */
  lemma ClassifyAskIff(line: string)
    ensures Classify(line) == Ask <==> !AllIn(line, Whitespace) && !(exists i, w :: ExitAt(line, i, w))
  {
    ClassifyExitIff(line);
    ClassifySkipIff(line);
  }

  /** The questions the loop hands to `ask` for the lines read, in order, when
      `classify` tells what each line is: it stops at the first exit line and
      ignores blank lines. The assistant's loop uses `Classify`. */
  function Questions(lines: seq<string>, classify: string -> Command): seq<string> {
    if lines == [] then []
    else match classify(lines[0])
      case Exit => []
      case Skip => Questions(lines[1..], classify)
      case Ask => [lines[0]] + Questions(lines[1..], classify)
  }

  /** The question lines among `lines`, without stopping anywhere. */
  function AskLines(lines: seq<string>, classify: string -> Command): (questions: seq<string>)
    ensures |questions| <= |lines|
    ensures forall q :: q in questions ==> q in lines && classify(q) == Ask
    ensures forall i :: 0 <= i < |lines| && classify(lines[i]) == Ask ==> lines[i] in questions
  {
    if lines == [] then []
    else
      var rest := AskLines(lines[1..], classify);
      assert forall i :: 1 <= i < |lines| ==> lines[i] == lines[1..][i - 1];
      if classify(lines[0]) == Ask then [lines[0]] + rest
      else rest
  }

  /** The question lines of two stretches of input, one after the other. */
  lemma {:induction false} AskLinesAppend(a: seq<string>, b: seq<string>, classify: string -> Command)
    ensures AskLines(a + b, classify) == AskLines(a, classify) + AskLines(b, classify)
  {
    if a == [] {
      assert a + b == b;
    } else {
      assert (a + b)[0] == a[0];
      assert (a + b)[1..] == a[1..] + b;
      AskLinesAppend(a[1..], b, classify);
    }
  }

  /** The position of the first exit line, or the number of lines if there is none. */
  function FirstExit(lines: seq<string>, classify: string -> Command): (k: nat)
    ensures k <= |lines|
    ensures k < |lines| ==> classify(lines[k]) == Exit
    ensures forall j :: 0 <= j < k ==> classify(lines[j]) != Exit
  {
    if lines == [] then 0
    else if classify(lines[0]) == Exit then 0
    else
      var k := FirstExit(lines[1..], classify);
      assert forall j :: 1 <= j < |lines| ==> lines[j] == lines[1..][j - 1];
      1 + k
  }

  /** The questions asked are the question lines before the first exit line. */
  lemma {:induction false} QuestionsBeforeExit(lines: seq<string>, classify: string -> Command)
    ensures Questions(lines, classify) == AskLines(lines[..FirstExit(lines, classify)], classify)
  {
    if lines != [] && classify(lines[0]) != Exit {
      var k := FirstExit(lines, classify);
      QuestionsBeforeExit(lines[1..], classify);
      assert lines[..k][0] == lines[0];
      assert lines[..k][1..] == lines[1..][..k - 1];
    }
  }

  /** Whatever follows an exit line is never asked. */
  lemma {:induction false} QuestionsIgnoreAfterExit(before: seq<string>, after: seq<string>, classify: string -> Command)
    requires exists k :: 0 <= k < |before| && classify(before[k]) == Exit
    ensures Questions(before + after, classify) == Questions(before, classify)
  {
    if classify(before[0]) != Exit {
      var k :| 0 <= k < |before| && classify(before[k]) == Exit;
      assert k > 0 && before[1..][k - 1] == before[k];
      assert (before + after)[1..] == before[1..] + after;
      QuestionsIgnoreAfterExit(before[1..], after, classify);
    }
  }

  /** Without an exit line, later lines only add their own questions. */
  lemma {:induction false} QuestionsAppend(before: seq<string>, after: seq<string>, classify: string -> Command)
    requires forall k :: 0 <= k < |before| ==> classify(before[k]) != Exit
    ensures Questions(before + after, classify) == Questions(before, classify) + Questions(after, classify)
  {
    if before == [] {
      assert before + after == after;
    } else {
      assert (before + after)[1..] == before[1..] + after;
      assert (before + after)[0] == before[0];
      QuestionsAppend(before[1..], after, classify);
    }
  }

  /** One step of the loop: what the line at position `i` contributes. */
  lemma QuestionsStep(lines: seq<string>, i: int, classify: string -> Command)
    requires 0 <= i < |lines|
    ensures classify(lines[i]) == Exit ==> Questions(lines[i..], classify) == []
    ensures classify(lines[i]) == Skip ==> Questions(lines[i..], classify) == Questions(lines[i + 1..], classify)
    ensures classify(lines[i]) == Ask ==> Questions(lines[i..], classify) == [lines[i]] + Questions(lines[i + 1..], classify)
  {
    assert lines[i..][0] == lines[i] && lines[i..][1..] == lines[i + 1..];
  }

  /** The `while True` loop over the lines read, collecting the questions it
      hands to `ask`; `exited` tells a line that ended the session from the
      end of the input. */
  method RunSession(lines: seq<string>) returns (asked: seq<string>, exited: bool)
    ensures asked == Questions(lines, Classify)
    ensures exited <==> exists k :: 0 <= k < |lines| && Classify(lines[k]) == Exit
  {
    asked := [];
    exited := false;
    var i := 0;
    while i < |lines|
      invariant 0 <= i <= |lines|
      invariant asked + Questions(lines[i..], Classify) == Questions(lines, Classify)
      invariant forall k :: 0 <= k < i ==> Classify(lines[k]) != Exit
    {
      var line := lines[i];
      var command := Classify(line);
      QuestionsStep(lines, i, Classify);
      if command == Exit {
        assert asked + [] == asked;
        exited := true;
        return;
      }
      if command == Ask {
        asked := asked + [line];
      }
      i := i + 1;
    }
    assert lines[i..] == [];
    assert asked + [] == asked;
  }
}
