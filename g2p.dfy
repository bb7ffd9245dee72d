/**
 * Guessing pronunciations with a grapheme-to-phoneme tool: the word list it is
 * given, and how its output lines become (word, phonemes) guesses.
 */
module G2p {
  import opened Results
  import opened Text

  /** A guessed pronunciation. */
  datatype Guess = Guess(word: string, phonemes: seq<string>)

  /** What running the tool gives back: its exit status and the lines it printed. */
  datatype ToolRun = ToolRun(exitCode: int, output: seq<string>)

  /** The tool, given a model path, the word list and the number of guesses per word. */
  type G2pTool = (string, seq<string>, string) -> ToolRun

  /** The word transform in force: the one given, or the identity. */
  function OrIdentity(transform: Option<string -> string>): string -> string
  {
    if transform.Some? then transform.value else w => w
  }

  /** The word list for the words in the order `order`. */
  function WordList(order: seq<string>, transform: Option<string -> string>): seq<string>
  {
    Mapped(order, OrIdentity(transform))
  }

  /** Writes the word list, one transformed word per line, in the set's iteration order `order`. */
  method WriteWordList(words: set<string>, transform: Option<string -> string>)
    returns (wordlist: seq<string>, ghost order: seq<string>)
    ensures Enumerates(order, words)
    ensures wordlist == WordList(order, transform)
  {
    wordlist, order := [], [];
    var remaining := words;
    while remaining != {}
      invariant remaining <= words
      invariant Enumerates(order, words - remaining)
      invariant wordlist == WordList(order, transform)
      decreases remaining
    {
      var word :| word in remaining;
      remaining := remaining - {word};
      var line := OrIdentity(transform)(word);
      wordlist := wordlist + [line];
      MappedSnoc(order, word, OrIdentity(transform));
      order := order + [word];
    }
  }

  /** One output line: blank lines give nothing, others the first field and the remaining fields. */
  function ParseGuessLine(line: string): (r: Option<Guess>)
    ensures r.None? <==> Blank(line)
  {
    var s := Strip(line);
    if s == [] then None
    else
      var toks := Fields(s);
      Some(Guess(Strip(toks[0]), toks[1..]))
  }

  /** The values held by parsed lines, in order. */
  function Present<T>(ps: seq<Option<T>>): seq<T>
  {
    if ps == [] then []
    else Present(ps[..|ps| - 1]) + match ps[|ps| - 1] case None => [] case Some(g) => [g]
  }

  /** The guesses of the tool's output, in order. */
  function ParseGuesses(lines: seq<string>): seq<Guess>
  {
    Present(Mapped(lines, ParseGuessLine))
  }

  /** One more output line adds its guess, if it has one, at the end. */
  lemma ParseGuessesSnoc(lines: seq<string>, line: string)
    ensures ParseGuesses(lines + [line])
      == ParseGuesses(lines) + match ParseGuessLine(line) case None => [] case Some(g) => [g]
  {
    MappedSnoc(lines, line, ParseGuessLine);
    var ps := Mapped(lines + [line], ParseGuessLine);
    assert ps[..|ps| - 1] == Mapped(lines, ParseGuessLine);
  }

  /** Reads the tool's output line by line. */
  method ParseG2pOutput(lines: seq<string>) returns (guesses: seq<Guess>)
    ensures guesses == ParseGuesses(lines)
  {
    guesses := [];
    for i := 0 to |lines|
      invariant guesses == ParseGuesses(lines[..i])
    {
      assert lines[..i + 1] == lines[..i] + [lines[i]];
      ParseGuessesSnoc(lines[..i], lines[i]);
      var line := Strip(lines[i]);
      if line != [] {
        var toks := Fields(line);
        guesses := guesses + [Guess(Strip(toks[0]), toks[1..])];
      }
    }
    assert lines[..|lines|] == lines;
  }

  /**
   * Writes the word list, runs the tool and parses its output; a non-zero exit
   * status is the failure, carried with the status.
   */
  method GuessPronunciations(words: set<string>, model: string, transform: Option<string -> string>,
                             numGuesses: int, tool: G2pTool)
    returns (r: Result<seq<Guess>, int>, ghost order: seq<string>)
    ensures Enumerates(order, words)
    ensures var run := tool(model, WordList(order, transform), IntToDecimal(numGuesses));
      r == if run.exitCode != 0 then Failure(run.exitCode) else Success(ParseGuesses(run.output))
  {
    var wordlist;
    wordlist, order := WriteWordList(words, transform);
    var run := tool(model, wordlist, IntToDecimal(numGuesses));
    if run.exitCode != 0 {
      return Failure(run.exitCode), order;
    }
    var guesses := ParseG2pOutput(run.output);
    r := Success(guesses);
  }

  // ---------------------------------------------------------------------
  // Properties

  /** A guess is one whitespace-free word with whitespace-free phonemes. */
  predicate GuessOk(g: Guess)
  {
    IsToken(g.word) && AllTokens(g.phonemes)
  }

  lemma ParseGuessLineOk(line: string)
    requires !Blank(line)
    ensures GuessOk(ParseGuessLine(line).value)
  {
    var s := Strip(line);
    var toks := Fields(s);
    assert toks != [];
    assert TrimmedEnds(toks[0]);
    assert Strip(toks[0]) == toks[0];
  }

  /** `Present` keeps one value per parsed line that is not blank. */
  lemma {:induction false} PresentLength<T>(ps: seq<Option<T>>, lines: seq<string>)
    requires |ps| == |lines|
    requires forall k :: 0 <= k < |ps| ==> (ps[k].None? <==> Blank(lines[k]))
    ensures |Present(ps)| == NonBlankCount(lines)
  {
    if ps != [] {
      var n := |ps| - 1;
      assert forall k :: 0 <= k < n ==> ps[..n][k] == ps[k] && lines[..n][k] == lines[k];
      PresentLength(ps[..n], lines[..n]);
    }
  }

  /** The tool's output gives exactly one guess per non-blank line. */
  lemma ParseGuessesCount(lines: seq<string>)
    ensures |ParseGuesses(lines)| == NonBlankCount(lines)
  {
    var ps := Mapped(lines, ParseGuessLine);
    forall k | 0 <= k < |ps|
      ensures ps[k].None? <==> Blank(lines[k])
    {
      assert ps[k] == ParseGuessLine(lines[k]);
    }
    PresentLength(ps, lines);
  }

  /** Every value `Present` yields is held by one of the parsed lines. */
  lemma {:induction false} PresentFrom<T>(ps: seq<Option<T>>, k: nat)
    requires k < |Present(ps)|
    ensures exists j :: 0 <= j < |ps| && ps[j] == Some(Present(ps)[k])
  {
    var n := |ps| - 1;
    var before := Present(ps[..n]);
    if k < |before| {
      PresentFrom(ps[..n], k);
      var j :| 0 <= j < n && ps[..n][j] == Some(before[k]);
      assert ps[j] == Some(Present(ps)[k]);
    } else {
      assert ps[n] == Some(Present(ps)[k]);
    }
  }

  /** Every guess is one whitespace-free word with whitespace-free phonemes. */
  lemma ParseGuessesOk(lines: seq<string>)
    ensures forall k :: 0 <= k < |ParseGuesses(lines)| ==> GuessOk(ParseGuesses(lines)[k])
  {
    var ps := Mapped(lines, ParseGuessLine);
    forall k | 0 <= k < |ParseGuesses(lines)|
      ensures GuessOk(ParseGuesses(lines)[k])
    {
      PresentFrom(ps, k);
      var j :| 0 <= j < |ps| && ps[j] == Some(Present(ps)[k]);
      assert ParseGuessLine(lines[j]).Some?;
      ParseGuessLineOk(lines[j]);
    }
  }

  lemma {:induction false} PresentAppend<T>(ps: seq<Option<T>>, qs: seq<Option<T>>)
    ensures Present(ps + qs) == Present(ps) + Present(qs)
  {
    if qs == [] {
      assert ps + qs == ps;
    } else {
      var n := |qs| - 1;
      PresentAppend(ps, qs[..n]);
      assert (ps + qs)[..|ps + qs| - 1] == ps + qs[..n];
    }
  }

  /** Guesses keep the order of the output: the guesses of two stretches of output are concatenated. */
  lemma ParseGuessesAppend(a: seq<string>, b: seq<string>)
    ensures ParseGuesses(a + b) == ParseGuesses(a) + ParseGuesses(b)
  {
    MappedAppend(a, b, ParseGuessLine);
    PresentAppend(Mapped(a, ParseGuessLine), Mapped(b, ParseGuessLine));
  }
}
