/**
 * Training: write the n-gram counts, run the estimator, read its vocabulary,
 * resolve every vocabulary word against the pronunciation table, and either
 * fail on missing words or guess them with the g2p tool and append the
 * guesses to the dictionary and to the missing-words report.
 */
module Training {
  import opened Results
  import opened Text
  import opened DictReader
  import opened Resolver
  import opened CountFile
  import opened Vocabulary
  import opened G2p

  /** The n-gram order the language model is estimated with. */
  const NGramOrder := 3

  /** Guesses asked of the g2p tool per missing word. */
  const GuessesPerWord := 1

  /** What running the estimator gives back: its exit status, the language model and the vocabulary listing. */
  datatype EstimatorRun = EstimatorRun(exitCode: int, languageModel: string, vocabularyListing: seq<string>)

  /** The estimator, given the n-gram order and the lines of the counts file. */
  type Estimator = (int, seq<string>) -> EstimatorRun

  /** The ways training stops. */
  datatype TrainError =
    | EstimationFailure(exitCode: int)
    | EmptyVocabulary
    | MissingWordPronunciations(words: seq<string>)
    | G2PInvocationFailure(exitCode: int)

  /** The dictionary lines and the language model that training copies to their destinations. */
  datatype Artifacts = Artifacts(dictionary: seq<string>, languageModel: string)

  /** Everything training is given; the external tools are functions of what they are handed. */
  datatype Config = Config(
    intents: seq<IntentCounts>,
    pronunciations: PronunciationMap,
    dictionaryWordTransform: Option<string -> string>,
    g2pModel: Option<string>,
    g2pWordTransform: Option<string -> string>,
    missingWordsPath: Option<string>,
    estimator: Estimator,
    g2pTool: G2pTool)

  /** The dictionary line of a guess: the word, a space and the stripped joined phonemes. */
  function GuessLine(g: Guess): string
  {
    g.word + " " + Strip(Join(g.phonemes))
  }

  function GuessLines(gs: seq<Guess>): seq<string>
  {
    Mapped(gs, GuessLine)
  }

  // ---------------------------------------------------------------------
  // What training produces

  function EstimatorRunOf(c: Config): EstimatorRun
  {
    c.estimator(NGramOrder, CountFileLines(c.intents, c.dictionaryWordTransform))
  }

  function VocabularyFor(c: Config): set<string>
  {
    VocabularyOf(EstimatorRunOf(c).vocabularyListing)
  }

  function MissingFor(c: Config): set<string>
  {
    MissingOf(VocabularyFor(c), c.pronunciations)
  }

  function G2pRunOf(c: Config, missingOrder: seq<string>): ToolRun
    requires c.g2pModel.Some?
  {
    c.g2pTool(c.g2pModel.value, WordList(missingOrder, c.g2pWordTransform), IntToDecimal(GuessesPerWord))
  }

  /** The guesses training appends: those of a successful g2p run, none on any other path. */
  function AddedGuesses(c: Config, missingOrder: seq<string>): seq<Guess>
  {
    if EstimatorRunOf(c).exitCode == 0 && VocabularyFor(c) != {} && MissingFor(c) != {}
       && c.g2pModel.Some? && G2pRunOf(c, missingOrder).exitCode == 0
    then ParseGuesses(G2pRunOf(c, missingOrder).output)
    else []
  }

  /** The report file as created on opening: empty if a path was given, absent otherwise. */
  function OpenedReport(c: Config): Option<seq<string>>
  {
    if c.missingWordsPath.Some? then Some([]) else None
  }

  /**
   * The outcome and the missing-words report of the dictionary stage, for the
   * vocabulary `vocabulary` visited in the order `vocabOrder`, with its
   * missing words listed in the order `missingOrder`.
   */
  function DictionaryStage(c: Config, vocabulary: set<string>, languageModel: string,
                           vocabOrder: seq<string>, missingOrder: seq<string>)
    : (Result<Artifacts, TrainError>, Option<seq<string>>)
  {
    var dictionary := ResolvedLines(c.pronunciations, vocabOrder);
    if MissingOf(vocabulary, c.pronunciations) == {} then
      (Success(Artifacts(dictionary, languageModel)), OpenedReport(c))
    else if c.g2pModel.None? then (Failure(MissingWordPronunciations(missingOrder)), OpenedReport(c))
    else
      var g2p := G2pRunOf(c, missingOrder);
      if g2p.exitCode != 0 then (Failure(G2PInvocationFailure(g2p.exitCode)), OpenedReport(c))
      else
        var added := GuessLines(ParseGuesses(g2p.output));
        (Success(Artifacts(dictionary + added, languageModel)), Extend(OpenedReport(c), added))
  }

  /**
   * The outcome and the missing-words report of training, for the order
   * `vocabOrder` in which the vocabulary set is visited and the order
   * `missingOrder` in which the missing-word set is listed.
   */
  function Expected(c: Config, vocabOrder: seq<string>, missingOrder: seq<string>)
    : (Result<Artifacts, TrainError>, Option<seq<string>>)
  {
    var run := EstimatorRunOf(c);
    if run.exitCode != 0 then (Failure(EstimationFailure(run.exitCode)), None)
    else if VocabularyFor(c) == {} then (Failure(EmptyVocabulary), None)
    else DictionaryStage(c, VocabularyFor(c), run.languageModel, vocabOrder, missingOrder)
  }

  /** The orders are iteration orders of the sets they stand for. */
  predicate Orders(c: Config, vocabOrder: seq<string>, missingOrder: seq<string>)
  {
    EstimatorRunOf(c).exitCode == 0 ==>
      Enumerates(vocabOrder, VocabularyFor(c)) && Enumerates(missingOrder, MissingFor(c))
  }

  // ---------------------------------------------------------------------
  // Operations

  /** Appends `lines` to the report when there is one. */
  function Extend(report: Option<seq<string>>, lines: seq<string>): Option<seq<string>>
  {
    if report.Some? then Some(report.value + lines) else None
  }

  lemma ExtendNothing(report: Option<seq<string>>)
    ensures Extend(report, []) == report
  {
    if report.Some? {
      assert report.value + [] == report.value;
    }
  }

  lemma ExtendTwice(report: Option<seq<string>>, a: seq<string>, b: seq<string>)
    ensures Extend(Extend(report, a), b) == Extend(report, a + b)
  {
    if report.Some? {
      assert report.value + a + b == report.value + (a + b);
    }
  }

  /** Writes the line of one guess to the dictionary, and to the report when there is one. */
  method AppendGuess(dictionary: seq<string>, report: Option<seq<string>>, g: Guess)
    returns (dictionary': seq<string>, report': Option<seq<string>>)
    ensures dictionary' == dictionary + [GuessLine(g)]
    ensures report' == Extend(report, [GuessLine(g)])
  {
    var line := GuessLine(g);
    dictionary' := dictionary + [line];
    report' := report;
    if report'.Some? {
      report' := Some(report'.value + [line]);
    }
  }

  /** Appends one line per guess to the dictionary, and to the report when there is one. */
  method AppendGuesses(dictionary: seq<string>, report: Option<seq<string>>, guesses: seq<Guess>)
    returns (dictionary': seq<string>, report': Option<seq<string>>)
    ensures dictionary' == dictionary + GuessLines(guesses)
    ensures report' == Extend(report, GuessLines(guesses))
  {
    dictionary', report' := dictionary, report;
    assert GuessLines(guesses[..0]) == [];
    ExtendNothing(report);
    for i := 0 to |guesses|
      invariant dictionary' == dictionary + GuessLines(guesses[..i])
      invariant report' == Extend(report, GuessLines(guesses[..i]))
    {
      assert guesses[..i + 1] == guesses[..i] + [guesses[i]];
      MappedSnoc(guesses[..i], guesses[i], GuessLine);
      ExtendTwice(report, GuessLines(guesses[..i]), [GuessLine(guesses[i])]);
      dictionary', report' := AppendGuess(dictionary', report', guesses[i]);
    }
    assert guesses[..|guesses|] == guesses;
  }

  /** `list(s)`: the elements of a set, each once, in its iteration order. */
  method ListOf(s: set<string>) returns (xs: seq<string>)
    ensures Enumerates(xs, s)
  {
    xs := [];
    var remaining := s;
    while remaining != {}
      invariant remaining <= s
      invariant Enumerates(xs, s - remaining)
      decreases remaining
    {
      var x :| x in remaining;
      remaining := remaining - {x};
      xs := xs + [x];
    }
  }

  /**
   * Writes the dictionary lines of a non-empty vocabulary, then fails on
   * missing words or guesses them and appends the guesses.
   */
  method WriteDictionary(c: Config, vocabulary: set<string>, languageModel: string)
    returns (outcome: Result<Artifacts, TrainError>, missingReport: Option<seq<string>>,
             ghost vocabOrder: seq<string>, ghost missingOrder: seq<string>)
    ensures Enumerates(vocabOrder, vocabulary)
    ensures Enumerates(missingOrder, MissingOf(vocabulary, c.pronunciations))
    ensures (outcome, missingReport) == DictionaryStage(c, vocabulary, languageModel, vocabOrder, missingOrder)
  {
    var dictionary, missing;
    dictionary, missing, vocabOrder := Resolve(vocabulary, c.pronunciations);
    missingReport := OpenedReport(c);
    if missing == {} {
      missingOrder := [];
      outcome := Success(Artifacts(dictionary, languageModel));
      return;
    }
    if c.g2pModel.None? {
      var words := ListOf(missing);
      missingOrder := words;
      outcome := Failure(MissingWordPronunciations(words));
      return;
    }
    var guessed;
    guessed, missingOrder := GuessPronunciations(missing, c.g2pModel.value, c.g2pWordTransform, GuessesPerWord, c.g2pTool);
    ghost var g2p := G2pRunOf(c, missingOrder);
    if guessed.Failure? {
      outcome := Failure(G2PInvocationFailure(guessed.error));
      return;
    }
    assert guessed.value == ParseGuesses(g2p.output);
    dictionary, missingReport := AppendGuesses(dictionary, missingReport, guessed.value);
    outcome := Success(Artifacts(dictionary, languageModel));
  }

  /** Re-generates the dictionary and the language model from the intents' n-gram counts. */
  method Train(c: Config)
    returns (outcome: Result<Artifacts, TrainError>, missingReport: Option<seq<string>>,
             ghost vocabOrder: seq<string>, ghost missingOrder: seq<string>)
    ensures Orders(c, vocabOrder, missingOrder)
    ensures (outcome, missingReport) == Expected(c, vocabOrder, missingOrder)
  {
    vocabOrder, missingOrder := [], [];
    var counts := WriteCountFile(c.intents, c.dictionaryWordTransform);
    var run := c.estimator(NGramOrder, counts);
    if run.exitCode != 0 {
      return Failure(EstimationFailure(run.exitCode)), None, vocabOrder, missingOrder;
    }
    var vocabulary := ExtractVocabulary(run.vocabularyListing);
    if vocabulary == {} {
      return Failure(EmptyVocabulary), None, vocabOrder, missingOrder;
    }
    outcome, missingReport, vocabOrder, missingOrder := WriteDictionary(c, vocabulary, run.languageModel);
  }

  // ---------------------------------------------------------------------
  // Properties

  /** Training stops on an empty vocabulary exactly when the estimator succeeded and listed only reserved symbols. */
  lemma EmptyVocabularyOutcome(c: Config, vocabOrder: seq<string>, missingOrder: seq<string>)
    ensures Expected(c, vocabOrder, missingOrder).0 == Failure(EmptyVocabulary)
      <==> EstimatorRunOf(c).exitCode == 0
           && forall i :: 0 <= i < |EstimatorRunOf(c).vocabularyListing| ==>
                Reserved(Strip(EstimatorRunOf(c).vocabularyListing[i]))
  {
    VocabularyEmpty(EstimatorRunOf(c).vocabularyListing);
  }

  /**
   * Training raises the missing-words error exactly when the estimator
   * succeeded, there is no g2p model and some listed word has no
   * pronunciation; the error names every such word once and nothing else.
   */
  lemma MissingWordsOutcome(c: Config, vocabOrder: seq<string>, missingOrder: seq<string>)
    requires Orders(c, vocabOrder, missingOrder)
    ensures Expected(c, vocabOrder, missingOrder).0.Failure?
            && Expected(c, vocabOrder, missingOrder).0.error.MissingWordPronunciations?
      <==> EstimatorRunOf(c).exitCode == 0 && c.g2pModel.None?
           && exists w :: Listed(c, w) && !Resolved(c.pronunciations, w)
    ensures Expected(c, vocabOrder, missingOrder).0.Failure?
            && Expected(c, vocabOrder, missingOrder).0.error.MissingWordPronunciations? ==>
      var words := Expected(c, vocabOrder, missingOrder).0.error.words;
      && (forall i, j :: 0 <= i < j < |words| ==> words[i] != words[j])
      && forall w :: w in words <==> Listed(c, w) && !Resolved(c.pronunciations, w)
  {
    var listing := EstimatorRunOf(c).vocabularyListing;
    forall w ensures w in VocabularyFor(c) <==> Listed(c, w) {
      VocabularyMembership(listing, w);
    }
    if EstimatorRunOf(c).exitCode == 0 && c.g2pModel.None? && exists w :: Listed(c, w) && !Resolved(c.pronunciations, w) {
      var w :| Listed(c, w) && !Resolved(c.pronunciations, w);
      assert w in MissingFor(c);
    }
  }

  /** `w` is a vocabulary word: some line of the estimator's listing strips to it and it is not reserved. */
  predicate Listed(c: Config, w: string)
  {
    !Reserved(w) && w in Mapped(EstimatorRunOf(c).vocabularyListing, Strip)
  }

  /**
   * When every listed word has a pronunciation, training succeeds with the
   * resolved dictionary alone, whatever the g2p model and tool: the tool is
   * not consulted.
   */
  lemma NoGuessingWhenNothingMissing(c: Config, vocabOrder: seq<string>, missingOrder: seq<string>,
                                     otherModel: Option<string>, otherTool: G2pTool)
    requires EstimatorRunOf(c).exitCode == 0
    requires exists w :: Listed(c, w)
    requires forall w :: Listed(c, w) ==> Resolved(c.pronunciations, w)
    ensures Expected(c, vocabOrder, missingOrder)
      == (Success(Artifacts(ResolvedLines(c.pronunciations, vocabOrder), EstimatorRunOf(c).languageModel)), OpenedReport(c))
    ensures Expected(c, vocabOrder, missingOrder)
      == Expected(c.(g2pModel := otherModel, g2pTool := otherTool), vocabOrder, missingOrder)
  {
    var listing := EstimatorRunOf(c).vocabularyListing;
    forall w ensures w in VocabularyFor(c) <==> Listed(c, w) {
      VocabularyMembership(listing, w);
    }
    var w :| Listed(c, w);
    assert w in VocabularyFor(c);
    assert MissingFor(c) == {};
  }

  /**
   * The report holds exactly the guess lines appended to the dictionary, one
   * per non-blank line of the g2p output; without a report path there is none.
   */
  lemma ReportIsAppendedGuesses(c: Config, vocabOrder: seq<string>, missingOrder: seq<string>)
    requires Expected(c, vocabOrder, missingOrder).0.Success?
    ensures var (outcome, report) := Expected(c, vocabOrder, missingOrder);
      && outcome.value.dictionary == ResolvedLines(c.pronunciations, vocabOrder) + GuessLines(AddedGuesses(c, missingOrder))
      && report == if c.missingWordsPath.Some? then Some(GuessLines(AddedGuesses(c, missingOrder))) else None
    ensures c.g2pModel.Some? && MissingFor(c) != {} ==>
      |AddedGuesses(c, missingOrder)| == NonBlankCount(G2pRunOf(c, missingOrder).output)
  {
    var run := EstimatorRunOf(c);
    var resolved := ResolvedLines(c.pronunciations, vocabOrder);
    var (outcome, report) := Expected(c, vocabOrder, missingOrder);
    assert (outcome, report) == DictionaryStage(c, VocabularyFor(c), run.languageModel, vocabOrder, missingOrder);
    var gs := AddedGuesses(c, missingOrder);
    if MissingFor(c) == {} {
      assert gs == [];
      assert GuessLines(gs) == [];
      assert outcome.value.dictionary == resolved;
      assert report == OpenedReport(c);
    } else {
      assert c.g2pModel.Some? && G2pRunOf(c, missingOrder).exitCode == 0;
      assert gs == ParseGuesses(G2pRunOf(c, missingOrder).output);
      assert report == Extend(OpenedReport(c), GuessLines(gs));
      if c.missingWordsPath.Some? {
        assert [] + GuessLines(gs) == GuessLines(gs);
      }
      ParseGuessesCount(G2pRunOf(c, missingOrder).output);
    }
  }

  /** The parsed entry of a guess line: the base of the guessed word and the phonemes. */
  function GuessEntry(g: Guess): Option<DictEntry>
  {
    Some(DictEntry(BaseWord(g.word), g.phonemes))
  }

  /** A guess line reads back as the base of the guessed word and the phonemes. */
  lemma GuessLineRoundTrip(g: Guess)
    requires GuessOk(g)
    ensures ParseDictLine(GuessLine(g)) == GuessEntry(g)
  {
    LineRoundTrip(g.word, g.phonemes);
  }

  /** The g2p parser reads a guess line back as the guess it was written from. */
  lemma GuessLineParsesBack(g: Guess)
    requires GuessOk(g)
    ensures ParseGuessLine(GuessLine(g)) == Some(g)
  {
    var w, p := g.word, g.phonemes;
    var toks := [w] + p;
    assert toks[0] == w && toks[1..] == p;
    assert TrimmedEnds(w);
    if p == [] {
      assert Strip(Join(p)) == [];
      assert GuessLine(g) == w + " ";
      StripTrailingSpace(w);
      FieldsJoin([w]);
      assert Join([w]) == w;
      assert Fields(Strip(GuessLine(g))) == toks;
    } else {
      JoinEnds(p);
      assert Strip(Join(p)) == Join(p);
      assert GuessLine(g) == Join(toks);
      JoinEnds(toks);
      FieldsJoin(toks);
      assert Fields(Strip(GuessLine(g))) == toks;
    }
  }

  lemma ParseGuessLines(gs: seq<Guess>)
    requires forall k :: 0 <= k < |gs| ==> GuessOk(gs[k])
    ensures ParseLines(GuessLines(gs)) == Mapped(gs, GuessEntry)
  {
    var parsed := ParseLines(GuessLines(gs));
    forall k | 0 <= k < |gs|
      ensures parsed[k] == Mapped(gs, GuessEntry)[k]
    {
      GuessLineRoundTrip(gs[k]);
    }
  }

  /**
   * Reading the trained dictionary back with the dictionary reader: a word is
   * present exactly when it is a resolved vocabulary word or the base of a
   * guessed word, and holds its table pronunciations followed by its guesses
   * in output order; this needs table words and phonemes free of whitespace
   * and table words free of `(`.
   */
  lemma DictionaryReadBack(c: Config, vocabOrder: seq<string>, missingOrder: seq<string>)
    requires Orders(c, vocabOrder, missingOrder)
    requires Expected(c, vocabOrder, missingOrder).0.Success?
    requires forall w :: w in c.pronunciations ==> WellFormedWord(c.pronunciations, w)
    ensures var back := ReadLines(map[], Expected(c, vocabOrder, missingOrder).0.value.dictionary);
      var table := ResolvedMap(c.pronunciations, vocabOrder);
      var guessed := Mapped(AddedGuesses(c, missingOrder), GuessEntry);
      && (forall k :: k in back <==> k in table || PronsFor(guessed, k) != [])
      && (forall k :: k in back ==> back[k] == Lookup(table, k) + PronsFor(guessed, k))
  {
    var gs := AddedGuesses(c, missingOrder);
    if c.g2pModel.Some? && MissingFor(c) != {} && G2pRunOf(c, missingOrder).exitCode == 0 {
      ParseGuessesOk(G2pRunOf(c, missingOrder).output);
    }
    var resolved := ResolvedLines(c.pronunciations, vocabOrder);
    assert Expected(c, vocabOrder, missingOrder).0.value.dictionary == resolved + GuessLines(gs);
    assert forall i :: 0 <= i < |vocabOrder| ==> WellFormedWord(c.pronunciations, vocabOrder[i]);
    ResolvedLinesRoundTrip(c.pronunciations, vocabOrder);
    ReadLinesAppend(map[], resolved, GuessLines(gs));
    ParseGuessLines(gs);
    var table := ResolvedMap(c.pronunciations, vocabOrder);
    var back := ReadLines(table, GuessLines(gs));
    var guessed := Mapped(gs, GuessEntry);
    forall k
      ensures k in back <==> k in table || PronsFor(guessed, k) != []
      ensures k in back ==> back[k] == Lookup(table, k) + PronsFor(guessed, k)
    {
      ReadLinesAt(table, GuessLines(gs), k);
    }
  }
}
