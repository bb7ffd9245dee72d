/**
 * The n-gram counts file handed to the language-model estimator: one line per
 * n-gram of every intent, the words separated by single spaces, then a tab, a
 * space and the count in decimal.
 */
module CountFile {
  import opened Results
  import opened Text

  /** An n-gram with the number of times the intent graph produces it. */
  datatype NGramCount = NGramCount(ngram: seq<string>, count: int)

  /** The n-gram counts of one intent, in the order the intent's table yields them. */
  datatype IntentCounts = IntentCounts(intent: string, counts: seq<NGramCount>)

  /** The words written for an n-gram: the dictionary word transform, when there is one, applied to each. */
  function TransformWords(ngram: seq<string>, transform: Option<string -> string>): seq<string>
  {
    if transform.Some? then Mapped(ngram, transform.value) else ngram
  }

  /** One line of the counts file. */
  function CountLine(words: seq<string>, count: int): string
  {
    Join(words) + "\t " + IntToDecimal(count)
  }

  /** Every n-gram count of every intent, intent by intent. */
  function Flatten(intents: seq<IntentCounts>): seq<NGramCount>
  {
    if intents == [] then [] else Flatten(intents[..|intents| - 1]) + intents[|intents| - 1].counts
  }

  /** The line written for one n-gram count. */
  function FormatCount(c: NGramCount, transform: Option<string -> string>): string
  {
    CountLine(TransformWords(c.ngram, transform), c.count)
  }

  /** `FormatCount` with the transform fixed, as a function on n-gram counts. */
  function Formatter(transform: Option<string -> string>): NGramCount -> string
  {
    c => FormatCount(c, transform)
  }

  /** The lines written for the n-gram counts `cs`, in order. */
  function FormatCounts(cs: seq<NGramCount>, transform: Option<string -> string>): seq<string>
  {
    Mapped(cs, Formatter(transform))
  }

  /** The whole counts file. */
  function CountFileLines(intents: seq<IntentCounts>, transform: Option<string -> string>): seq<string>
  {
    FormatCounts(Flatten(intents), transform)
  }

  /** The lines of the first `j + 1` n-gram counts are those of the first `j` and the line of count `j`. */
  lemma FormatCountsPrefix(cs: seq<NGramCount>, j: nat, transform: Option<string -> string>)
    requires j < |cs|
    ensures FormatCounts(cs, transform)[..j + 1] == FormatCounts(cs, transform)[..j] + [FormatCount(cs[j], transform)]
  {
    MappedPrefix(cs, j, Formatter(transform));
  }

  /** Writes the lines of one intent's n-gram counts. */
  method WriteIntentCounts(counts: seq<NGramCount>, transform: Option<string -> string>) returns (lines: seq<string>)
    ensures lines == FormatCounts(counts, transform)
  {
    lines := [];
    for j := 0 to |counts|
      invariant lines == FormatCounts(counts, transform)[..j]
    {
      FormatCountsPrefix(counts, j, transform);
      lines := lines + [FormatCount(counts[j], transform)];
    }
    assert FormatCounts(counts, transform)[..|counts|] == FormatCounts(counts, transform);
  }

  /** The counts file of one more intent is followed by that intent's lines. */
  lemma CountFileLinesSnoc(intents: seq<IntentCounts>, i: nat, transform: Option<string -> string>)
    requires i < |intents|
    ensures CountFileLines(intents[..i + 1], transform)
      == CountFileLines(intents[..i], transform) + FormatCounts(intents[i].counts, transform)
  {
    assert intents[..i + 1][..i] == intents[..i];
    MappedAppend(Flatten(intents[..i]), intents[i].counts, Formatter(transform));
  }

  /** Writes the counts file, intent by intent. */
  method WriteCountFile(intents: seq<IntentCounts>, transform: Option<string -> string>) returns (lines: seq<string>)
    ensures lines == CountFileLines(intents, transform)
  {
    lines := [];
    for i := 0 to |intents|
      invariant lines == CountFileLines(intents[..i], transform)
    {
      var part := WriteIntentCounts(intents[i].counts, transform);
      CountFileLinesSnoc(intents, i, transform);
      lines := lines + part;
    }
    assert intents[..|intents|] == intents;
  }

  /** The position of the first tab of `s`, or `|s|` when there is none. */
  function TabIndex(s: string): (i: nat)
    ensures i <= |s|
    ensures forall k :: 0 <= k < i ==> s[k] != '\t'
    ensures i < |s| ==> s[i] == '\t'
  {
    if s == [] || s[0] == '\t' then 0 else 1 + TabIndex(s[1..])
  }

  /**
   * How the estimator reads a counts line back: the words before the first tab,
   * split at runs of spaces and tabs, then a space and the count.
   */
  function ParseCountLine(line: string): Option<NGramCount>
  {
    var i := TabIndex(line);
    if i == |line| then None
    else
      var rest := line[i + 1..];
      if rest == [] || rest[0] != ' ' then None
      else
        match ParseInt(rest[1..])
        case None => None
        case Some(c) => Some(NGramCount(SplitSpaceTab(line[..i]), c))
  }

  /** The words of an n-gram can be told apart in its counts line. */
  predicate WordsOk(words: seq<string>)
  {
    |words| >= 1 && forall k :: 0 <= k < |words| ==> words[k] != [] && NoSpaceTab(words[k])
  }

  /** A line made of a tab-free part, a tab, a space and a rest splits at that tab. */
  lemma TabSplit(j: string, d: string)
    requires '\t' !in j
    ensures var line := j + "\t " + d;
      TabIndex(line) == |j| && line[..|j|] == j && line[|j| + 1..] == " " + d
  {
    var line := j + "\t " + d;
    assert line[|j|] == '\t';
    assert forall k :: 0 <= k < |j| ==> line[k] == j[k];
    assert line[..|j|] == j;
    assert line[|j| + 1..] == " " + d;
  }

  lemma CountLineRoundTrip(words: seq<string>, count: int)
    requires WordsOk(words)
    ensures ParseCountLine(CountLine(words, count)) == Some(NGramCount(words, count))
  {
    JoinNoTab(words);
    TabSplit(Join(words), IntToDecimal(count));
    IntRoundTrip(count);
    SplitSpaceTabJoin(words);
  }

  /**
   * The estimator reads back, line by line and in order, exactly the transformed
   * n-grams and counts of every intent, provided the written words are
   * non-empty and free of spaces and tabs.
   */
  lemma CountFileRoundTrip(intents: seq<IntentCounts>, transform: Option<string -> string>)
    requires forall k :: 0 <= k < |Flatten(intents)| ==> WordsOk(TransformWords(Flatten(intents)[k].ngram, transform))
    ensures |CountFileLines(intents, transform)| == |Flatten(intents)|
    ensures forall k :: 0 <= k < |Flatten(intents)| ==>
      ParseCountLine(CountFileLines(intents, transform)[k])
        == Some(NGramCount(TransformWords(Flatten(intents)[k].ngram, transform), Flatten(intents)[k].count))
  {
    var cs := Flatten(intents);
    forall k | 0 <= k < |cs|
      ensures ParseCountLine(CountFileLines(intents, transform)[k])
        == Some(NGramCount(TransformWords(cs[k].ngram, transform), cs[k].count))
    {
      CountLineRoundTrip(TransformWords(cs[k].ngram, transform), cs[k].count);
    }
  }
}
