/**
 * `read_dict` (rhasspyasr_pocketsphinx/train.py:223-249): loads a CMU-style
 * pronunciation dictionary, one `WORD[(n)] PHONEME ...` entry per line, into a
 * word -> variants map, merging into a map the caller may supply.
 */
module DictReader {

  import opened Results
  import opened Text

  type Phonemes = seq<string>

  /** `PronunciationsType`: each word maps to its variants in insertion order. */
  type PronunciationMap = map<string, seq<Phonemes>>

  /** The entry one dictionary line contributes. */
  datatype DictEntry = DictEntry(word: string, phonemes: Phonemes)

  /** `head.split("(")[0]`: the text of a head token before its first `(`. */
  function BaseWord(head: string): (r: string)
    ensures r <= head
    ensures '(' !in r
    ensures |r| < |head| ==> head[|r|] == '('
  {
    if head == [] || head[0] == '(' then [] else [head[0]] + BaseWord(head[1..])
  }

  /**
   * One line as the reader sees it: `None` for a blank line; otherwise the head
   * token's base word and the remaining `[ \t]+`-separated tokens.
   */
  function ParseDictLine(line: string): Option<DictEntry>
  {
    var s := Strip(line);
    if s == [] then None
    else
      var toks := SplitSpaceTab(s);
      Some(DictEntry(BaseWord(toks[0]), toks[1..]))
  }

  /** `word_dict[word].append(p)` if `word` is present, else `word_dict[word] = [p]`. */
  function AddVariant(m: PronunciationMap, word: string, p: Phonemes): PronunciationMap
  {
    if word in m then m[word := m[word] + [p]] else m[word := [p]]
  }

  /** The parsed form of each line, in order. */
  function ParseLines(lines: seq<string>): seq<Option<DictEntry>>
  {
    Mapped(lines, ParseDictLine)
  }

  /** The effect of one parsed line on `m`: a blank line changes nothing. */
  function ReadEntry(m: PronunciationMap, e: Option<DictEntry>): PronunciationMap
  {
    match e
    case None => m
    case Some(e) => AddVariant(m, e.word, e.phonemes)
  }

  /** The effect of reading parsed lines in order, starting from `m`. */
  function ReadEntries(m: PronunciationMap, es: seq<Option<DictEntry>>): PronunciationMap
  {
    if es == [] then m else ReadEntry(ReadEntries(m, es[..|es| - 1]), es[|es| - 1])
  }

  /** The effect of reading `lines` in order, starting from `m`. */
  function ReadLines(m: PronunciationMap, lines: seq<string>): PronunciationMap
  {
    ReadEntries(m, ParseLines(lines))
  }

  /** The mutable dictionary object that `read_dict` fills in and returns. */
  class PronunciationDict {
    var entries: PronunciationMap

    constructor ()
      ensures entries == map[]
    {
      entries := map[];
    }
  }

  /**
   * `read_dict(dict_file, word_dict)`: reads every line and merges it into
   * `wordDict` in place, or into a fresh dictionary when none is given; the
   * object returned is the one that was filled in.
   */
  method ReadDict(dictFile: seq<string>, wordDict: PronunciationDict?) returns (r: PronunciationDict)
    modifies wordDict
    ensures wordDict != null ==> r == wordDict
    ensures wordDict == null ==> fresh(r)
    ensures r.entries == ReadLines(if wordDict == null then map[] else old(wordDict.entries), dictFile)
  {
    if wordDict == null {
      r := new PronunciationDict();
    } else {
      r := wordDict;
    }
    ReadInto(r, dictFile);
  }

  /** The loop of `read_dict`: each non-blank line becomes one more variant of its base word in `d`. */
  method ReadInto(d: PronunciationDict, dictFile: seq<string>)
    modifies d
    ensures d.entries == ReadLines(old(d.entries), dictFile)
  {
    ghost var start := d.entries;
    ghost var es := ParseLines(dictFile);
    for i := 0 to |dictFile|
      invariant d.entries == ReadEntries(start, es[..i])
    {
      assert es[..i + 1][..i] == es[..i];
      assert es[i] == ParseDictLine(dictFile[i]);
      ReadLine(d, dictFile[i]);
    }
    assert es[..|dictFile|] == es;
  }

  /** One pass of the loop: a blank line is skipped, any other adds a variant under its base word. */
  method ReadLine(d: PronunciationDict, line: string)
    modifies d
    ensures d.entries == ReadEntry(old(d.entries), ParseDictLine(line))
  {
    var s := Strip(line);
    if s == [] {
      return;
    }
    var toks := SplitSpaceTab(s);
    var word, pronounce := BaseWord(toks[0]), toks[1..];
    if word in d.entries {
      d.entries := d.entries[word := d.entries[word] + [pronounce]];
    } else {
      d.entries := d.entries[word := [pronounce]];
    }
  }

  // ---------------------------------------------------------------------
  // Properties of the reader

  /** The variants that the parsed lines `es` add under key `k`, in line order. */
  function PronsFor(es: seq<Option<DictEntry>>, k: string): seq<Phonemes>
  {
    if es == [] then []
    else
      PronsFor(es[..|es| - 1], k) +
      match es[|es| - 1]
      case Some(e) => if e.word == k then [e.phonemes] else []
      case None => []
  }

  /** The variants `m` holds for `k`, none if `k` is absent. */
  function Lookup(m: PronunciationMap, k: string): seq<Phonemes>
  {
    if k in m then m[k] else []
  }

  lemma {:induction false} ReadEntriesAt(m: PronunciationMap, es: seq<Option<DictEntry>>, k: string)
    ensures k in ReadEntries(m, es) <==> k in m || PronsFor(es, k) != []
    ensures k in ReadEntries(m, es) ==> ReadEntries(m, es)[k] == Lookup(m, k) + PronsFor(es, k)
  {
    if es != [] {
      ReadEntriesAt(m, es[..|es| - 1], k);
    }
  }

  /**
   * Merging: after reading `lines` into `m`, key `k` holds `m`'s earlier
   * variants followed by the variants of the lines keyed on `k`, in read
   * order; a key no line touches keeps its value, and no other key appears.
   */
  lemma ReadLinesAt(m: PronunciationMap, lines: seq<string>, k: string)
    ensures k in ReadLines(m, lines) <==> k in m || PronsFor(ParseLines(lines), k) != []
    ensures k in ReadLines(m, lines) ==> ReadLines(m, lines)[k] == Lookup(m, k) + PronsFor(ParseLines(lines), k)
  {
    ReadEntriesAt(m, ParseLines(lines), k);
  }

  /** The key a line is stored under never contains `(`. */
  lemma {:induction false} PronsForKey(lines: seq<string>, k: string)
    requires PronsFor(ParseLines(lines), k) != []
    ensures '(' !in k
  {
    var init := lines[..|lines| - 1];
    var es := ParseLines(lines);
    assert init + [lines[|lines| - 1]] == lines;
    MappedSnoc(init, lines[|lines| - 1], ParseDictLine);
    assert es[..|es| - 1] == ParseLines(init);
    if PronsFor(ParseLines(init), k) != [] {
      PronsForKey(init, k);
    }
  }

  /**
   * Keying on the base word: reading never adds a key that holds `(`, so a
   * line headed `word(2)` is stored under `word`, never under `word(2)`; and
   * a new key holds one variant per line that named it.
   */
  lemma ReadLinesNewKeys(m: PronunciationMap, lines: seq<string>, k: string)
    requires k in ReadLines(m, lines) && k !in m
    ensures '(' !in k
    ensures |ReadLines(m, lines)[k]| == |PronsFor(ParseLines(lines), k)| >= 1
  {
    ReadLinesAt(m, lines, k);
    PronsForKey(lines, k);
  }

  /** Reading `a + b` is reading `a` and then `b`. */
  lemma {:induction false} ReadEntriesAppend(m: PronunciationMap, a: seq<Option<DictEntry>>, b: seq<Option<DictEntry>>)
    ensures ReadEntries(m, a + b) == ReadEntries(ReadEntries(m, a), b)
  {
    if b == [] {
      assert a + b == a;
    } else {
      var b' := b[..|b| - 1];
      ReadEntriesAppend(m, a, b');
      assert (a + b)[..|a + b| - 1] == a + b';
    }
  }

  lemma ParseLinesAppend(a: seq<string>, b: seq<string>)
    ensures ParseLines(a + b) == ParseLines(a) + ParseLines(b)
  {
    MappedAppend(a, b, ParseDictLine);
  }

  /** Reading two buffers one after the other is reading their concatenation. */
  lemma ReadLinesAppend(m: PronunciationMap, a: seq<string>, b: seq<string>)
    ensures ReadLines(m, a + b) == ReadLines(ReadLines(m, a), b)
  {
    ParseLinesAppend(a, b);
    ReadEntriesAppend(m, ParseLines(a), ParseLines(b));
  }

  /** The total number of variants held by a map. */
  ghost function VariantCount(m: PronunciationMap): nat
    decreases |m.Keys|
  {
    if m == map[] then 0
    else
      var k :| k in m;
      assert |(m - {k}).Keys| < |m.Keys| by { assert (m - {k}).Keys == m.Keys - {k}; }
      |m[k]| + VariantCount(m - {k})
  }

  lemma {:induction false} VariantCountRemove(m: PronunciationMap, k: string)
    requires k in m
    ensures VariantCount(m) == |m[k]| + VariantCount(m - {k})
    decreases |m.Keys|
  {
    var j :| j in m && VariantCount(m) == |m[j]| + VariantCount(m - {j});
    if j != k {
      assert (m - {j}).Keys == m.Keys - {j};
      assert (m - {k}).Keys == m.Keys - {k};
      VariantCountRemove(m - {j}, k);
      VariantCountRemove(m - {k}, j);
      assert m - {j} - {k} == m - {k} - {j};
    }
  }

  /** The number of non-blank lines among parsed lines. */
  function EntryCount(es: seq<Option<DictEntry>>): nat
  {
    if es == [] then 0 else EntryCount(es[..|es| - 1]) + (if es[|es| - 1].Some? then 1 else 0)
  }

  /** Each non-blank line adds exactly one variant; a blank line adds none. */
  lemma {:induction false} ReadEntriesCount(m: PronunciationMap, es: seq<Option<DictEntry>>)
    ensures VariantCount(ReadEntries(m, es)) == VariantCount(m) + EntryCount(es)
  {
    if es != [] {
      var prev := ReadEntries(m, es[..|es| - 1]);
      ReadEntriesCount(m, es[..|es| - 1]);
      match es[|es| - 1]
      case None =>
      case Some(e) =>
        var w := e.word;
        var next := AddVariant(prev, w, e.phonemes);
        VariantCountRemove(next, w);
        if w in prev {
          VariantCountRemove(prev, w);
          assert next - {w} == prev - {w};
        } else {
          assert next - {w} == prev;
        }
    }
  }

  /** Parsed lines hold one entry per line that is not blank. */
  lemma {:induction false} EntryCountMatches(es: seq<Option<DictEntry>>, lines: seq<string>)
    requires |es| == |lines|
    requires forall k :: 0 <= k < |es| ==> (es[k].None? <==> Blank(lines[k]))
    ensures EntryCount(es) == NonBlankCount(lines)
  {
    if es != [] {
      var n := |es| - 1;
      assert forall k :: 0 <= k < n ==> es[..n][k] == es[k] && lines[..n][k] == lines[k];
      EntryCountMatches(es[..n], lines[..n]);
    }
  }

  /** Exactly the non-blank lines produce an entry, so there are as many entries as non-blank lines. */
  lemma EntryCountNonBlank(lines: seq<string>)
    ensures forall k :: 0 <= k < |lines| ==> (ParseLines(lines)[k].None? <==> Blank(lines[k]))
    ensures EntryCount(ParseLines(lines)) == NonBlankCount(lines)
  {
    var es := ParseLines(lines);
    forall k | 0 <= k < |es|
      ensures es[k].None? <==> Blank(lines[k])
    {
      assert es[k] == ParseDictLine(lines[k]);
    }
    EntryCountMatches(es, lines);
  }

  /** The total variant count grows by exactly the number of non-blank lines read. */
  lemma ReadLinesCount(m: PronunciationMap, lines: seq<string>)
    ensures VariantCount(ReadLines(m, lines)) == VariantCount(m) + NonBlankCount(lines)
  {
    ReadEntriesCount(m, ParseLines(lines));
    EntryCountNonBlank(lines);
  }
}
