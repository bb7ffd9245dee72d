/**
 * The dictionary-writing part of `train` (rhasspyasr_pocketsphinx/train.py:105-125):
 * every vocabulary word with a non-empty pronunciation list is written in CMU
 * format, one line per variant; every other word goes to the missing set.
 */
module Resolver {

  import opened Results
  import opened Text
  import opened DictReader

  /** Head token of variant `i`: the bare word for the first variant, `word(i+1)` after it. */
  function Head(word: string, i: nat): string
  {
    if i == 0 then word else word + "(" + NatToDecimal(i + 1) + ")"
  }

  /** `print(head, " ".join(phonemes).strip())` for variant `i` of `word`. */
  function VariantLine(word: string, i: nat, p: Phonemes): string
  {
    Head(word, i) + " " + Strip(Join(p))
  }

  /** The lines written for one word, one per variant, in variant order. */
  function EntryLines(word: string, variants: seq<Phonemes>): seq<string>
  {
    if variants == [] then []
    else
      var n := |variants| - 1;
      EntryLines(word, variants[..n]) + [VariantLine(word, n, variants[n])]
  }

  /** `pronunciations.get(word)` is neither `None` nor an empty list. */
  predicate Resolved(entries: PronunciationMap, w: string)
  {
    w in entries && entries[w] != []
  }

  /** The lines written for `w`: its variants if it is resolved, nothing otherwise. */
  function WordLines(entries: PronunciationMap, w: string): seq<string>
  {
    if Resolved(entries, w) then EntryLines(w, entries[w]) else []
  }

  /** The dictionary lines written when the vocabulary is visited in the order `order`. */
  function ResolvedLines(entries: PronunciationMap, order: seq<string>): seq<string>
  {
    if order == [] then []
    else ResolvedLines(entries, order[..|order| - 1]) + WordLines(entries, order[|order| - 1])
  }

  /** The vocabulary words that have no pronunciation, or an empty list of them. */
  function MissingOf(vocabulary: set<string>, entries: PronunciationMap): set<string>
  {
    set w | w in vocabulary && !Resolved(entries, w)
  }

  /** The inner loop of the writer: one line per variant of `word`. */
  method WriteEntry(word: string, variants: seq<Phonemes>) returns (lines: seq<string>)
    ensures lines == EntryLines(word, variants)
  {
    lines := [];
    for i := 0 to |variants|
      invariant lines == EntryLines(word, variants[..i])
    {
      assert variants[..i + 1][..i] == variants[..i];
      var phonemeStr := Strip(Join(variants[i]));
      if i == 0 {
        lines := lines + [word + " " + phonemeStr];
      } else {
        lines := lines + [word + "(" + NatToDecimal(i + 1) + ")" + " " + phonemeStr];
      }
    }
    assert variants[..|variants|] == variants;
  }

  /**
   * The lookup loop of `train`: visits the vocabulary in some order, writes
   * the lines of each resolved word and collects the missing ones.
   */
  method Resolve(vocabulary: set<string>, entries: PronunciationMap)
    returns (dictLines: seq<string>, missing: set<string>, ghost order: seq<string>)
    ensures Enumerates(order, vocabulary)
    ensures dictLines == ResolvedLines(entries, order)
    ensures missing == MissingOf(vocabulary, entries)
  {
    dictLines, missing, order := [], {}, [];
    var remaining := vocabulary;
    while remaining != {}
      invariant remaining <= vocabulary
      invariant Enumerates(order, vocabulary - remaining)
      invariant dictLines == ResolvedLines(entries, order)
      invariant missing == MissingOf(vocabulary - remaining, entries)
      decreases remaining
    {
      var word :| word in remaining;
      ghost var visited := vocabulary - remaining;
      remaining := remaining - {word};
      assert vocabulary - remaining == visited + {word};
      EnumeratesSnoc(order, visited, word);
      ResolvedLinesSnoc(entries, order, word);
      MissingOfSnoc(visited, entries, word);
      order := order + [word];
      if word !in entries || entries[word] == [] {
        missing := missing + {word};
        continue;
      }
      var lines := WriteEntry(word, entries[word]);
      dictLines := dictLines + lines;
    }
  }

  /** Visiting one more word adds it to the missing words exactly when it is unresolved. */
  lemma MissingOfSnoc(visited: set<string>, entries: PronunciationMap, w: string)
    ensures MissingOf(visited + {w}, entries)
      == if Resolved(entries, w) then MissingOf(visited, entries) else MissingOf(visited, entries) + {w}
  {
  }

  /** Visiting one more word appends that word's lines. */
  lemma ResolvedLinesSnoc(entries: PronunciationMap, order: seq<string>, w: string)
    ensures ResolvedLines(entries, order + [w]) == ResolvedLines(entries, order) + WordLines(entries, w)
  {
    assert (order + [w])[..|order|] == order;
  }

  // ---------------------------------------------------------------------
  // Reading the written dictionary back

  /** A word that survives the round trip: one non-empty token without `(`. */
  predicate WordOk(w: string)
  {
    IsToken(w) && '(' !in w
  }

  /** If `w` is resolved, it and every phoneme of its variants survive the round trip. */
  predicate WellFormedWord(entries: PronunciationMap, w: string)
  {
    Resolved(entries, w) ==> WordOk(w) && forall i :: 0 <= i < |entries[w]| ==> AllTokens(entries[w][i])
  }

  predicate WellFormedEntries(entries: PronunciationMap, ws: set<string>)
  {
    forall w :: w in ws ==> WellFormedWord(entries, w)
  }

  lemma HeadShape(w: string, i: nat)
    requires WordOk(w)
    ensures IsToken(Head(w, i))
    ensures BaseWord(Head(w, i)) == w
  {
    var h := Head(w, i);
    if i > 0 {
      assert h[|w|] == '(';
      assert h[..|w|] == w;
    }
  }

  /**
   * A line written as a head, a space and the stripped joined phonemes reads
   * back as the head's base word and the phonemes.
   */
  lemma LineRoundTrip(h: string, p: Phonemes)
    requires IsToken(h) && AllTokens(p)
    ensures ParseDictLine(h + " " + Strip(Join(p))) == Some(DictEntry(BaseWord(h), p))
  {
    assert NoSpaceTab(h);
    var line := h + " " + Strip(Join(p));
    var toks := [h] + p;
    if p == [] {
      assert Strip(Join(p)) == [];
      assert line == h + " ";
      StripTrailingSpace(h);
      assert Strip(line) == h;
      SplitSpaceTabJoin([h]);
      assert SplitSpaceTab(Strip(line)) == toks;
    } else {
      JoinEnds(p);
      assert Strip(Join(p)) == Join(p);
      assert toks[1..] == p;
      assert line == Join(toks);
      JoinEnds(toks);
      assert Strip(line) == line;
      SplitSpaceTabJoin(toks);
      assert SplitSpaceTab(Strip(line)) == toks;
    }
    assert toks[0] == h && toks[1..] == p;
  }

  /** A variant line reads back as the word and the phonemes it was written from. */
  lemma VariantLineRoundTrip(w: string, i: nat, p: Phonemes)
    requires WordOk(w) && AllTokens(p)
    ensures ParseDictLine(VariantLine(w, i, p)) == Some(DictEntry(w, p))
  {
    HeadShape(w, i);
    LineRoundTrip(Head(w, i), p);
  }

  /** The parsed entries that the lines of one word produce. */
  function SameWordEntries(w: string, vs: seq<Phonemes>): seq<Option<DictEntry>>
  {
    if vs == [] then [] else SameWordEntries(w, vs[..|vs| - 1]) + [Some(DictEntry(w, vs[|vs| - 1]))]
  }

  lemma ParseOneLine(line: string)
    ensures ParseLines([line]) == [ParseDictLine(line)]
  {
    assert [line][..0] == [];
    assert ParseLines([]) == [];
  }

  lemma {:induction false} ParseEntryLines(w: string, vs: seq<Phonemes>)
    requires WordOk(w)
    requires forall i :: 0 <= i < |vs| ==> AllTokens(vs[i])
    ensures ParseLines(EntryLines(w, vs)) == SameWordEntries(w, vs)
  {
    if vs != [] {
      var n := |vs| - 1;
      var init := vs[..n];
      var line := VariantLine(w, n, vs[n]);
      assert forall i :: 0 <= i < |init| ==> AllTokens(init[i]) by {
        forall i | 0 <= i < |init| ensures AllTokens(init[i]) { assert init[i] == vs[i]; }
      }
      ParseEntryLines(w, init);
      assert EntryLines(w, vs) == EntryLines(w, init) + [line];
      ParseLinesAppend(EntryLines(w, init), [line]);
      ParseOneLine(line);
      VariantLineRoundTrip(w, n, vs[n]);
      assert SameWordEntries(w, vs) == SameWordEntries(w, init) + [Some(DictEntry(w, vs[n]))];
    }
  }

  /** Adding a variant appends it to whatever the word held before. */
  lemma AddVariantLookup(m: PronunciationMap, w: string, p: Phonemes)
    ensures AddVariant(m, w, p) == m[w := Lookup(m, w) + [p]]
  {
    if w !in m {
      assert Lookup(m, w) + [p] == [p];
    }
  }

  lemma UpdateTwice(m: PronunciationMap, w: string, a: seq<Phonemes>, b: seq<Phonemes>)
    ensures m[w := a][w := b] == m[w := b]
  {
  }

  lemma {:induction false} ReadSameWordEntries(m: PronunciationMap, w: string, vs: seq<Phonemes>)
    ensures ReadEntries(m, SameWordEntries(w, vs)) == if vs == [] then m else m[w := Lookup(m, w) + vs]
  {
    if vs != [] {
      var n := |vs| - 1;
      var es := SameWordEntries(w, vs);
      var init := SameWordEntries(w, vs[..n]);
      assert es[..|es| - 1] == init;
      ReadSameWordEntries(m, w, vs[..n]);
      var prev := ReadEntries(m, init);
      var lm := Lookup(m, w);
      AddVariantLookup(prev, w, vs[n]);
      SplitLast(vs);
      if n == 0 {
        assert prev == m;
        assert vs == [vs[n]];
      } else {
        var before := lm + vs[..n];
        assert prev == m[w := before];
        assert Lookup(prev, w) == before;
        assert before + [vs[n]] == lm + vs;
        UpdateTwice(m, w, before, lm + vs);
      }
    }
  }

  /** Reading back the lines of one word appends all its variants under it, in order. */
  lemma EntryLinesRoundTrip(m: PronunciationMap, w: string, vs: seq<Phonemes>)
    requires WordOk(w)
    requires forall i :: 0 <= i < |vs| ==> AllTokens(vs[i])
    ensures ReadLines(m, EntryLines(w, vs)) == if vs == [] then m else m[w := Lookup(m, w) + vs]
  {
    ParseEntryLines(w, vs);
    ReadSameWordEntries(m, w, vs);
  }

  /** The map the resolved words of `ws` make up. */
  function ResolvedMap(entries: PronunciationMap, ws: seq<string>): PronunciationMap
  {
    map w | w in ws && Resolved(entries, w) :: entries[w]
  }

  /** The parsed entries of the lines written for `w`. */
  function WordEntries(entries: PronunciationMap, w: string): seq<Option<DictEntry>>
  {
    if Resolved(entries, w) then SameWordEntries(w, entries[w]) else []
  }

  /** The parsed entries of the lines written for the vocabulary in the order `order`. */
  function ResolvedEntries(entries: PronunciationMap, order: seq<string>): seq<Option<DictEntry>>
  {
    if order == [] then []
    else ResolvedEntries(entries, order[..|order| - 1]) + WordEntries(entries, order[|order| - 1])
  }

  lemma ParseWordLines(entries: PronunciationMap, w: string)
    requires WellFormedWord(entries, w)
    ensures ParseLines(WordLines(entries, w)) == WordEntries(entries, w)
  {
    if Resolved(entries, w) {
      ParseEntryLines(w, entries[w]);
    } else {
      assert ParseLines([]) == [];
    }
  }

  lemma {:induction false} ParseResolvedLines(entries: PronunciationMap, order: seq<string>)
    requires forall i :: 0 <= i < |order| ==> WellFormedWord(entries, order[i])
    ensures ParseLines(ResolvedLines(entries, order)) == ResolvedEntries(entries, order)
  {
    if order != [] {
      var n := |order| - 1;
      var init, w := order[..n], order[n];
      assert forall i :: 0 <= i < |init| ==> WellFormedWord(entries, init[i]) by {
        forall i | 0 <= i < |init| ensures WellFormedWord(entries, init[i]) { assert init[i] == order[i]; }
      }
      ParseResolvedLines(entries, init);
      assert ResolvedLines(entries, order) == ResolvedLines(entries, init) + WordLines(entries, w);
      ParseLinesAppend(ResolvedLines(entries, init), WordLines(entries, w));
      ParseWordLines(entries, w);
      assert ResolvedEntries(entries, order) == ResolvedEntries(entries, init) + WordEntries(entries, w);
    }
  }

  lemma ResolvedMapSnoc(entries: PronunciationMap, init: seq<string>, w: string)
    requires w !in init
    ensures ResolvedMap(entries, init + [w])
      == if Resolved(entries, w) then ResolvedMap(entries, init)[w := entries[w]] else ResolvedMap(entries, init)
  {
    var order := init + [w];
    assert forall x :: x in order <==> x in init || x == w;
  }

  /** Reading the entries of one more, not yet visited, word adds that word's table entry if it is resolved. */
  lemma ReadWordEntries(entries: PronunciationMap, init: seq<string>, w: string)
    requires w !in init
    ensures ReadEntries(ResolvedMap(entries, init), WordEntries(entries, w)) == ResolvedMap(entries, init + [w])
  {
    var before := ResolvedMap(entries, init);
    ResolvedMapSnoc(entries, init, w);
    if Resolved(entries, w) {
      ReadSameWordEntries(before, w, entries[w]);
      assert w !in before;
      assert Lookup(before, w) + entries[w] == entries[w];
    } else {
      assert WordEntries(entries, w) == [];
    }
  }

  lemma {:induction false} ReadResolvedEntries(entries: PronunciationMap, order: seq<string>)
    requires forall i, j :: 0 <= i < j < |order| ==> order[i] != order[j]
    ensures ReadEntries(map[], ResolvedEntries(entries, order)) == ResolvedMap(entries, order)
  {
    if order == [] {
      assert ResolvedMap(entries, order) == map[];
    } else {
      var n := |order| - 1;
      var init, w := order[..n], order[n];
      ReadResolvedEntries(entries, init);
      assert ResolvedEntries(entries, order) == ResolvedEntries(entries, init) + WordEntries(entries, w);
      ReadEntriesAppend(map[], ResolvedEntries(entries, init), WordEntries(entries, w));
      assert init + [w] == order;
      assert w !in init by {
        forall i | 0 <= i < n ensures init[i] != w { assert init[i] == order[i]; }
      }
      ReadWordEntries(entries, init, w);
    }
  }

  /** Reading the lines written for the words in the order `order` gives back the resolved entries. */
  lemma ResolvedLinesRoundTrip(entries: PronunciationMap, order: seq<string>)
    requires forall i, j :: 0 <= i < j < |order| ==> order[i] != order[j]
    requires forall i :: 0 <= i < |order| ==> WellFormedWord(entries, order[i])
    ensures ReadLines(map[], ResolvedLines(entries, order)) == ResolvedMap(entries, order)
  {
    ParseResolvedLines(entries, order);
    ReadResolvedEntries(entries, order);
  }

  lemma DictionaryRoundTrip(vocabulary: set<string>, entries: PronunciationMap, order: seq<string>)
    requires Enumerates(order, vocabulary)
    requires WellFormedEntries(entries, vocabulary)
    ensures var back := ReadLines(map[], ResolvedLines(entries, order));
      && back.Keys == vocabulary - MissingOf(vocabulary, entries)
      && forall w :: w in back ==> back[w] == entries[w]
  {
    ResolvedLinesRoundTrip(entries, order);
  }
}
