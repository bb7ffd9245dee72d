/**
 * The vocabulary the estimator lists next to the language model: every listed
 * line, stripped, except the reserved symbols that start with `<`.
 */
module Vocabulary {
  import opened Text

  /** Reserved symbols such as sentence start and end. */
  predicate Reserved(word: string)
  {
    |word| > 0 && word[0] == '<'
  }

  /** The words the vocabulary listing contributes. */
  function VocabularyOf(listing: seq<string>): set<string>
  {
    if listing == [] then {}
    else
      var w := Strip(listing[|listing| - 1]);
      VocabularyOf(listing[..|listing| - 1]) + if Reserved(w) then {} else {w}
  }

  /** Reads the vocabulary listing line by line. */
  method ExtractVocabulary(listing: seq<string>) returns (vocabulary: set<string>)
    ensures vocabulary == VocabularyOf(listing)
  {
    vocabulary := {};
    for i := 0 to |listing|
      invariant vocabulary == VocabularyOf(listing[..i])
    {
      var line := Strip(listing[i]);
      if !Reserved(line) {
        vocabulary := vocabulary + {line};
      }
      assert listing[..i + 1][..i] == listing[..i];
    }
    assert listing[..|listing|] == listing;
  }

  /** A word is in the vocabulary exactly when some listed line strips to it and it is not reserved. */
  lemma {:induction false} VocabularyMembership(listing: seq<string>, w: string)
    ensures w in VocabularyOf(listing) <==> !Reserved(w) && w in Mapped(listing, Strip)
  {
    if listing != [] {
      var n := |listing| - 1;
      VocabularyMembership(listing[..n], w);
      assert listing[..n] + [listing[n]] == listing;
      MappedSnoc(listing[..n], listing[n], Strip);
    }
  }

  /** Every vocabulary word is stripped and not reserved. */
  lemma {:induction false} VocabularyWordsTrimmed(listing: seq<string>)
    ensures forall w :: w in VocabularyOf(listing) ==> TrimmedEnds(w) && !Reserved(w)
  {
    if listing != [] {
      VocabularyWordsTrimmed(listing[..|listing| - 1]);
    }
  }

  /** A blank listed line adds the empty word: an empty stripped line does not start with `<`. */
  lemma BlankLineAddsEmptyWord(listing: seq<string>, i: nat)
    requires i < |listing| && Blank(listing[i])
    ensures "" in VocabularyOf(listing)
  {
    VocabularyMembership(listing, "");
    assert Mapped(listing, Strip)[i] == "";
  }

  /** The vocabulary is empty exactly when every listed line is a reserved symbol. */
  lemma VocabularyEmpty(listing: seq<string>)
    ensures VocabularyOf(listing) == {} <==> forall i :: 0 <= i < |listing| ==> Reserved(Strip(listing[i]))
  {
    if VocabularyOf(listing) == {} {
      forall i | 0 <= i < |listing|
        ensures Reserved(Strip(listing[i]))
      {
        VocabularyMembership(listing, Strip(listing[i]));
        assert Mapped(listing, Strip)[i] == Strip(listing[i]);
      }
    } else {
      var w :| w in VocabularyOf(listing);
      VocabularyMembership(listing, w);
      var i :| 0 <= i < |listing| && Mapped(listing, Strip)[i] == w;
    }
  }
}
