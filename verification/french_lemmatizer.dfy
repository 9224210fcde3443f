/**
  `lemmatize_french_verb` with the two tables of app.py:8-33, and the
  properties that depend on what those tables contain.
*/
module FrenchLemmatizer {
  import opened Normalization
  import opened SuffixScan
  import opened Tables
  import opened Lemmatizer

  /** The tables of app.py:8-33. */
  const French: Lexicon := Lexicon(SpecialEntries, EndingEntries)

  /**
    `lemmatize_french_verb(word)` (app.py:35-43): the irregular form of the
    normalised word, else its rewrite by the longest firing suffix, else
    the normalised word. It is `Lemmatize(French, word)`, which the lemmas
    below and the examples state their facts about.
  */
  function LemmatizeFrenchVerb(word: string): (r: string)
    ensures r == LemmaSpec(French, word)
  {
    LemmatizeMatchesSpec(French, word);
    Lemmatize(French, word)
  }

  /** The lexicon's dicts are `SPECIAL_CASES` and `VERB_ENDINGS`. */
  lemma FrenchDicts()
    ensures French.SpecialCases() == SpecialCases && French.VerbEndings() == VerbEndings
  {
  }

  /** No key of `VERB_ENDINGS` is empty, so every French rewrite keeps a non-empty root. */
  lemma FrenchSuffixesNonEmpty()
    ensures French.NonEmptySuffixes()
  {
    FrenchDicts();
    NoKeyEndsInR();
  }

  /** Every suffix rewrite ends with one of `er`, `ir`, `re`, `voir` (app.py:9-17). */
  lemma RewriteEndsWithInfinitiveEnding(w: string, e: string)
    requires Fires(French, w, e)
    ensures exists ending :: ending in InfinitiveEndings && EndsWith(Rewrite(French, w, e), ending)
  {
    EndingValuesAreInfinitiveEndings();
    assert EndsWith(Rewrite(French, w, e), VerbEndings[e]);
  }

  /**
    A regular lemma keeps a non-empty prefix of the normalised word and
    ends with the infinitive ending of its longest firing suffix, one of
    `er`, `ir`, `re`, `voir`.
  */
  lemma FrenchRegularLemma(word: string)
    requires Normalize(word) !in SpecialCases
    requires exists e :: Fires(French, Normalize(word), e)
    ensures var w := Normalize(word); var r := Lemmatize(French, word);
      exists e :: && IsLongestFiring(French, w, e)
                  && |w| - |e| >= 1 && |r| == |w| - |e| + |French.VerbEndings()[e]|
                  && r[..|w| - |e|] == w[..|w| - |e|]
                  && French.VerbEndings()[e] in InfinitiveEndings && EndsWith(r, French.VerbEndings()[e])
  {
    RegularLemmaShape(French, word);
    FrenchSuffixesNonEmpty();
    EndingValuesAreInfinitiveEndings();
  }

  /** Every irregular form of app.py:19-33 is reached, written as listed, and gives its infinitive. */
  lemma IrregularFormsAreReached(k: string)
    requires k in SpecialCases
    ensures Lemmatize(French, k) == SpecialCases[k]
  {
    SpecialKeysAreNormal();
  }

  /**
    No key of either table ends in `r`, so a normalised word ending in `r`
    (every infinitive in `er`, `ir` or `voir`) is its own lemma.
  */
  lemma WordEndingInRIsFixpoint(w: string)
    requires IsNormal(w) && |w| > 0 && w[|w| - 1] == 'r'
    ensures Lemmatize(French, w) == w
  {
    FrenchDicts();
    NoKeyEndsInR();
    assert w !in SpecialCases;
    NoRuleFiresOnOtherLastLetter(French, w);
  }
}
