/**
  `lemmatize_french_verb` (app.py:35-43), for any pair of tables: normalise
  the word, look it up among the irregular forms, otherwise rewrite its
  longest applicable suffix, otherwise return it unchanged.
*/
module Lemmatizer {
  import opened Wrappers
  import opened Normalization
  import opened DictDisplay
  import opened SuffixScan

  /**
    The two tables the lemmatizer reads, each given by the entries of its
    dict display: the irregular forms (`SPECIAL_CASES`) and the suffix
    rules (`VERB_ENDINGS`).
  */
  datatype Lexicon = Lexicon(irregular: Entries, suffixes: Entries) {
    /** `SPECIAL_CASES` as a dict. */
    function SpecialCases(): map<string, string> {
      ToMap(irregular)
    }

    /** `VERB_ENDINGS` as a dict. */
    function VerbEndings(): map<string, string> {
      ToMap(suffixes)
    }

    /** No suffix key is empty, so every rewrite keeps a non-empty root. */
    predicate NonEmptySuffixes() {
      forall k :: k in VerbEndings() ==> k != []
    }
  }

  /** Suffix rule `e` fires on the normalised word `w` (app.py:40). */
  predicate Fires(lex: Lexicon, w: string, e: string) {
    e in lex.VerbEndings() && Applies(w, e)
  }

  /** `e` fires on `w` and no firing rule has a longer suffix. */
  ghost predicate IsLongestFiring(lex: Lexicon, w: string, e: string) {
    Fires(lex, w, e) && forall e' :: Fires(lex, w, e') ==> |e'| <= |e|
  }

  /** The longest firing rule is unique. */
  lemma LongestFiringUnique(lex: Lexicon, w: string, e1: string, e2: string)
    requires IsLongestFiring(lex, w, e1) && IsLongestFiring(lex, w, e2)
    ensures e1 == e2
  {
    EqualLengthSuffixesCoincide(w, e1, e2);
  }

  /** When some rule of length at most `n` fires, and none longer, one of the firing rules is the longest. */
  lemma {:induction false} LongestFiringExists(lex: Lexicon, w: string, n: nat)
    requires exists e :: Fires(lex, w, e) && |e| <= n
    requires forall e :: Fires(lex, w, e) ==> |e| <= n
    ensures exists e :: IsLongestFiring(lex, w, e)
    decreases n
  {
    if exists e :: Fires(lex, w, e) && |e| == n {
      var e :| Fires(lex, w, e) && |e| == n;
      assert IsLongestFiring(lex, w, e);
    } else {
      LongestFiringExists(lex, w, n - 1);
    }
  }

  /**
    The suffix rewrite of app.py:41-42, `word[:-len(ending)] + VERB_ENDINGS[ending]`:
    the root left by removing `e`, followed by the infinitive ending the
    rule maps `e` to. Python reads `word[:-0]` as `word[:0]`, so an empty
    key leaves an empty root.
  */
  function Rewrite(lex: Lexicon, w: string, e: string): (r: string)
    requires Fires(lex, w, e)
    ensures EndsWith(r, lex.VerbEndings()[e])
    ensures |e| > 0 ==> |r| == |w| - |e| + |lex.VerbEndings()[e]|
    ensures |e| > 0 ==> |w| - |e| >= 1 && r[..|w| - |e|] == w[..|w| - |e|]
    ensures |e| == 0 ==> r == lex.VerbEndings()[e]
  {
    (if |e| == 0 then [] else w[..|w| - |e|]) + lex.VerbEndings()[e]
  }

  /** The scan order of app.py:39: the keys of `VERB_ENDINGS` in iteration order, sorted longest first. */
  function ScanOrder(lex: Lexicon): (keys: seq<string>)
    ensures SortedByLengthDesc(keys)
    ensures forall k :: k in keys <==> k in lex.VerbEndings()
  {
    KeyOrderEnumeratesMap(lex.suffixes);
    SortByLengthDesc(KeyOrder(lex.suffixes))
  }

  /** The suffix the scan applies is the longest firing one; the scan finds none only when none fires. */
  lemma ScanPicksLongest(lex: Lexicon, w: string)
    ensures match FirstApplying(w, ScanOrder(lex))
      case Some(e) => IsLongestFiring(lex, w, e)
      case None => forall e :: !Fires(lex, w, e)
  {
    var keys := ScanOrder(lex);
    FirstApplyingIsLongest(w, keys);
    match FirstApplying(w, keys)
    case Some(e) =>
      assert e in keys && Applies(w, e);
      forall e' | Fires(lex, w, e')
        ensures |e'| <= |e|
      {
        assert e' in keys;
      }
    case None =>
  }

  /**
    The body of `lemmatize_french_verb` after normalisation (app.py:37-43):
    the irregular form, else the rewrite by the longest firing suffix,
    else the word itself.
  */
  function LemmaOfNormal(lex: Lexicon, w: string): (r: string)
    ensures w in lex.SpecialCases() ==> r == lex.SpecialCases()[w]
    ensures forall e :: w !in lex.SpecialCases() && IsLongestFiring(lex, w, e) ==> r == Rewrite(lex, w, e)
    ensures w !in lex.SpecialCases() && (forall e :: !Fires(lex, w, e)) ==> r == w
  {
    if w in lex.SpecialCases() then lex.SpecialCases()[w]
    else
      ScanPicksLongest(lex, w);
      match FirstApplying(w, ScanOrder(lex))
      case Some(e) =>
        assert forall e' :: IsLongestFiring(lex, w, e') ==> e' == e by {
          forall e' | IsLongestFiring(lex, w, e')
            ensures e' == e
          {
            LongestFiringUnique(lex, w, e, e');
          }
        }
        Rewrite(lex, w, e)
      case None => w
  }

  /**
    `lemmatize_french_verb(word)` (app.py:35-43) over the tables `lex`.
    Every string has a lemma: the irregular form of the normalised word,
    else its rewrite by the longest firing suffix, else the normalised
    word itself.
  */
  function Lemmatize(lex: Lexicon, word: string): (r: string)
    ensures var w := Normalize(word);
      && (w in lex.SpecialCases() ==> r == lex.SpecialCases()[w])
      && (forall e :: w !in lex.SpecialCases() && IsLongestFiring(lex, w, e) ==> r == Rewrite(lex, w, e))
      && (w !in lex.SpecialCases() && (forall e :: !Fires(lex, w, e)) ==> r == w)
  {
    LemmaOfNormal(lex, Normalize(word))
  }

  /** The declarative longest match: the firing rule of greatest suffix length, if any rule fires. */
  ghost function LongestFiring(lex: Lexicon, w: string): (r: Option<string>)
    ensures r.Some? ==> IsLongestFiring(lex, w, r.value)
    ensures r.None? <==> forall e :: !Fires(lex, w, e)
  {
    if exists e :: Fires(lex, w, e) then
      LongestFiringExists(lex, w, |w|);
      var e :| IsLongestFiring(lex, w, e);
      Some(e)
    else None
  }

  /**
    The declarative reading of the rule: the irregular form if there is
    one, otherwise the rewrite by the longest firing suffix, otherwise the
    normalised word.
  */
  ghost function LemmaSpec(lex: Lexicon, word: string): string {
    var w := Normalize(word);
    if w in lex.SpecialCases() then lex.SpecialCases()[w]
    else
      match LongestFiring(lex, w)
      case Some(e) => Rewrite(lex, w, e)
      case None => w
  }

  /** The sorted scan of app.py:39-40 finds exactly the declarative longest match. */
  lemma ScanFindsLongestFiring(lex: Lexicon, w: string)
    ensures FirstApplying(w, ScanOrder(lex)) == LongestFiring(lex, w)
  {
    ScanPicksLongest(lex, w);
    var found := FirstApplying(w, ScanOrder(lex));
    if found.Some? {
      LongestFiringUnique(lex, w, found.value, LongestFiring(lex, w).value);
    }
  }

  /** The sorted scan computes the declarative longest-match rule. */
  lemma LemmatizeMatchesSpec(lex: Lexicon, word: string)
    ensures Lemmatize(lex, word) == LemmaSpec(lex, word)
  {
    ScanFindsLongestFiring(lex, Normalize(word));
  }

  /**
    The shape of a regular lemma: the normalised word with its longest
    firing suffix replaced by that suffix's infinitive ending. With a
    non-empty suffix the root is kept and is non-empty; an empty suffix
    key leaves only its value.
  */
  lemma RegularLemmaShape(lex: Lexicon, word: string)
    requires Normalize(word) !in lex.SpecialCases()
    requires exists e :: Fires(lex, Normalize(word), e)
    ensures var w := Normalize(word); var r := Lemmatize(lex, word);
      exists e :: && IsLongestFiring(lex, w, e)
                  && EndsWith(r, lex.VerbEndings()[e])
                  && (|e| > 0 ==> && |w| - |e| >= 1 && r[..|w| - |e|] == w[..|w| - |e|]
                                  && |r| == |w| - |e| + |lex.VerbEndings()[e]|)
                  && (|e| == 0 ==> r == lex.VerbEndings()[e])
  {
    var w := Normalize(word);
    LongestFiringExists(lex, w, |w|);
    var e :| IsLongestFiring(lex, w, e);
    assert Lemmatize(lex, word) == Rewrite(lex, w, e);
  }

  /** No suffix rule fires on a word whose last letter ends no key. */
  lemma NoRuleFiresOnOtherLastLetter(lex: Lexicon, w: string)
    requires |w| > 0
    requires forall k :: k in lex.VerbEndings() ==> k != [] && k[|k| - 1] != w[|w| - 1]
    ensures forall e :: !Fires(lex, w, e)
  {
  }

  /** A word no table entry matches comes back normalised, and a second call leaves it alone. */
  lemma UnmatchedIsFixpoint(lex: Lexicon, word: string)
    requires Normalize(word) !in lex.SpecialCases()
    requires forall e :: !Fires(lex, Normalize(word), e)
    ensures Lemmatize(lex, word) == Normalize(word)
    ensures Lemmatize(lex, Lemmatize(lex, word)) == Lemmatize(lex, word)
  {
  }

  /** Case and surrounding white space do not change the lemma. */
  lemma LemmatizeNormalizesFirst(lex: Lexicon, word: string)
    ensures Lemmatize(lex, Normalize(word)) == Lemmatize(lex, word)
  {
    NormalizeIdempotent(word);
  }
}
