/** Concrete inputs whose lemma follows from the two tables (app.py:8-43). */
module LemmatizerExamples {
  import opened Normalization
  import opened DictDisplay
  import opened Tables
  import opened SuffixScan
  import opened Lemmatizer
  import opened FrenchLemmatizer

  // Facts read off the table entries.

  lemma SomeEndingKeys()
    ensures "ons" in VerbEndings && "s" in VerbEndings && "a" in VerbEndings
  {
    assert ErEndings[0].0 == "ons" && ErEndings[12].0 == "a" && ReVoirEndings[5].0 == "s";
    assert EndingEntries[0] == ErEndings[0] && EndingEntries[12] == ErEndings[12];
    assert EndingEntries[43] == ReVoirEndings[5];
    EntryKeyIsKey(EndingEntries, 0);
    EntryKeyIsKey(EndingEntries, 12);
    EntryKeyIsKey(EndingEntries, 43);
  }

  lemma IssonsRule()
    ensures "issons" in VerbEndings && VerbEndings["issons"] == "ir"
  {
    assert IrEndings[2] == ("issons", "ir") && LastBinding(IrEndings, 2);
    LastBindingShift(ErEndings, IrEndings, 2);
    assert AbsentFrom(ReVoirEndings, "issons");
    LastBindingAcross(ErEndings + IrEndings, ReVoirEndings, 24);
    LastBindingWins(EndingEntries, 24);
  }

  lemma OnsRule()
    ensures "ons" in VerbEndings && VerbEndings["ons"] == "er"
  {
    assert ErEndings[0] == ("ons", "er") && LastBinding(ErEndings, 0);
    assert AbsentFrom(IrEndings, "ons") && AbsentFrom(ReVoirEndings, "ons");
    LastBindingAcross(ErEndings, IrEndings, 0);
    LastBindingAcross(ErEndings + IrEndings, ReVoirEndings, 0);
    LastBindingWins(EndingEntries, 0);
  }

  /** No suffix key of `finissons` is longer than `issons`. */
  predicate FinissonsBound(k: string) {
    EndsWith("finissons", k) ==> |k| <= 6
  }

  /** No suffix key of `parlons` is longer than `ons`. */
  predicate ParlonsBound(k: string) {
    EndsWith("parlons", k) ==> |k| <= 3
  }

  /** `xyzz` does not end with the key. */
  predicate NotSuffixOfXyzz(k: string) {
    !EndsWith("xyzz", k)
  }

  /** A property of keys holds throughout `VERB_ENDINGS` once it holds in each group. */
  lemma EveryEndingKey(p: string -> bool)
    requires EveryKey(ErEndings, p) && EveryKey(IrEndings, p) && EveryKey(ReVoirEndings, p)
    ensures forall k :: k in VerbEndings ==> p(k)
  {
    EveryKeyAppend(ErEndings, IrEndings, p);
    EveryKeyAppend(ErEndings + IrEndings, ReVoirEndings, p);
    KeysSatisfy(EndingEntries, p);
  }

  lemma FinissonsErKeys()
    ensures EveryKey(ErEndings, FinissonsBound)
  {
  }

  lemma FinissonsIrKeys()
    ensures EveryKey(IrEndings, FinissonsBound)
  {
  }

  lemma FinissonsSuffixes()
    ensures forall k :: k in VerbEndings && EndsWith("finissons", k) ==> |k| <= 6
  {
    FinissonsErKeys();
    FinissonsIrKeys();
    assert EveryKey(ReVoirEndings, FinissonsBound);
    EveryEndingKey(FinissonsBound);
  }

  lemma ParlonsErKeys()
    ensures EveryKey(ErEndings, ParlonsBound)
  {
  }

  lemma ParlonsIrKeys()
    ensures EveryKey(IrEndings, ParlonsBound)
  {
  }

  lemma ParlonsSuffixes()
    ensures forall k :: k in VerbEndings && EndsWith("parlons", k) ==> |k| <= 3
  {
    ParlonsErKeys();
    ParlonsIrKeys();
    assert EveryKey(ReVoirEndings, ParlonsBound);
    EveryEndingKey(ParlonsBound);
  }

  lemma XyzzErKeys()
    ensures EveryKey(ErEndings, NotSuffixOfXyzz)
  {
  }

  lemma XyzzIrKeys()
    ensures EveryKey(IrEndings, NotSuffixOfXyzz)
  {
  }

  lemma XyzzSuffixes()
    ensures forall k :: k in VerbEndings ==> !EndsWith("xyzz", k)
  {
    XyzzErKeys();
    XyzzIrKeys();
    assert EveryKey(ReVoirEndings, NotSuffixOfXyzz);
    EveryEndingKey(NotSuffixOfXyzz);
  }

  /** No suffix key of `vendre` is longer than `e`. */
  predicate VendreBound(k: string) {
    EndsWith("vendre", k) ==> |k| <= 1
  }

  lemma VendreErKeys()
    ensures EveryKey(ErEndings, VendreBound)
  {
  }

  lemma VendreIrKeys()
    ensures EveryKey(IrEndings, VendreBound)
  {
  }

  lemma VendreSuffixes()
    ensures forall k :: k in VerbEndings && EndsWith("vendre", k) ==> |k| <= 1
  {
    VendreErKeys();
    VendreIrKeys();
    assert EveryKey(ReVoirEndings, VendreBound);
    EveryEndingKey(VendreBound);
  }

  lemma MangeonsForm()
    ensures "mangeons" in SpecialCases && SpecialCases["mangeons"] == "manger"
  {
    assert SpecialEntries[62] == ("mangeons", "manger") && LastBinding(SpecialEntries, 62);
    LastBindingWins(SpecialEntries, 62);
  }

  lemma AllonsForm()
    ensures "allons" in SpecialCases && SpecialCases["allons"] == "aller"
  {
    assert SpecialEntries[34] == ("allons", "aller") && LastBinding(SpecialEntries, 34);
    LastBindingWins(SpecialEntries, 34);
  }

  lemma EsForm()
    ensures "es" in SpecialCases && SpecialCases["es"] == "\U{EA}tre"
  {
    EsEntry();
    LastBindingWins(SpecialEntries, 1);
  }

  lemma EsEntry()
    ensures |SpecialEntries| > 1 && SpecialEntries[1] == ("es", "\U{EA}tre")
    ensures LastBinding(SpecialEntries, 1)
  {
    assert EtreForms[1] == ("es", "\U{EA}tre") && LastBinding(EtreForms, 1);
    assert AbsentFrom(AvoirForms, "es");
    LastBindingAcross(EtreForms, AvoirForms, 1);
    EsLaterAbsent();
    LastBindingPastAvoir(1);
  }

  lemma EsLaterAbsent()
    ensures AbsentFrom(AllerForms, "es") && AbsentFrom(FaireForms, "es") && AbsentFrom(DireForms, "es")
    ensures AbsentFrom(VouloirForms, "es") && AbsentFrom(PouvoirForms, "es")
    ensures AbsentFrom(SavoirForms, "es") && AbsentFrom(MangerForms, "es")
  {
  }

  lemma AForm()
    ensures "a" in SpecialCases && SpecialCases["a"] == "avoir"
  {
    AEntry();
    LastBindingWins(SpecialEntries, 18);
  }

  lemma AEntry()
    ensures |SpecialEntries| > 18 && SpecialEntries[18] == ("a", "avoir")
    ensures LastBinding(SpecialEntries, 18)
  {
    assert AvoirForms[2] == ("a", "avoir") && LastBinding(AvoirForms, 2);
    LastBindingShift(EtreForms, AvoirForms, 2);
    ALaterAbsent();
    LastBindingPastAvoir(18);
  }

  lemma ALaterAbsent()
    ensures AbsentFrom(AllerForms, "a") && AbsentFrom(FaireForms, "a") && AbsentFrom(DireForms, "a")
    ensures AbsentFrom(VouloirForms, "a") && AbsentFrom(PouvoirForms, "a")
    ensures AbsentFrom(SavoirForms, "a") && AbsentFrom(MangerForms, "a")
  {
  }


  lemma SplitWords()
    ensures "finissons" == "fin" + "issons" && "finir" == "fin" + "ir"
    ensures "parlons" == "parl" + "ons" && "parler" == "parl" + "er"
    ensures "vendre" == "vendr" + "e" && "vendrer" == "vendr" + "er"
  {
  }

  /** A firing rule no longer than `e` among the keys `w` ends with is the longest firing rule. */
  lemma LongestByBound(w: string, e: string)
    requires Fires(French, w, e) && forall k :: k in VerbEndings && EndsWith(w, k) ==> |k| <= |e|
    ensures IsLongestFiring(French, w, e)
  {
    FrenchDicts();
  }

  /** A normalised regular word `root + e` whose longest firing rule is `e` has the lemma `root + ending`. */
  lemma RuleExample(w: string, e: string, root: string, ending: string)
    requires IsNormal(w) && w !in SpecialCases && IsLongestFiring(French, w, e)
    requires w == root + e && VerbEndings[e] == ending
    ensures Lemmatize(French, w) == root + ending
  {
    FrenchDicts();
    assert |e| > 0 by {
      NoKeyEndsInR();
    }
    assert Normalize(w) == w;
    assert Lemmatize(French, w) == Rewrite(French, w, e);
    assert w[..|w| - |e|] == root;
  }

  lemma FinissonsLongest()
    ensures IsLongestFiring(French, "finissons", "issons") && VerbEndings["issons"] == "ir"
  {
    FrenchDicts();
    IssonsRule();
    SplitWords();
    AppliesAfterRoot("fin", "issons");
    FinissonsSuffixes();
    LongestByBound("finissons", "issons");
  }

  lemma FinissonsShorterRules()
    ensures Fires(French, "finissons", "ons") && Fires(French, "finissons", "s")
  {
    FrenchDicts();
    SomeEndingKeys();
  }

  lemma ParlonsLongest()
    ensures IsLongestFiring(French, "parlons", "ons") && VerbEndings["ons"] == "er"
  {
    FrenchDicts();
    OnsRule();
    SplitWords();
    AppliesAfterRoot("parl", "ons");
    ParlonsSuffixes();
    LongestByBound("parlons", "ons");
  }

  lemma ERule()
    ensures "e" in VerbEndings && VerbEndings["e"] == "er"
  {
    assert ErEndings[4] == ("e", "er") && LastBinding(ErEndings, 4);
    assert AbsentFrom(IrEndings, "e") && AbsentFrom(ReVoirEndings, "e");
    LastBindingAcross(ErEndings, IrEndings, 4);
    LastBindingAcross(ErEndings + IrEndings, ReVoirEndings, 4);
    LastBindingWins(EndingEntries, 4);
  }

  lemma VendreLongest()
    ensures IsLongestFiring(French, "vendre", "e") && VerbEndings["e"] == "er"
  {
    FrenchDicts();
    ERule();
    SplitWords();
    AppliesAfterRoot("vendr", "e");
    VendreSuffixes();
    LongestByBound("vendre", "e");
  }

  // The examples.

  /** `mangeons` is an irregular form (app.py:32), so its table entry wins over the `ons` rule. */
  lemma MangeonsIsIrregular()
    ensures Fires(French, "mangeons", "ons")
    ensures Lemmatize(French, "mangeons") == "manger"
  {
    FrenchDicts();
    assert IsNormal("mangeons");
    MangeonsForm();
    SomeEndingKeys();
  }

  /**
    `finissons` ends with `issons`, `ons` and `s`; the longest, `issons`,
    is rewritten to `ir` (app.py:13).
  */
  lemma FinissonsUsesIssons()
    ensures Fires(French, "finissons", "ons") && Fires(French, "finissons", "s")
    ensures Lemmatize(French, "finissons") == "finir"
  {
    FinissonsShorterRules();
    assert IsNormal("finissons");
    NotAnIrregularForm("finissons");
    FinissonsLongest();
    SplitWords();
    RuleExample("finissons", "issons", "fin", "ir");
  }

  /** `parlons` is rewritten by the `ons` rule (app.py:9) to `parler`. */
  lemma ParlonsUsesOns()
    ensures Lemmatize(French, "parlons") == "parler"
  {
    assert IsNormal("parlons");
    NotAnIrregularForm("parlons");
    ParlonsLongest();
    SplitWords();
    RuleExample("parlons", "ons", "parl", "er");
  }

  /**
    An infinitive in `re` is not its own lemma: `vendre` ends with the
    `e` rule (app.py:9) and becomes `vendrer`.
  */
  lemma VendreIsRewritten()
    ensures Lemmatize(French, "vendre") == "vendrer"
  {
    assert IsNormal("vendre");
    NotAnIrregularForm("vendre");
    VendreLongest();
    SplitWords();
    RuleExample("vendre", "e", "vendr", "er");
  }

  /** `xyzz` matches no entry of either table and comes back unchanged. */
  lemma UnknownWordIsUnchanged()
    ensures Lemmatize(French, "xyzz") == "xyzz"
  {
    FrenchDicts();
    assert IsNormal("xyzz");
    NotAnIrregularForm("xyzz");
    XyzzSuffixes();
    UnmatchedIsFixpoint(French, "xyzz");
  }

  /** The empty word has the empty lemma. */
  lemma EmptyWordIsUnchanged()
    ensures Lemmatize(French, "") == ""
  {
    FrenchDicts();
    assert IsNormal("");
    NoKeyEndsInR();
    UnmatchedIsFixpoint(French, "");
  }

  /**
    `es` is a key of both tables (app.py:9, app.py:20); the irregular
    table decides, although the `s` rule would fire on it.
  */
  lemma EsIsEtre()
    ensures Fires(French, "es", "s") && Lemmatize(French, "es") == "\U{EA}tre"
  {
    FrenchDicts();
    assert IsNormal("es");
    EsForm();
    SomeEndingKeys();
  }

  /**
    `a` is a key of both tables (app.py:11, app.py:23); the irregular
    table decides. The `a` rule cannot fire on `a`, as it would leave no
    root.
  */
  lemma AIsAvoir()
    ensures "a" in VerbEndings && !Fires(French, "a", "a") && Lemmatize(French, "a") == "avoir"
  {
    FrenchDicts();
    assert IsNormal("a");
    AForm();
    SomeEndingKeys();
  }

  /** Upper case is folded before the lookup: `ALLONS` is read as `allons`, a form of _aller_. */
  lemma UpperCaseIsFolded()
    ensures Normalize("ALLONS") == "allons"
    ensures Lemmatize(French, "ALLONS") == "aller"
  {
    FrenchDicts();
    assert Lower("ALLONS") == "allons";
    assert Trimmed("allons");
    AllonsForm();
  }

  /**
    With an empty suffix key, `word[:-0]` is the empty string, so the rule
    replaces the whole word by its value (app.py:41-42). No key of the
    French table is empty.
  */
  lemma EmptySuffixKeyReplacesWord()
    ensures Lemmatize(Lexicon([], [("", "x")]), "ab") == "x"
  {
    var lex := Lexicon([], [("", "x")]);
    assert lex.VerbEndings() == map["" := "x"];
    assert IsNormal("ab");
    assert IsLongestFiring(lex, "ab", "");
  }
}
