/**
  The two constant tables of the lemmatizer (app.py:8-33), each given by
  the entries of its dict display, one chunk per source line.
*/
module Tables {
  import opened DictDisplay
  import opened Normalization

  /** The entries of `VERB_ENDINGS` that rewrite to `er` (app.py:9-12). */
  const ErEndings: Entries :=
    [("ons", "er"), ("ez", "er"), ("ent", "er"), ("es", "er"), ("e", "er")] +
    [("ais", "er"), ("ait", "er"), ("ions", "er"), ("iez", "er"), ("aient", "er")] +
    [("ai", "er"), ("as", "er"), ("a", "er"), ("âmes", "er"), ("âtes", "er"), ("èrent", "er")] +
    [("erai", "er"), ("eras", "er"), ("era", "er"), ("erons", "er"), ("erez", "er"), ("eront", "er")]

  /** The entries of `VERB_ENDINGS` that rewrite to `ir` (app.py:13-15). */
  const IrEndings: Entries :=
    [("is", "ir"), ("it", "ir"), ("issons", "ir"), ("issez", "ir"), ("issent", "ir")] +
    [("issais", "ir"), ("issait", "ir"), ("issions", "ir"), ("issiez", "ir"), ("issaient", "ir")] +
    [("irai", "ir"), ("iras", "ir"), ("ira", "ir"), ("irons", "ir"), ("irez", "ir"), ("iront", "ir")]

  /** The entries of `VERB_ENDINGS` that rewrite to `re` or `voir` (app.py:16-17). */
  const ReVoirEndings: Entries :=
    [("ds", "re"), ("d", "re"), ("dons", "re"), ("dez", "re"), ("dent", "re")] +
    [("s", "re"), ("t", "re"), ("vons", "voir"), ("vez", "voir"), ("vent", "voir")]

  /** The entries of `VERB_ENDINGS` (app.py:8-18), in source order. */
  const EndingEntries: Entries := ErEndings + IrEndings + ReVoirEndings

  /** The irregular forms of _être_ (app.py:20-22). */
  const EtreForms: Entries :=
    [("suis", "être"), ("es", "être"), ("est", "être"), ("sommes", "être"), ("êtes", "être"), ("sont", "être")] +
    [("étais", "être"), ("était", "être"), ("étions", "être"), ("étiez", "être"), ("étaient", "être")] +
    [("fus", "être"), ("fut", "être"), ("fûmes", "être"), ("fûtes", "être"), ("furent", "être")]

  /** The irregular forms of _avoir_ (app.py:23-25). */
  const AvoirForms: Entries :=
    [("ai", "avoir"), ("as", "avoir"), ("a", "avoir"), ("avons", "avoir"), ("avez", "avoir"), ("ont", "avoir")] +
    [("avais", "avoir"), ("avait", "avoir"), ("avions", "avoir"), ("aviez", "avoir"), ("avaient", "avoir")] +
    [("eus", "avoir"), ("eut", "avoir"), ("eûmes", "avoir"), ("eûtes", "avoir"), ("eurent", "avoir")]

  /** The irregular forms of _aller_ (app.py:26). */
  const AllerForms: Entries :=
    [("vais", "aller"), ("va", "aller"), ("allons", "aller"), ("allez", "aller"), ("vont", "aller")]

  /** The irregular forms of _faire_ (app.py:27). */
  const FaireForms: Entries :=
    [("fais", "faire"), ("fait", "faire"), ("faisons", "faire"), ("faites", "faire"), ("font", "faire")]

  /** The irregular forms of _dire_ (app.py:28). */
  const DireForms: Entries :=
    [("dis", "dire"), ("dit", "dire"), ("disons", "dire"), ("dites", "dire"), ("disent", "dire")]

  /** The irregular forms of _vouloir_ (app.py:29). */
  const VouloirForms: Entries :=
    [("veux", "vouloir"), ("veut", "vouloir"), ("voulons", "vouloir"), ("voulez", "vouloir"), ("veulent", "vouloir")]

  /** The irregular forms of _pouvoir_ (app.py:30). */
  const PouvoirForms: Entries :=
    [("peux", "pouvoir"), ("peut", "pouvoir"), ("pouvons", "pouvoir"), ("pouvez", "pouvoir"), ("peuvent", "pouvoir")]

  /** The irregular forms of _savoir_ (app.py:31). */
  const SavoirForms: Entries :=
    [("sais", "savoir"), ("sait", "savoir"), ("savons", "savoir"), ("savez", "savoir"), ("savent", "savoir")]

  /** The irregular forms of _manger_ (app.py:32). */
  const MangerForms: Entries :=
    [("mangeons", "manger"), ("mangez", "manger"), ("mangent", "manger")]

  /** The entries of `SPECIAL_CASES` (app.py:19-33), verb by verb. */
  const SpecialEntries: Entries :=
    EtreForms + AvoirForms + AllerForms + FaireForms + DireForms
    + VouloirForms + PouvoirForms + SavoirForms + MangerForms

  /** `VERB_ENDINGS` as a dict. */
  const VerbEndings: map<string, string> := ToMap(EndingEntries)

  /** `VERB_ENDINGS.keys()` in iteration order (app.py:39). */
  const EndingKeys: seq<string> := KeyOrder(EndingEntries)

  /** `SPECIAL_CASES` as a dict. */
  const SpecialCases: map<string, string> := ToMap(SpecialEntries)

  /** The infinitive endings a suffix rule can produce. */
  const InfinitiveEndings: set<string> := {"er", "ir", "re", "voir"}

  /** A non-empty key whose last letter is not `r`, so no infinitive in `er`, `ir` or `voir` ends with it. */
  predicate NotEndingInR(k: string) {
    k != [] && k[|k| - 1] != 'r'
  }

  /** A suffix entry: a key of one to eight characters, not ending in `r`, and an infinitive ending. */
  predicate EndingShape(k: string, v: string) {
    |k| <= 8 && NotEndingInR(k) && v in InfinitiveEndings
  }

  /** Every suffix rule rewrites to one of the four infinitive endings. */
  lemma EndingValuesAreInfinitiveEndings()
    ensures forall k :: k in VerbEndings ==> VerbEndings[k] in InfinitiveEndings
  {
    EndingEntriesShape();
    BindingsSatisfy(EndingEntries, EndingShape);
  }

  /** Suffix keys are between one and eight characters long. */
  lemma EndingKeyLengths()
    ensures forall k :: k in VerbEndings ==> 1 <= |k| <= 8
  {
    EndingEntriesShape();
    BindingsSatisfy(EndingEntries, EndingShape);
  }

  /** Every entry of `VERB_ENDINGS` has the shape of a suffix rule, group by group. */
  lemma EndingEntriesShape()
    ensures EveryBinding(EndingEntries, EndingShape)
  {
    ErEndingsShape();
    IrEndingsShape();
    ReVoirEndingsShape();
    EveryBindingAppend(ErEndings, IrEndings, EndingShape);
    EveryBindingAppend(ErEndings + IrEndings, ReVoirEndings, EndingShape);
  }

  lemma ErEndingsShape()
    ensures EveryBinding(ErEndings, EndingShape)
  {
  }

  lemma IrEndingsShape()
    ensures EveryBinding(IrEndings, EndingShape)
  {
  }

  lemma ReVoirEndingsShape()
    ensures EveryBinding(ReVoirEndings, EndingShape)
  {
  }

  /** A non-empty word of lower-case letters whose last letter is not `r`. */
  predicate WellFormedKey(k: string) {
    && NotEndingInR(k)
    && forall j :: 0 <= j < |k| ==> IsLower(k[j])
  }

  /** Every key of the entries is well formed. */
  ghost predicate KeysWellFormed(t: Entries) {
    forall i :: 0 <= i < |t| ==> WellFormedKey(t[i].0)
  }

  lemma WellFormedAppend(a: Entries, b: Entries)
    requires KeysWellFormed(a) && KeysWellFormed(b)
    ensures KeysWellFormed(a + b)
  {
    assert forall i :: |a| <= i < |a + b| ==> (a + b)[i] == b[i - |a|];
  }

  /** The irregular keys are well formed, verb by verb. */
  lemma SpecialEntriesWellFormed()
    ensures KeysWellFormed(SpecialEntries)
  {
    EtreFormsWellFormed();
    AvoirFormsWellFormed();
    AllerFormsWellFormed();
    FaireFormsWellFormed();
    DireFormsWellFormed();
    VouloirFormsWellFormed();
    PouvoirFormsWellFormed();
    SavoirFormsWellFormed();
    MangerFormsWellFormed();
    WellFormedAppend(EtreForms, AvoirForms);
    WellFormedAppend(EtreForms + AvoirForms, AllerForms);
    WellFormedAppend(EtreForms + AvoirForms + AllerForms, FaireForms);
    WellFormedAppend(EtreForms + AvoirForms + AllerForms + FaireForms, DireForms);
    WellFormedAppend(EtreForms + AvoirForms + AllerForms + FaireForms + DireForms, VouloirForms);
    WellFormedAppend(EtreForms + AvoirForms + AllerForms + FaireForms + DireForms + VouloirForms,
                     PouvoirForms);
    WellFormedAppend(EtreForms + AvoirForms + AllerForms + FaireForms + DireForms + VouloirForms
                     + PouvoirForms, SavoirForms);
    WellFormedAppend(EtreForms + AvoirForms + AllerForms + FaireForms + DireForms + VouloirForms
                     + PouvoirForms + SavoirForms, MangerForms);
  }

  lemma EtreFormsWellFormed()
    ensures KeysWellFormed(EtreForms)
  {
  }

  lemma AvoirFormsWellFormed()
    ensures KeysWellFormed(AvoirForms)
  {
  }

  lemma AllerFormsWellFormed()
    ensures KeysWellFormed(AllerForms)
  {
  }

  lemma FaireFormsWellFormed()
    ensures KeysWellFormed(FaireForms)
  {
  }

  lemma DireFormsWellFormed()
    ensures KeysWellFormed(DireForms)
  {
  }

  lemma VouloirFormsWellFormed()
    ensures KeysWellFormed(VouloirForms)
  {
  }

  lemma PouvoirFormsWellFormed()
    ensures KeysWellFormed(PouvoirForms)
  {
  }

  lemma SavoirFormsWellFormed()
    ensures KeysWellFormed(SavoirForms)
  {
  }

  lemma MangerFormsWellFormed()
    ensures KeysWellFormed(MangerForms)
  {
  }

  /** Every irregular key is a well-formed key. */
  lemma SpecialKeysWellFormed()
    ensures forall k :: k in SpecialCases ==> WellFormedKey(k)
  {
    SpecialEntriesWellFormed();
    assert EveryKey(SpecialEntries, WellFormedKey);
    KeysSatisfy(SpecialEntries, WellFormedKey);
  }

  /**
    Every irregular key is already normalised, so the lookup of app.py:37,
    made after normalisation, can reach each of them.
  */
  lemma SpecialKeysAreNormal()
    ensures forall k :: k in SpecialCases ==> IsNormal(k) && Normalize(k) == k
  {
    SpecialKeysWellFormed();
  }

  /** No key of either table ends in `r`. */
  lemma NoKeyEndsInR()
    ensures forall k :: k in VerbEndings ==> NotEndingInR(k)
    ensures forall k :: k in SpecialCases ==> NotEndingInR(k)
  {
    EndingEntriesShape();
    BindingsSatisfy(EndingEntries, EndingShape);
    SpecialKeysWellFormed();
  }

  /**
    An entry among the forms of _être_ and _avoir_ that is the last binding
    of its key there stays the last one when no later verb lists the key.
  */
  lemma LastBindingPastAvoir(i: int)
    requires 0 <= i < |EtreForms + AvoirForms| && LastBinding(EtreForms + AvoirForms, i)
    requires var k := (EtreForms + AvoirForms)[i].0;
      && AbsentFrom(AllerForms, k) && AbsentFrom(FaireForms, k) && AbsentFrom(DireForms, k)
      && AbsentFrom(VouloirForms, k) && AbsentFrom(PouvoirForms, k) && AbsentFrom(SavoirForms, k)
      && AbsentFrom(MangerForms, k)
    ensures i < |SpecialEntries| && SpecialEntries[i] == (EtreForms + AvoirForms)[i]
    ensures LastBinding(SpecialEntries, i)
  {
    var t1 := EtreForms + AvoirForms;
    LastBindingAcross(t1, AllerForms, i);
    var t2 := t1 + AllerForms;
    LastBindingAcross(t2, FaireForms, i);
    var t3 := t2 + FaireForms;
    LastBindingAcross(t3, DireForms, i);
    var t4 := t3 + DireForms;
    LastBindingAcross(t4, VouloirForms, i);
    var t5 := t4 + VouloirForms;
    LastBindingAcross(t5, PouvoirForms, i);
    var t6 := t5 + PouvoirForms;
    LastBindingAcross(t6, SavoirForms, i);
    var t7 := t6 + SavoirForms;
    LastBindingAcross(t7, MangerForms, i);
    assert SpecialEntries == t7 + MangerForms;
  }

  /** A word that none of the verbs lists is not an irregular form. */
  lemma NotAnIrregularForm(k: string)
    requires AbsentFrom(EtreForms, k) && AbsentFrom(AvoirForms, k) && AbsentFrom(AllerForms, k)
    requires AbsentFrom(FaireForms, k) && AbsentFrom(DireForms, k) && AbsentFrom(VouloirForms, k)
    requires AbsentFrom(PouvoirForms, k) && AbsentFrom(SavoirForms, k) && AbsentFrom(MangerForms, k)
    ensures k !in SpecialCases
  {
    AbsentFromAppend(EtreForms, AvoirForms, k);
    AbsentFromAppend(EtreForms + AvoirForms, AllerForms, k);
    AbsentFromAppend(EtreForms + AvoirForms + AllerForms, FaireForms, k);
    AbsentFromAppend(EtreForms + AvoirForms + AllerForms + FaireForms, DireForms, k);
    AbsentFromAppend(EtreForms + AvoirForms + AllerForms + FaireForms + DireForms, VouloirForms, k);
    AbsentFromAppend(EtreForms + AvoirForms + AllerForms + FaireForms + DireForms + VouloirForms,
                     PouvoirForms, k);
    AbsentFromAppend(EtreForms + AvoirForms + AllerForms + FaireForms + DireForms + VouloirForms
                     + PouvoirForms, SavoirForms, k);
    AbsentFromAppend(EtreForms + AvoirForms + AllerForms + FaireForms + DireForms + VouloirForms
                     + PouvoirForms + SavoirForms, MangerForms, k);
    AbsentKey(SpecialEntries, k);
  }
}
