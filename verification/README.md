# French verb lemmatizer: a Dafny model

This project models the core of a small French verb lemmatizer
(`app.py`). The function `lemmatize_french_verb` turns a conjugated form
into its infinitive in four steps:

1. It lower-cases the word and strips the white space around it.
2. If the word is one of the irregular forms in `SPECIAL_CASES`, it returns
   that form's infinitive.
3. Otherwise it scans the keys of `VERB_ENDINGS`, longest first. The first
   suffix the word ends with that leaves a non-empty root is replaced by
   its infinitive ending (`er`, `ir`, `re` or `voir`).
4. If no suffix applies, it returns the normalised word unchanged.

The modules follow that structure:

- `Normalization` covers `word.lower().strip()`.
- `DictDisplay` gives the meaning of a Python dict display. Building the
  dict binds keys left to right, so the last entry of a key wins. Key
  iteration follows the order of each key's first entry.
- `Tables` holds the two dict displays, entry for entry, and facts about
  their keys and values.
- `SuffixScan` holds the length-sorted scan and the guard of the loop.
- `Lemmatizer` holds the function itself, for any pair of tables (a
  `Lexicon`). It also gives a declarative reading, "the irregular form,
  else the longest firing suffix, else the word", and proves that it
  equals the scan.
- `FrenchLemmatizer` instantiates it with the two tables of `app.py` and
  proves the properties that depend on what the tables contain.
- `LemmatizerExamples` works through concrete words.

The two tables are modelled as their entry sequences, and the dicts as
the maps those sequences build. No key is listed twice in either table,
but the model does not rely on that. Each example lemma proves that its
entry is the last binding of its key. An empty suffix key is modelled as
Python reads it: `word[:-0]` is the empty string, so such a rule replaces
the whole word. The French table has no empty key.

## Model

| member | source | states |
|---|---|---|
| Normalization.Lower | app.py:36 | `lower()` keeps the length and works in place: every character that is not a capital stays as it is, and every capital becomes the small letter whose upper case it is. No upper-case letter is left, and white space stays white space. |
| Normalization.Strip | app.py:36 | `strip()` returns the slice that starts at the first non-space character, with white space only before and after it. Neither end of the result is white space, and a trimmed word is unchanged. |
| Normalization.Normalize | app.py:36 | The normalised word is the lowered word without its surrounding white space. It has no upper-case letter, is no longer than the input, and an already-normal word is unchanged. |
| Normalization.NormalizeIdempotent | app.py:36 | Normalising twice gives the same word as normalising once. |
| DictDisplay.ToMap | app.py:8-33 | Building a dict from a display binds the keys left to right, so the last entry's key is bound to the last entry's value. `DictDisplay.ToMapRepresents` states the whole dict. |
| DictDisplay.ToMapRepresents | app.py:8-33 | The dict built from a display has exactly the entries' keys. An entry no later entry rebinds gives its key's value. Every binding of the dict is one of the entries. |
| DictDisplay.KeyOrder | app.py:39 | `.keys()` lists every entry's key and has no more keys than the display has entries. |
| DictDisplay.KeyOrderListsKeysOnce | app.py:39 | `VERB_ENDINGS.keys()` lists exactly the keys of the display, each only once. |
| DictDisplay.KeyOrderEnumeratesMap | app.py:39 | Iterating over the keys visits exactly the keys of the dict. |
| Tables.EndingValuesAreInfinitiveEndings | app.py:8-18 | Every suffix rule maps to `er`, `ir`, `re` or `voir`. |
| Tables.EndingKeyLengths | app.py:8-18 | Every suffix key has one to eight characters. |
| Tables.SpecialKeysAreNormal | app.py:19-33 | Every irregular key is already lower-case and trimmed, so a normalised input can reach it. |
| Tables.NoKeyEndsInR | app.py:8-33 | No key of either table is empty or ends in `r`. |
| Tables.NotAnIrregularForm | app.py:19-33 | A word that no verb's group of forms lists is not a key of `SPECIAL_CASES`. |
| SuffixScan.EndsWithIffRoot | app.py:40 | `word.endswith(ending)` holds exactly when the word is some root followed by the ending. |
| SuffixScan.AppliesIffNonEmptyRoot | app.py:40 | The loop's guard, `endswith` together with `len(word) > len(ending)`, holds exactly when the word is a non-empty root followed by the ending. |
| SuffixScan.SortByLengthDesc | app.py:39 | `sorted(keys, key=len, reverse=True)` gives the same keys, as a multiset, with lengths never increasing. |
| SuffixScan.FirstApplying | app.py:39-42 | The loop returns the first key that the word ends with and that leaves a non-empty root. It returns nothing exactly when no key applies. |
| SuffixScan.FirstApplyingIsLongest | app.py:39-40 | On keys sorted longest first, the key the loop returns is at least as long as every applying key. |
| SuffixScan.EqualLengthSuffixesCoincide | app.py:39-40 | Two suffixes of one word with the same length are equal, so distinct keys of equal length never both apply. |
| SuffixScan.ScanOrderIrrelevant | app.py:39 | Any two length-sorted listings of the same keys give the same scan result, whatever order they put equal-length keys in. |
| Lemmatizer.ScanOrder | app.py:39 | The scan order lists exactly the keys of `VERB_ENDINGS`, longest first. |
| Lemmatizer.Rewrite | app.py:41-42 | The rewrite ends with the rule's value. For a non-empty key it keeps the non-empty root `word[:-len(ending)]` in front, and its length is the root's length plus the value's. For an empty key, `word[:-0]` is empty and only the value is left. |
| Lemmatizer.LemmaOfNormal | app.py:37-43 | After normalisation, an irregular form gives its table value. Otherwise the longest firing suffix gives its rewrite, and if no suffix fires the word is unchanged. |
| Lemmatizer.Lemmatize | app.py:35-43 | Normalisation comes first. Then the irregular table takes precedence, then the longest firing suffix rewrites the word, and with neither the normalised word is returned. The function has no precondition. |
| Lemmatizer.LongestFiringUnique | app.py:39-40 | At most one firing suffix is longest. |
| Lemmatizer.LongestFiringExists | app.py:39-40 | If any suffix fires, a longest firing suffix exists. |
| Lemmatizer.LongestFiring | app.py:39-40 | Declarative longest match: the longest firing suffix, or nothing exactly when no suffix fires. |
| Lemmatizer.ScanFindsLongestFiring | app.py:39-40 | The sorted scan returns exactly the declarative longest match. |
| Lemmatizer.LemmatizeMatchesSpec | app.py:35-43 | The function equals its declarative reading: the irregular form, else the rewrite by the longest firing suffix, else the normalised word. |
| Lemmatizer.RegularLemmaShape | app.py:39-42 | When some suffix fires on a regular word, the lemma ends with the value of the longest firing suffix. If that suffix is non-empty, the lemma keeps the non-empty prefix of the normalised word in front of it; an empty suffix leaves only its value. |
| Lemmatizer.UnmatchedIsFixpoint | app.py:43 | A word no table entry matches comes back normalised, and lemmatizing that result again changes nothing. |
| Lemmatizer.LemmatizeNormalizesFirst | app.py:36 | Lemmatizing the normalised word gives the same result as lemmatizing the raw word. |
| FrenchLemmatizer.LemmatizeFrenchVerb | app.py:35-43 | With the tables of app.py:8-33, the result is the declarative reading: the irregular form of the normalised word, else its rewrite by the longest firing suffix, else the normalised word. |
| FrenchLemmatizer.FrenchSuffixesNonEmpty | app.py:8-18 | No key of `VERB_ENDINGS` is empty, so every French rewrite keeps a non-empty root. |
| FrenchLemmatizer.RewriteEndsWithInfinitiveEnding | app.py:8-18 | Every suffix rewrite by the French table ends with `er`, `ir`, `re` or `voir`. |
| FrenchLemmatizer.FrenchRegularLemma | app.py:35-43 | A regular French lemma keeps a non-empty root of the normalised word and ends with the infinitive ending of its longest firing suffix, one of `er`, `ir`, `re`, `voir`. |
| FrenchLemmatizer.IrregularFormsAreReached | app.py:19-43 | Every irregular form, typed as listed, gives the infinitive its table entry names. |
| FrenchLemmatizer.WordEndingInRIsFixpoint | app.py:8-43 | A normalised word ending in `r`, such as an infinitive in `er`, `ir` or `voir`, is its own lemma, because no key of either table ends in `r`. |
| LemmatizerExamples.MangeonsIsIrregular | app.py:32 | `mangeons` gives `manger` through its irregular entry, although the `ons` rule would fire. |
| LemmatizerExamples.FinissonsUsesIssons | app.py:13 | `finissons` gives `finir`. `issons` wins over the shorter rules `ons` and `s`, which also fire. |
| LemmatizerExamples.ParlonsUsesOns | app.py:9 | `parlons` gives `parler` by the `ons` rule. |
| LemmatizerExamples.VendreIsRewritten | app.py:9 | The infinitive `vendre` is not its own lemma: the `e` rule turns it into `vendrer`. |
| LemmatizerExamples.UnknownWordIsUnchanged | app.py:43 | `xyzz` matches nothing and comes back unchanged. |
| LemmatizerExamples.EmptyWordIsUnchanged | app.py:36-43 | The empty word gives the empty lemma. |
| LemmatizerExamples.EsIsEtre | app.py:20 | `es` gives `être` through its irregular entry, although the `s` rule fires on it. |
| LemmatizerExamples.AIsAvoir | app.py:23 | `a` gives `avoir` through its irregular entry; the `a` suffix rule cannot fire on it. |
| LemmatizerExamples.EmptySuffixKeyReplacesWord | app.py:41-42 | With a single empty suffix key mapped to `x`, the word `ab` gives `x`, because `word[:-0]` is empty. |
| LemmatizerExamples.UpperCaseIsFolded | app.py:26 | `ALLONS` normalises to `allons` and gives `aller`. |

## Left out

- The web layer is not modelled: the FastAPI application, the request model, the routes and their error responses (app.py:1-5, app.py:45-57). It is I/O around the function.
- The optional tense classifier and any natural-language library fallback are not modelled. They are not part of `app.py`.
- Normalization.Lower: lower-cases only ASCII `A`..`Z`, the Latin-1 capitals U+00C0..U+00DE other than U+00D7, `Œ` (U+0152) and `Ÿ` (U+0178). Python's `str.lower` covers all of Unicode, and sometimes changes the length (`İ`). Every other character is left unchanged, so lowering outside these letters is not stated.
- SuffixScan.SortByLengthDesc: does not state that equal-length keys keep their original order, as Python's stable sort does. `SuffixScan.ScanOrderIrrelevant` proves that this order never changes the result.
- DictDisplay.KeyOrderListsKeysOnce: states which keys the iteration lists and that none repeats. It does not state that they come in first-entry order, which the scan never depends on.
- `Tables.EndingKeyLengths` states one to eight characters, because `issaient` (app.py:14) has eight.
