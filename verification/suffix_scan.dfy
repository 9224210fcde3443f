/**
  The suffix scan of app.py:39-40: the keys are sorted by length, longest
  first, and the first key the word ends with, leaving a non-empty root,
  is the one applied.
*/
module SuffixScan {
  import opened Wrappers

  /** `w.endswith(e)`. */
  predicate EndsWith(w: string, e: string) {
    |e| <= |w| && w[|w| - |e|..] == e
  }

  /** The guard of app.py:40: `w` ends with `e` and removing `e` leaves at least one character. */
  predicate Applies(w: string, e: string) {
    EndsWith(w, e) && |w| > |e|
  }

  /** `w.endswith(e)` holds exactly when `w` is some root followed by `e`. */
  lemma EndsWithIffRoot(w: string, e: string)
    ensures EndsWith(w, e) <==> exists root :: w == root + e
  {
    if EndsWith(w, e) {
      assert w == w[..|w| - |e|] + e;
    }
    forall root | w == root + e
      ensures EndsWith(w, e)
    {
      assert w[|root|..] == e;
    }
  }

  /** The guard of app.py:40 holds exactly when `w` is a non-empty root followed by `e`. */
  lemma AppliesIffNonEmptyRoot(w: string, e: string)
    ensures Applies(w, e) <==> exists root :: root != [] && w == root + e
  {
    EndsWithIffRoot(w, e);
  }

  /** A suffix appended to a non-empty root applies to the result. */
  lemma AppliesAfterRoot(root: string, e: string)
    requires root != []
    ensures Applies(root + e, e)
  {
    assert (root + e)[|root|..] == e;
  }

  /** Two suffixes of one word that have the same length are the same string. */
  lemma EqualLengthSuffixesCoincide(w: string, e1: string, e2: string)
    requires EndsWith(w, e1) && EndsWith(w, e2) && |e1| == |e2|
    ensures e1 == e2
  {
  }

  /** Lengths never increase from left to right. */
  predicate SortedByLengthDesc(s: seq<string>) {
    forall i, j :: 0 <= i < j < |s| ==> |s[i]| >= |s[j]|
  }

  /** A head no shorter than anything after it keeps a sorted listing sorted. */
  lemma PrependSorted(h: string, rest: seq<string>)
    requires SortedByLengthDesc(rest)
    requires forall y :: y in rest ==> |y| <= |h|
    ensures SortedByLengthDesc([h] + rest)
  {
    forall i, j | 0 <= i < j < |[h] + rest|
      ensures |([h] + rest)[i]| >= |([h] + rest)[j]|
    {
      assert ([h] + rest)[j] == rest[j - 1];
      if i > 0 {
        assert ([h] + rest)[i] == rest[i - 1];
      }
    }
  }

  /**
    Inserts `x` after every element at least as long as it, so that among
    equal lengths the earlier-inserted elements stay first.
  */
  function InsertByLength(x: string, s: seq<string>): (r: seq<string>)
    requires SortedByLengthDesc(s)
    ensures SortedByLengthDesc(r)
    ensures multiset(r) == multiset(s) + multiset{x}
    ensures forall y :: y in r <==> y in s || y == x
  {
    if |s| == 0 then [x]
    else if |s[0]| >= |x| then
      var rest := InsertByLength(x, s[1..]);
      assert s == [s[0]] + s[1..];
      assert forall y :: y in s[1..] ==> |y| <= |s[0]|;
      PrependSorted(s[0], rest);
      [s[0]] + rest
    else
      PrependSorted(x, s);
      [x] + s
  }

  /**
    `sorted(keys, key=len, reverse=True)` (app.py:39): the same keys,
    longest first. Each key is inserted after every key at least as long,
    as Python's stable sort would place it; the order among keys of equal
    length is not stated, since `ScanOrderIrrelevant` shows the scan never
    depends on it.
  */
  function SortByLengthDesc(keys: seq<string>): (r: seq<string>)
    ensures SortedByLengthDesc(r)
    ensures multiset(r) == multiset(keys)
    ensures forall k :: k in r <==> k in keys
  {
    if |keys| == 0 then []
    else
      var init := keys[..|keys| - 1];
      assert keys == init + [keys[|keys| - 1]];
      InsertByLength(keys[|keys| - 1], SortByLengthDesc(init))
  }

  /** `keys[i]` applies to `w` and no key before it does. */
  predicate FirstHit(w: string, keys: seq<string>, i: int) {
    && 0 <= i < |keys|
    && Applies(w, keys[i])
    && forall j :: 0 <= j < i ==> !Applies(w, keys[j])
  }

  /** The loop of app.py:39-42: the first key, in order, that applies to `w`. */
  function FirstApplying(w: string, keys: seq<string>): (r: Option<string>)
    ensures r.Some? ==> exists i :: FirstHit(w, keys, i) && keys[i] == r.value
    ensures r.None? <==> forall j :: 0 <= j < |keys| ==> !Applies(w, keys[j])
  {
    if |keys| == 0 then None
    else if Applies(w, keys[0]) then
      assert FirstHit(w, keys, 0);
      Some(keys[0])
    else
      var r := FirstApplying(w, keys[1..]);
      assert forall j :: 1 <= j < |keys| ==> keys[j] == keys[1..][j - 1];
      if r.Some? then
        var i :| FirstHit(w, keys[1..], i) && keys[1..][i] == r.value;
        assert FirstHit(w, keys, i + 1);
        r
      else
        r
  }

  /**
    On keys sorted longest first, the first key that applies is at least as
    long as every key that applies.
  */
  lemma FirstApplyingIsLongest(w: string, keys: seq<string>)
    requires SortedByLengthDesc(keys)
    ensures match FirstApplying(w, keys)
      case Some(e) =>
        Applies(w, e) && e in keys && forall k :: k in keys && Applies(w, k) ==> |k| <= |e|
      case None =>
        forall k :: k in keys ==> !Applies(w, k)
  {
    match FirstApplying(w, keys)
    case Some(e) =>
      var i :| FirstHit(w, keys, i) && keys[i] == e;
      forall k | k in keys && Applies(w, k)
        ensures |k| <= |e|
      {
        var j :| 0 <= j < |keys| && keys[j] == k;
        assert i <= j;
      }
    case None =>
  }

  /**
    Tie-independence: any two listings of the same keys, each sorted
    longest first, give the same scan result, whatever order they put keys
    of equal length in.
  */
  lemma ScanOrderIrrelevant(w: string, keys1: seq<string>, keys2: seq<string>)
    requires SortedByLengthDesc(keys1) && SortedByLengthDesc(keys2)
    requires forall k :: k in keys1 <==> k in keys2
    ensures FirstApplying(w, keys1) == FirstApplying(w, keys2)
  {
    FirstApplyingIsLongest(w, keys1);
    FirstApplyingIsLongest(w, keys2);
    match FirstApplying(w, keys1)
    case Some(e1) =>
      var e2 := FirstApplying(w, keys2).value;
      EqualLengthSuffixesCoincide(w, e1, e2);
    case None =>
  }
}
