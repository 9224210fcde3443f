/**
  A Python dict display `{k1: v1, k2: v2, ...}` given as its sequence of
  entries. Building the dict binds the keys from left to right, so a key
  written twice keeps the value of its last entry, while iteration over
  the keys follows the order of their first entry.
*/
module DictDisplay {

  type Entries = seq<(string, string)>

  /** Entry `i` holds a key that no later entry binds again. */
  predicate LastBinding(t: Entries, i: int)
    requires 0 <= i < |t|
  {
    forall j :: i < j < |t| ==> t[j].0 != t[i].0
  }

  /**
    `m` is the dict the display `t` builds: its keys are the keys of the
    entries, the last entry of a key gives its value, and every binding of
    `m` is one of the entries.
  */
  ghost predicate Represents(t: Entries, m: map<string, string>) {
    && (forall k :: k in m <==> exists i :: 0 <= i < |t| && t[i].0 == k)
    && (forall i :: 0 <= i < |t| && LastBinding(t, i) ==> t[i].0 in m && m[t[i].0] == t[i].1)
    && (forall k :: k in m ==> exists i :: 0 <= i < |t| && t[i] == (k, m[k]))
  }

  /**
    The dict the display evaluates to, built by binding the entries from
    left to right, so the last entry's binding is the one that stays.
  */
  function ToMap(t: Entries): (m: map<string, string>)
    ensures |t| > 0 ==> t[|t| - 1].0 in m && m[t[|t| - 1].0] == t[|t| - 1].1
  {
    if |t| == 0 then map[]
    else ToMap(t[..|t| - 1])[t[|t| - 1].0 := t[|t| - 1].1]
  }

  /** The dict built from a display is the one the display describes. */
  lemma {:induction false} ToMapRepresents(t: Entries)
    ensures Represents(t, ToMap(t))
  {
    if |t| > 0 {
      ToMapRepresents(t[..|t| - 1]);
      BindLastEntry(t, ToMap(t[..|t| - 1]), ToMap(t));
    }
  }

  /** Adding the binding of the last entry extends the dict of the shorter display. */
  lemma BindLastEntry(t: Entries, prev: map<string, string>, m: map<string, string>)
    requires |t| > 0
    requires Represents(t[..|t| - 1], prev)
    requires m == prev[t[|t| - 1].0 := t[|t| - 1].1]
    ensures Represents(t, m)
  {
    var n := |t| - 1;
    var init := t[..n];
    assert forall i :: 0 <= i < n ==> init[i] == t[i];
    forall k | k in m
      ensures exists i :: 0 <= i < |t| && t[i] == (k, m[k])
    {
      if k != t[n].0 {
        var i :| 0 <= i < n && init[i] == (k, prev[k]);
        assert t[i] == (k, m[k]);
      } else {
        assert t[n] == (k, m[k]);
      }
    }
    forall i | 0 <= i < |t| && LastBinding(t, i)
      ensures t[i].0 in m && m[t[i].0] == t[i].1
    {
      if i < n {
        assert LastBinding(init, i);
      }
    }
  }

  /**
    The keys of the dict, in iteration order: each key once, at its first
    entry, so there are no more keys than entries and every entry's key is
    listed.
  */
  function KeyOrder(t: Entries): (keys: seq<string>)
    ensures |keys| <= |t|
    ensures forall i :: 0 <= i < |t| ==> t[i].0 in keys
  {
    if |t| == 0 then []
    else
      var prev := KeyOrder(t[..|t| - 1]);
      if t[|t| - 1].0 in prev then prev else prev + [t[|t| - 1].0]
  }

  /** The iteration order lists every key of the display, and each only once. */
  lemma {:induction false} KeyOrderListsKeysOnce(t: Entries)
    ensures forall k :: k in KeyOrder(t) <==> exists i :: 0 <= i < |t| && t[i].0 == k
    ensures forall a, b :: 0 <= a < b < |KeyOrder(t)| ==> KeyOrder(t)[a] != KeyOrder(t)[b]
  {
    if |t| > 0 {
      KeyOrderListsKeysOnce(t[..|t| - 1]);
      assert forall i :: 0 <= i < |t| - 1 ==> t[..|t| - 1][i] == t[i];
    }
  }

  /** Iterating over the keys visits exactly the keys of the dict. */
  lemma KeyOrderEnumeratesMap(t: Entries)
    ensures forall k :: k in KeyOrder(t) <==> k in ToMap(t)
  {
    KeyOrderListsKeysOnce(t);
    ToMapRepresents(t);
  }

  /** Every entry's key has property `p`. */
  predicate EveryKey(t: Entries, p: string -> bool) {
    forall i :: 0 <= i < |t| ==> p(t[i].0)
  }

  /** Every entry has property `p`. */
  predicate EveryBinding(t: Entries, p: (string, string) -> bool) {
    forall i :: 0 <= i < |t| ==> p(t[i].0, t[i].1)
  }

  lemma EveryKeyAppend(a: Entries, b: Entries, p: string -> bool)
    requires EveryKey(a, p) && EveryKey(b, p)
    ensures EveryKey(a + b, p)
  {
    assert forall i :: |a| <= i < |a + b| ==> (a + b)[i] == b[i - |a|];
  }

  lemma EveryBindingAppend(a: Entries, b: Entries, p: (string, string) -> bool)
    requires EveryBinding(a, p) && EveryBinding(b, p)
    ensures EveryBinding(a + b, p)
  {
    assert forall i :: |a| <= i < |a + b| ==> (a + b)[i] == b[i - |a|];
  }

  /** A property every entry's key has holds of every key of the dict. */
  lemma KeysSatisfy(t: Entries, p: string -> bool)
    requires EveryKey(t, p)
    ensures forall k :: k in ToMap(t) ==> p(k)
  {
    ToMapRepresents(t);
  }

  /** A property every entry has holds of every binding of the dict. */
  lemma BindingsSatisfy(t: Entries, p: (string, string) -> bool)
    requires EveryBinding(t, p)
    ensures forall k :: k in ToMap(t) ==> p(k, ToMap(t)[k])
  {
    ToMapRepresents(t);
    forall k | k in ToMap(t)
      ensures p(k, ToMap(t)[k])
    {
      var i :| 0 <= i < |t| && t[i] == (k, ToMap(t)[k]);
    }
  }

  /** The dict binds the key of an entry that no later entry rebinds to that entry's value. */
  lemma LastBindingWins(t: Entries, i: int)
    requires 0 <= i < |t| && LastBinding(t, i)
    ensures t[i].0 in ToMap(t) && ToMap(t)[t[i].0] == t[i].1
  {
    ToMapRepresents(t);
  }

  /** The key of every entry is a key of the dict. */
  lemma EntryKeyIsKey(t: Entries, i: int)
    requires 0 <= i < |t|
    ensures t[i].0 in ToMap(t)
  {
    ToMapRepresents(t);
  }

  /** A key no entry has is not a key of the dict. */
  lemma AbsentKey(t: Entries, k: string)
    requires AbsentFrom(t, k)
    ensures k !in ToMap(t)
  {
    ToMapRepresents(t);
  }

  /** No entry of `t` has key `k`. */
  predicate AbsentFrom(t: Entries, k: string) {
    forall i :: 0 <= i < |t| ==> t[i].0 != k
  }

  /** A key absent from two displays is absent from their concatenation. */
  lemma AbsentFromAppend(a: Entries, b: Entries, k: string)
    requires AbsentFrom(a, k) && AbsentFrom(b, k)
    ensures AbsentFrom(a + b, k)
  {
    assert forall i :: |a| <= i < |a + b| ==> (a + b)[i] == b[i - |a|];
  }

  /** An entry that is the last binding of its key stays so when entries without that key follow. */
  lemma LastBindingAcross(a: Entries, b: Entries, i: int)
    requires 0 <= i < |a| && LastBinding(a, i) && AbsentFrom(b, a[i].0)
    ensures LastBinding(a + b, i)
  {
    assert forall j :: |a| <= j < |a + b| ==> (a + b)[j] == b[j - |a|];
  }

  /** Entries placed in front do not change which later entries are last bindings. */
  lemma LastBindingShift(a: Entries, b: Entries, i: int)
    requires 0 <= i < |b| && LastBinding(b, i)
    ensures LastBinding(a + b, |a| + i)
  {
    assert forall j :: |a| <= j < |a + b| ==> (a + b)[j] == b[j - |a|];
  }
}
