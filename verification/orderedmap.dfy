/** Insertion-ordered association lists: the model of a JavaScript `Map`,
    whose iteration order is the order in which keys were first set, and of
    the entries of a plain object in the order they were first set, which
    JavaScript enumerates in the order `ObjectOrder` gives. */
module OrderedMap {
  import opened Wrappers
  import opened JsText

  function Keys<V>(m: seq<(string, V)>): (ks: seq<string>)
    ensures |ks| == |m| && forall i :: 0 <= i < |m| ==> ks[i] == m[i].0
  {
    if m == [] then [] else [m[0].0] + Keys(m[1..])
  }

  /** No key occurs twice, as in every `Map` and object. */
  predicate DistinctKeys<V>(m: seq<(string, V)>) {
    forall i, j :: 0 <= i < j < |m| ==> m[i].0 != m[j].0
  }

  /** `m.get(k)`, with `None` for `undefined`. */
  function Get<V>(m: seq<(string, V)>, k: string): (r: Option<V>)
    ensures r.Some? <==> k in Keys(m)
    ensures r.Some? ==> (k, r.value) in m
  {
    if m == [] then None
    else if m[0].0 == k then Some(m[0].1)
    else Get(m[1..], k)
  }

  /** In a list with distinct keys, `Get` finds the entry at any index. */
  lemma {:induction false} GetAt<V>(m: seq<(string, V)>, i: nat)
    requires DistinctKeys(m) && i < |m|
    ensures Get(m, m[i].0) == Some(m[i].1)
  {
    if i > 0 {
      GetAt(m[1..], i - 1);
    }
  }

  /** `m.set(k, v)`: an existing key keeps its position and gets the new value,
      a new key is appended at the end (see the lemmas below). */
  function Put<V>(m: seq<(string, V)>, k: string, v: V): (r: seq<(string, V)>)
    ensures |r| == if k in Keys(m) then |m| else |m| + 1
  {
    if m == [] then [(k, v)]
    else if m[0].0 == k then [(k, v)] + m[1..]
    else [m[0]] + Put(m[1..], k, v)
  }

  /** After `set`, `k` maps to `v` and every other key to what it did before. */
  lemma {:induction false} PutGet<V>(m: seq<(string, V)>, k: string, v: V, k': string)
    ensures Get(Put(m, k, v), k') == if k' == k then Some(v) else Get(m, k')
  {
    if m != [] && m[0].0 != k {
      PutGet(m[1..], k, v, k');
    }
  }

  /** `set` keeps the key order, appending a key that was absent. */
  lemma {:induction false} PutKeys<V>(m: seq<(string, V)>, k: string, v: V)
    ensures k in Keys(m) ==> Keys(Put(m, k, v)) == Keys(m)
    ensures k !in Keys(m) ==> Keys(Put(m, k, v)) == Keys(m) + [k]
  {
    if m != [] {
      assert Keys(m) == [m[0].0] + Keys(m[1..]);
      if m[0].0 != k {
        PutKeys(m[1..], k, v);
        assert Keys(Put(m, k, v)) == [m[0].0] + Keys(Put(m[1..], k, v));
      } else {
        assert Keys(Put(m, k, v)) == [k] + Keys(m[1..]);
      }
    }
  }

  /** `set` keeps the keys distinct. */
  lemma PutDistinct<V>(m: seq<(string, V)>, k: string, v: V)
    requires DistinctKeys(m)
    ensures DistinctKeys(Put(m, k, v))
  {
    var r := Put(m, k, v);
    PutKeys(m, k, v);
    var ks := Keys(r);
    forall i, j | 0 <= i < j < |r| ensures r[i].0 != r[j].0 {
      assert ks[i] == r[i].0 && ks[j] == r[j].0;
      if k !in Keys(m) && j == |m| {
        assert ks[i] == Keys(m)[i];
      } else {
        assert ks[i] == Keys(m)[i] && ks[j] == Keys(m)[j];
      }
    }
  }

  /** `m.delete(k)`: the entry for `k` is gone, every other entry stays, in
      the same order (see the lemmas below). */
  function Remove<V>(m: seq<(string, V)>, k: string): (r: seq<(string, V)>)
    ensures |r| <= |m|
  {
    if m == [] then []
    else if m[0].0 == k then Remove(m[1..], k)
    else [m[0]] + Remove(m[1..], k)
  }

  /** After `delete`, `k` is absent and every other key maps as before. */
  lemma {:induction false} RemoveGet<V>(m: seq<(string, V)>, k: string, k': string)
    ensures Get(Remove(m, k), k') == if k' == k then None else Get(m, k')
  {
    if m != [] {
      RemoveGet(m[1..], k, k');
    }
  }

  /** `delete` keeps exactly the entries whose key is not `k`. */
  lemma {:induction false} RemoveEntries<V>(m: seq<(string, V)>, k: string, e: (string, V))
    ensures e in Remove(m, k) <==> e in m && e.0 != k
  {
    if m != [] {
      RemoveEntries(m[1..], k, e);
      assert e in m <==> e == m[0] || e in m[1..];
    }
  }

  /** `delete` of a present key shrinks a distinct-key list by one, and of an
      absent key changes nothing. */
  lemma {:induction false} RemoveSize<V>(m: seq<(string, V)>, k: string)
    requires DistinctKeys(m)
    ensures k in Keys(m) ==> |Remove(m, k)| == |m| - 1
    ensures k !in Keys(m) ==> Remove(m, k) == m
  {
    if m != [] {
      DistinctTail(m);
      RemoveSize(m[1..], k);
      if m[0].0 == k {
        assert Remove(m, k) == Remove(m[1..], k);
      } else {
        assert Keys(m) == [m[0].0] + Keys(m[1..]);
        assert Remove(m, k) == [m[0]] + Remove(m[1..], k);
      }
    }
  }

  /** The rest of a distinct-key list is distinct and lacks the first key. */
  lemma DistinctTail<V>(m: seq<(string, V)>)
    requires m != [] && DistinctKeys(m)
    ensures DistinctKeys(m[1..]) && m[0].0 !in Keys(m[1..])
  {
    var t := m[1..];
    forall i | 0 <= i < |t| ensures Keys(t)[i] != m[0].0 {
      assert t[i] == m[i + 1];
    }
  }

  lemma RemoveDistinct<V>(m: seq<(string, V)>, k: string)
    requires DistinctKeys(m)
    ensures DistinctKeys(Remove(m, k))
  {
    var r := Remove(m, k);
    forall i, j | 0 <= i < j < |r| ensures r[i].0 != r[j].0 {
      SubsequenceIndices(m, k, i, j);
    }
  }

  lemma {:induction false} SubsequenceIndices<V>(m: seq<(string, V)>, k: string, i: nat, j: nat)
    requires i < j < |Remove(m, k)|
    ensures exists a, b :: 0 <= a < b < |m| && m[a] == Remove(m, k)[i] && m[b] == Remove(m, k)[j]
  {
    var r := Remove(m, k);
    if m[0].0 == k {
      SubsequenceIndices(m[1..], k, i, j);
      var a, b :| 0 <= a < b < |m| - 1 && m[1..][a] == r[i] && m[1..][b] == r[j];
      assert m[a + 1] == r[i] && m[b + 1] == r[j];
    } else if i == 0 {
      assert r[j] == Remove(m[1..], k)[j - 1];
      RemoveEntries(m[1..], k, r[j]);
      var b :| 0 <= b < |m| - 1 && m[1..][b] == r[j];
      assert m[0] == r[0] && m[b + 1] == r[j];
    } else {
      SubsequenceIndices(m[1..], k, i - 1, j - 1);
      var a, b :| 0 <= a < b < |m| - 1 && m[1..][a] == r[i] && m[1..][b] == r[j];
      assert m[a + 1] == r[i] && m[b + 1] == r[j];
    }
  }

  /** `a` is `b` with some elements left out, the rest in the same order. */
  predicate Sublist<T(==)>(a: seq<T>, b: seq<T>)
    decreases |b|
  {
    a == [] || (b != [] && ((a[0] == b[0] && Sublist(a[1..], b[1..])) || Sublist(a, b[1..])))
  }

  // ── Plain objects ──────────────────────────────────────────────────────

  /** A key that a plain object treats as an array index: `"0"`, or decimal
      digits without a leading zero, whose value is below 2^32 - 1. */
  predicate IsIndexKey(k: string) {
    |k| > 0 && IsDigits(k) && (k[0] == '0' ==> |k| == 1) && DigitsValue(k) < 0xFFFF_FFFF
  }

  predicate AllIndexKeys<V>(m: seq<(string, V)>) {
    forall i :: 0 <= i < |m| ==> IsIndexKey(m[i].0)
  }

  /** Entries whose keys are array indices, in ascending numeric order. */
  predicate IndexAscending<V>(m: seq<(string, V)>) {
    AllIndexKeys(m) && forall i, j :: 0 <= i < j < |m| ==> DigitsValue(m[i].0) <= DigitsValue(m[j].0)
  }

  /** The entries of `m` whose keys are (`index`) or are not array indices,
      in the order of `m`. */
  function KeysOfKind<V>(m: seq<(string, V)>, index: bool): seq<(string, V)>
  {
    if m == [] then []
    else if IsIndexKey(m[0].0) == index then [m[0]] + KeysOfKind(m[1..], index)
    else KeysOfKind(m[1..], index)
  }

  /** Every entry kept has a key of the kind asked for. */
  lemma {:induction false} KindOnly<V>(m: seq<(string, V)>, index: bool)
    ensures forall i :: 0 <= i < |KeysOfKind(m, index)| ==> IsIndexKey(KeysOfKind(m, index)[i].0) == index
  {
    if m != [] {
      KindOnly(m[1..], index);
    }
  }

  /** Puts an index entry in front of the first entry with a larger index. */
  function InsertIndex<V>(e: (string, V), m: seq<(string, V)>): (r: seq<(string, V)>)
    requires IsIndexKey(e.0) && AllIndexKeys(m)
    ensures AllIndexKeys(r) && multiset(r) == multiset(m) + multiset{e}
  {
    if m == [] || DigitsValue(e.0) <= DigitsValue(m[0].0) then [e] + m
    else
      assert m == [m[0]] + m[1..];
      [m[0]] + InsertIndex(e, m[1..])
  }

  lemma {:induction false} InsertIndexAscending<V>(e: (string, V), m: seq<(string, V)>)
    requires IsIndexKey(e.0) && IndexAscending(m)
    ensures IndexAscending(InsertIndex(e, m))
  {
    if m != [] && DigitsValue(e.0) > DigitsValue(m[0].0) {
      InsertIndexAscending(e, m[1..]);
      InsertIndexAbove(e, m[1..], DigitsValue(m[0].0));
    }
  }

  /** A lower bound of the new entry and of every entry bounds the result. */
  lemma {:induction false} InsertIndexAbove<V>(e: (string, V), m: seq<(string, V)>, lo: int)
    requires IsIndexKey(e.0) && AllIndexKeys(m)
    requires lo <= DigitsValue(e.0) && forall j :: 0 <= j < |m| ==> lo <= DigitsValue(m[j].0)
    ensures forall j :: 0 <= j < |InsertIndex(e, m)| ==> lo <= DigitsValue(InsertIndex(e, m)[j].0)
  {
    if m != [] && DigitsValue(e.0) > DigitsValue(m[0].0) {
      InsertIndexAbove(e, m[1..], lo);
    }
  }

  /** The index entries sorted by their numeric value. */
  function SortIndex<V>(m: seq<(string, V)>): (r: seq<(string, V)>)
    requires AllIndexKeys(m)
    ensures IndexAscending(r) && multiset(r) == multiset(m)
  {
    if m == [] then []
    else
      assert m == m[..|m| - 1] + [m[|m| - 1]];
      InsertIndexAscending(m[|m| - 1], SortIndex(m[..|m| - 1]));
      InsertIndex(m[|m| - 1], SortIndex(m[..|m| - 1]))
  }

  /** The order in which `Object.entries` and `Object.keys` enumerate a plain
      object whose entries were set in the order of `m`: the array-index
      keys first, by numeric value, then the other keys in the order they
      were set. */
  function ObjectOrder<V>(m: seq<(string, V)>): seq<(string, V)>
  {
    KindOnly(m, true);
    SortIndex(KeysOfKind(m, true)) + KeysOfKind(m, false)
  }

  /** Enumeration lists the same entries as were set. */
  lemma ObjectOrderEntries<V>(m: seq<(string, V)>)
    ensures multiset(ObjectOrder(m)) == multiset(m)
  {
    KindsSplit(m);
  }

  /** Array-index keys come first, in ascending numeric order. */
  lemma ObjectOrderIndexFirst<V>(m: seq<(string, V)>)
    ensures forall i, j :: 0 <= i < j < |ObjectOrder(m)| && IsIndexKey(ObjectOrder(m)[j].0) ==>
      IsIndexKey(ObjectOrder(m)[i].0) && DigitsValue(ObjectOrder(m)[i].0) <= DigitsValue(ObjectOrder(m)[j].0)
  {
    KindOnly(m, true);
    KindOnly(m, false);
    var a := SortIndex(KeysOfKind(m, true));
    var b := KeysOfKind(m, false);
    var r := ObjectOrder(m);
    assert forall k :: |a| <= k < |r| ==> r[k] == b[k - |a|] && !IsIndexKey(r[k].0);
    forall i, j | 0 <= i < j < |r| && IsIndexKey(r[j].0)
      ensures IsIndexKey(r[i].0) && DigitsValue(r[i].0) <= DigitsValue(r[j].0)
    {
      assert r[i] == a[i] && r[j] == a[j];
    }
  }

  /** The other keys are enumerated in the order they were set. */
  lemma ObjectOrderNamed<V>(m: seq<(string, V)>)
    ensures KeysOfKind(ObjectOrder(m), false) == KeysOfKind(m, false)
  {
    KindOnly(m, true);
    KindOnly(m, false);
    var a := SortIndex(KeysOfKind(m, true));
    var b := KeysOfKind(m, false);
    KindsOfConcat(a, b, false);
    NoneOfKind(a, false);
    SameKind(b, false);
  }

  /** A list is made of its two kinds of entries. */
  lemma {:induction false} KindsSplit<V>(m: seq<(string, V)>)
    ensures multiset(KeysOfKind(m, true)) + multiset(KeysOfKind(m, false)) == multiset(m)
  {
    if m != [] {
      KindsSplit(m[1..]);
      assert m == [m[0]] + m[1..];
    }
  }

  lemma {:induction false} KindsOfConcat<V>(a: seq<(string, V)>, b: seq<(string, V)>, index: bool)
    ensures KeysOfKind(a + b, index) == KeysOfKind(a, index) + KeysOfKind(b, index)
  {
    if a != [] {
      assert (a + b)[0] == a[0] && (a + b)[1..] == a[1..] + b;
      KindsOfConcat(a[1..], b, index);
    } else {
      assert a + b == b;
    }
  }

  lemma {:induction false} NoneOfKind<V>(m: seq<(string, V)>, index: bool)
    requires forall i :: 0 <= i < |m| ==> IsIndexKey(m[i].0) != index
    ensures KeysOfKind(m, index) == []
  {
    if m != [] {
      NoneOfKind(m[1..], index);
    }
  }

  lemma {:induction false} SameKind<V>(m: seq<(string, V)>, index: bool)
    requires forall i :: 0 <= i < |m| ==> IsIndexKey(m[i].0) == index
    ensures KeysOfKind(m, index) == m
  {
    if m != [] {
      SameKind(m[1..], index);
      assert m == [m[0]] + m[1..];
    }
  }

  /** An object without array-index keys enumerates in the order its keys
      were set. */
  lemma ObjectOrderPlain<V>(m: seq<(string, V)>)
    requires forall i :: 0 <= i < |m| ==> !IsIndexKey(m[i].0)
    ensures ObjectOrder(m) == m
  {
    NoneOfKind(m, true);
    SameKind(m, false);
    assert ObjectOrder(m) == [] + m;
  }

  /** Setting key `"5"` after key `"web"` still enumerates `"5"` first. */
  lemma ObjectOrderExample<V>(v: V, w: V)
    ensures ObjectOrder([("web", v), ("5", w)]) == [("5", w), ("web", v)]
  {
    var m := [("web", v), ("5", w)];
    assert IsIndexKey("5") by {
      assert DigitsValue("5") == DigitsValue("") * 10 + 5;
    }
    assert !IsIndexKey("web") by {
      assert !('0' <= "web"[0] <= '9');
    }
    var t := m[1..];
    assert t == [("5", w)] && t[1..] == [];
    assert KeysOfKind(t, true) == [("5", w)];
    assert KeysOfKind(t, false) == [];
    assert KeysOfKind(m, true) == KeysOfKind(t, true);
    assert KeysOfKind(m, false) == [("web", v)] + KeysOfKind(t, false);
  }
}
