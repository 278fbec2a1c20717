/**
 * Key values and the sorted, duplicate-free arrays of them that the key
 * table keeps (findKeyValue, insertKeyValue and removeKeyValue).
 */
module KeyValues {

  /** An `unsigned char` of the C source. */
  type Byte = x: int | 0 <= x < 0x100

  /**
   * A physical key: the group it is reported in (the C field `set`) and its
   * code. Both are `unsigned char` in C; the code is a bit-vector so that
   * `command += key` is a plain widening into the 32-bit command.
   */
  datatype KeyValue = KeyValue(group: Byte, key: bv8)

  /** compareKeyValues: lexicographic, group first, then key code. */
  predicate KeyLess(a: KeyValue, b: KeyValue) {
    a.group < b.group || (a.group == b.group && a.key < b.key)
  }

  /** The ordering of key values is a strict total order. */
  lemma KeyLessIsStrictTotalOrder(a: KeyValue, b: KeyValue, c: KeyValue)
    ensures !KeyLess(a, a)
    ensures KeyLess(a, b) ==> !KeyLess(b, a)
    ensures KeyLess(a, b) && KeyLess(b, c) ==> KeyLess(a, c)
    ensures a == b || KeyLess(a, b) || KeyLess(b, a)
  {
  }

  /** Sorted by the key-value ordering; hence free of duplicates. */
  ghost predicate StrictlySorted(keys: seq<KeyValue>) {
    forall i, j :: 0 <= i < j < |keys| ==> KeyLess(keys[i], keys[j])
  }

  /** The number of leading entries that sort before `value`: where `value` is or would go. */
  function InsertionPoint(keys: seq<KeyValue>, value: KeyValue): (p: nat)
    ensures p <= |keys|
  {
    if keys == [] || !KeyLess(keys[0], value) then 0
    else 1 + InsertionPoint(keys[1..], value)
  }

  /** Every entry before the insertion point sorts before `value`; the one at it does not. */
  lemma {:induction false} InsertionPointBounds(keys: seq<KeyValue>, value: KeyValue)
    ensures forall i :: 0 <= i < InsertionPoint(keys, value) ==> KeyLess(keys[i], value)
    ensures InsertionPoint(keys, value) < |keys| ==> !KeyLess(keys[InsertionPoint(keys, value)], value)
  {
    if keys != [] && KeyLess(keys[0], value) {
      InsertionPointBounds(keys[1..], value);
      forall i | 1 <= i < InsertionPoint(keys, value)
        ensures KeyLess(keys[i], value)
      {
        assert keys[i] == keys[1..][i - 1];
      }
    }
  }

  /** A position that splits `keys` around `value` is the insertion point. */
  lemma {:induction false} InsertionPointAt(keys: seq<KeyValue>, value: KeyValue, p: nat)
    requires p <= |keys|
    requires forall i :: 0 <= i < p ==> KeyLess(keys[i], value)
    requires p < |keys| ==> !KeyLess(keys[p], value)
    ensures InsertionPoint(keys, value) == p
  {
    if p > 0 {
      forall i | 0 <= i < p - 1
        ensures KeyLess(keys[1..][i], value)
      {
        assert keys[1..][i] == keys[i + 1];
      }
      InsertionPointAt(keys[1..], value, p - 1);
    }
  }

  /** In a sorted array every entry from the insertion point on sorts at or after `value`. */
  lemma InsertionPointSplits(keys: seq<KeyValue>, value: KeyValue)
    requires StrictlySorted(keys)
    ensures forall i :: 0 <= i < InsertionPoint(keys, value) ==> KeyLess(keys[i], value)
    ensures forall i :: InsertionPoint(keys, value) <= i < |keys| ==> !KeyLess(keys[i], value)
  {
    InsertionPointBounds(keys, value);
  }

  /** In a sorted array `value` is present exactly when it sits at its insertion point. */
  lemma InsertionPointLocates(keys: seq<KeyValue>, value: KeyValue)
    requires StrictlySorted(keys)
    ensures value in keys <==> InsertionPoint(keys, value) < |keys| && keys[InsertionPoint(keys, value)] == value
  {
    InsertionPointSplits(keys, value);
    var p := InsertionPoint(keys, value);
    if value in keys {
      var k :| 0 <= k < |keys| && keys[k] == value;
      assert forall i :: 0 <= i < k ==> KeyLess(keys[i], keys[k]);
      InsertionPointAt(keys, value, k);
    }
  }

  /** In a sorted array, an entry before `value` has only entries before `value` below it. */
  lemma SortedBelow(keys: seq<KeyValue>, value: KeyValue, mid: nat)
    requires StrictlySorted(keys)
    requires mid < |keys| && KeyLess(keys[mid], value)
    ensures forall i :: 0 <= i <= mid ==> KeyLess(keys[i], value)
  {
    forall i | 0 <= i < mid
      ensures KeyLess(keys[i], value)
    {
      KeyLessIsStrictTotalOrder(keys[i], keys[mid], value);
    }
  }

  /** In a sorted array, an entry not before `value` has no entry before `value` above it. */
  lemma SortedAbove(keys: seq<KeyValue>, value: KeyValue, mid: nat)
    requires StrictlySorted(keys)
    requires mid < |keys| && !KeyLess(keys[mid], value)
    ensures forall i :: mid <= i < |keys| ==> !KeyLess(keys[i], value)
  {
    forall i | mid < i < |keys|
      ensures !KeyLess(keys[i], value)
    {
      KeyLessIsStrictTotalOrder(keys[mid], keys[i], value);
    }
  }

  /**
   * findKeyValue: a binary search that reports whether `value` is present
   * and, either way, the position where it is or would be inserted.
   */
  method FindKeyValue(keys: seq<KeyValue>, value: KeyValue) returns (found: bool, position: nat)
    requires StrictlySorted(keys)
    ensures position == InsertionPoint(keys, value)
    ensures found <==> value in keys
    ensures found ==> position < |keys| && keys[position] == value
  {
    var lo, hi := 0, |keys|;
    while lo < hi
      invariant 0 <= lo <= hi <= |keys|
      invariant forall i :: 0 <= i < lo ==> KeyLess(keys[i], value)
      invariant forall i :: hi <= i < |keys| ==> !KeyLess(keys[i], value)
    {
      var mid := (lo + hi) / 2;
      if KeyLess(keys[mid], value) {
        SortedBelow(keys, value, mid);
        lo := mid + 1;
      } else {
        SortedAbove(keys, value, mid);
        hi := mid;
      }
    }
    InsertionPointAt(keys, value, lo);
    InsertionPointLocates(keys, value);
    position := lo;
    found := lo < |keys| && keys[lo] == value;
  }

  /** insertKeyValue: `value` placed at `position`, the other entries shifted up. */
  function InsertKeyValue(keys: seq<KeyValue>, value: KeyValue, position: nat): seq<KeyValue>
    requires position <= |keys|
  {
    keys[..position] + [value] + keys[position..]
  }

  /** removeKeyValue: the entry at `position` dropped, the others shifted down. */
  function RemoveKeyValue(keys: seq<KeyValue>, position: nat): seq<KeyValue>
    requires position < |keys|
  {
    keys[..position] + keys[position + 1..]
  }

  /** Where each entry of an insertion comes from. */
  lemma InsertKeyValueAt(keys: seq<KeyValue>, value: KeyValue, position: nat)
    requires position <= |keys|
    ensures |InsertKeyValue(keys, value, position)| == |keys| + 1
    ensures forall i :: 0 <= i < |keys| + 1 ==>
      InsertKeyValue(keys, value, position)[i] ==
        if i < position then keys[i] else if i == position then value else keys[i - 1]
  {
  }

  /** Inserting an absent value at its insertion point keeps the array sorted. */
  lemma InsertKeepsSorted(keys: seq<KeyValue>, value: KeyValue)
    requires StrictlySorted(keys)
    requires value !in keys
    ensures StrictlySorted(InsertKeyValue(keys, value, InsertionPoint(keys, value)))
  {
    var p := InsertionPoint(keys, value);
    InsertionPointSplits(keys, value);
    var r := InsertKeyValue(keys, value, p);
    InsertKeyValueAt(keys, value, p);
    forall i, j | 0 <= i < j < |r|
      ensures KeyLess(r[i], r[j])
    {
      if j <= p {
        assert r[i] == keys[i];
      } else if i == p {
        assert r[j] == keys[j - 1] && keys[j - 1] != value;
        KeyLessIsStrictTotalOrder(value, keys[j - 1], value);
      } else if i < p {
        assert r[i] == keys[i] && r[j] == keys[j - 1];
      } else {
        assert r[i] == keys[i - 1] && r[j] == keys[j - 1];
      }
    }
  }

  /** The same insertion adds exactly one copy of the value and keeps every other entry. */
  lemma InsertAddsOnce(keys: seq<KeyValue>, value: KeyValue, position: nat)
    requires value !in keys
    requires position <= |keys|
    ensures multiset(InsertKeyValue(keys, value, position)) == multiset(keys)[value := 1]
  {
    assert keys == keys[..position] + keys[position..];
    assert multiset(keys)[value] == 0;
  }

  /** Removing an entry keeps the array sorted and leaves no copy of that entry. */
  lemma RemoveKeepsSorted(keys: seq<KeyValue>, position: nat)
    requires StrictlySorted(keys)
    requires position < |keys|
    ensures StrictlySorted(RemoveKeyValue(keys, position))
    ensures multiset(RemoveKeyValue(keys, position)) == multiset(keys)[keys[position] := 0]
  {
    var r := RemoveKeyValue(keys, position);
    var v := keys[position];
    forall i, j | 0 <= i < j < |r|
      ensures KeyLess(r[i], r[j])
    {
      var i' := if i < position then i else i + 1;
      var j' := if j < position then j else j + 1;
      assert r[i] == keys[i'] && r[j] == keys[j'];
    }
    assert keys == keys[..position] + [v] + keys[position + 1..];
    assert v !in keys[..position] by {
      forall k | 0 <= k < position ensures keys[..position][k] != v {
        assert KeyLess(keys[k], v);
      }
    }
    assert v !in keys[position + 1..] by {
      forall k | position + 1 <= k < |keys| ensures keys[k] != v {
        assert KeyLess(v, keys[k]);
      }
    }
  }

  /** Taking `value` out of a sorted array leaves its insertion point where it was. */
  lemma RemoveKeepsInsertionPoint(keys: seq<KeyValue>, value: KeyValue)
    requires StrictlySorted(keys)
    requires value in keys
    ensures InsertionPoint(keys, value) < |keys|
    ensures InsertionPoint(RemoveKeyValue(keys, InsertionPoint(keys, value)), value) == InsertionPoint(keys, value)
  {
    var p := InsertionPoint(keys, value);
    InsertionPointSplits(keys, value);
    InsertionPointLocates(keys, value);
    var r := RemoveKeyValue(keys, p);
    forall i | 0 <= i < p ensures KeyLess(r[i], value) {
      assert r[i] == keys[i];
    }
    if p < |r| {
      assert r[p] == keys[p + 1];
    }
    InsertionPointAt(r, value, p);
  }
}
