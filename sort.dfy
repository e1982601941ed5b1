/**
 * Ordering of the rows of an overlay: the children of each root whose
 * children changed are sorted in place, stably, by their `PerfUiSortKey`
 * (0 for a child without one).
 */
module UiSort {
  import opened Numeric
  import opened World

  /** The key a child is ordered by. */
  function KeyOf(keys: map<Entity, I32>, e: Entity): int {
    if e in keys then keys[e] else 0
  }

  predicate Sorted(s: seq<Entity>, keys: map<Entity, I32>) {
    forall i, j :: 0 <= i < j < |s| ==> KeyOf(keys, s[i]) <= KeyOf(keys, s[j])
  }

  /** The position of the first element whose key is greater than that of `x`, or `|s|`. */
  function InsertPos(s: seq<Entity>, x: Entity, keys: map<Entity, I32>): (j: nat)
    ensures j <= |s|
    ensures forall m :: 0 <= m < j ==> KeyOf(keys, s[m]) <= KeyOf(keys, x)
    ensures j < |s| ==> KeyOf(keys, s[j]) > KeyOf(keys, x)
  {
    if s == [] || KeyOf(keys, s[0]) > KeyOf(keys, x) then 0
    else 1 + InsertPos(s[1..], x, keys)
  }

  /** Puts `x` before the first element whose key is greater than its own. */
  function Insert(s: seq<Entity>, x: Entity, keys: map<Entity, I32>): seq<Entity> {
    var j := InsertPos(s, x, keys);
    s[..j] + [x] + s[j..]
  }

  /** `sort_by_key`, which is stable: each child in turn is inserted after the equal keys before it. */
  function SortByKey(s: seq<Entity>, keys: map<Entity, I32>): seq<Entity> {
    if s == [] then []
    else Insert(SortByKey(s[..|s| - 1], keys), s[|s| - 1], keys)
  }

  /** The children with key `k`, in their order. */
  function WithKey(s: seq<Entity>, keys: map<Entity, I32>, k: int): seq<Entity> {
    if s == [] then []
    else WithKey(s[..|s| - 1], keys, k) + (if KeyOf(keys, s[|s| - 1]) == k then [s[|s| - 1]] else [])
  }

  lemma InsertSorted(s: seq<Entity>, x: Entity, keys: map<Entity, I32>)
    requires Sorted(s, keys)
    ensures Sorted(Insert(s, x, keys), keys)
    ensures multiset(Insert(s, x, keys)) == multiset(s) + multiset{x}
  {
    var j := InsertPos(s, x, keys);
    assert s == s[..j] + s[j..];
    forall a, b | 0 <= a < b < |Insert(s, x, keys)|
      ensures KeyOf(keys, Insert(s, x, keys)[a]) <= KeyOf(keys, Insert(s, x, keys)[b])
    {
      InsertOrderedAt(s, x, keys, a, b);
    }
  }

  lemma InsertOrderedAt(s: seq<Entity>, x: Entity, keys: map<Entity, I32>, a: nat, b: nat)
    requires Sorted(s, keys) && a < b <= |s|
    ensures KeyOf(keys, Insert(s, x, keys)[a]) <= KeyOf(keys, Insert(s, x, keys)[b])
  {
    var j := InsertPos(s, x, keys);
    var r := Insert(s, x, keys);
    var ka := if a < j then s[a] else if a == j then x else s[a - 1];
    var kb := if b < j then s[b] else if b == j then x else s[b - 1];
    assert r[a] == ka && r[b] == kb;
    if a == j && j < b {
      assert KeyOf(keys, s[j]) <= KeyOf(keys, s[b - 1]);
    }
  }

  /** After sorting the keys are non-decreasing, and the children are the same ones. */
  lemma {:induction false} SortByKeySorted(s: seq<Entity>, keys: map<Entity, I32>)
    ensures Sorted(SortByKey(s, keys), keys)
    ensures multiset(SortByKey(s, keys)) == multiset(s)
  {
    if s != [] {
      var init := s[..|s| - 1];
      SortByKeySorted(init, keys);
      InsertSorted(SortByKey(init, keys), s[|s| - 1], keys);
      assert s == init + [s[|s| - 1]];
    }
  }

  lemma {:induction false} InsertWithKey(s: seq<Entity>, x: Entity, keys: map<Entity, I32>, k: int)
    requires Sorted(s, keys)
    ensures WithKey(Insert(s, x, keys), keys, k) == WithKey(s, keys, k) + (if KeyOf(keys, x) == k then [x] else [])
  {
    GreaterAfterPos(s, x, keys);
    InsertWithKeyAt(s, x, keys, k, InsertPos(s, x, keys));
  }

  /** Inserting `x` at `j`, where every key from `j` on is greater than that of `x`. */
  lemma InsertWithKeyAt(s: seq<Entity>, x: Entity, keys: map<Entity, I32>, k: int, j: nat)
    requires j <= |s| && forall m :: j <= m < |s| ==> KeyOf(keys, s[m]) > KeyOf(keys, x)
    ensures WithKey(s[..j] + [x] + s[j..], keys, k) == WithKey(s, keys, k) + (if KeyOf(keys, x) == k then [x] else [])
  {
    var front, back := s[..j], s[j..];
    assert s == front + back;
    assert forall m :: 0 <= m < |back| ==> back[m] == s[j + m];
    InsertWithKeySplit(front, x, back, keys, k);
  }

  /** Inserting `x` between `front` and a `back` of greater keys. */
  lemma InsertWithKeySplit(front: seq<Entity>, x: Entity, back: seq<Entity>, keys: map<Entity, I32>, k: int)
    requires forall m :: 0 <= m < |back| ==> KeyOf(keys, back[m]) > KeyOf(keys, x)
    ensures WithKey(front + [x] + back, keys, k)
         == WithKey(front + back, keys, k) + (if KeyOf(keys, x) == k then [x] else [])
  {
    WithKeySnoc(front, x, keys, k);
    WithKeyConcat(front + [x], back, keys, k);
    WithKeyConcat(front, back, keys, k);
    if KeyOf(keys, x) == k {
      NoneWithKey(back, keys, k);
    }
  }

  lemma WithKeySnoc(s: seq<Entity>, x: Entity, keys: map<Entity, I32>, k: int)
    ensures WithKey(s + [x], keys, k) == WithKey(s, keys, k) + (if KeyOf(keys, x) == k then [x] else [])
  {
    assert (s + [x])[..|s|] == s;
  }

  /** In sorted children every key from the insertion point on is greater than that of `x`. */
  lemma GreaterAfterPos(s: seq<Entity>, x: Entity, keys: map<Entity, I32>)
    requires Sorted(s, keys)
    ensures forall m :: InsertPos(s, x, keys) <= m < |s| ==> KeyOf(keys, s[m]) > KeyOf(keys, x)
  {
    var j := InsertPos(s, x, keys);
    forall m | j <= m < |s| ensures KeyOf(keys, s[m]) > KeyOf(keys, x) {
      assert KeyOf(keys, s[j]) <= KeyOf(keys, s[m]);
    }
  }

  lemma {:induction false} WithKeyConcat(a: seq<Entity>, b: seq<Entity>, keys: map<Entity, I32>, k: int)
    ensures WithKey(a + b, keys, k) == WithKey(a, keys, k) + WithKey(b, keys, k)
  {
    if b == [] {
      assert a + b == a;
    } else {
      WithKeyConcat(a, b[..|b| - 1], keys, k);
      assert (a + b)[..|a + b| - 1] == a + b[..|b| - 1];
    }
  }

  lemma {:induction false} NoneWithKey(s: seq<Entity>, keys: map<Entity, I32>, k: int)
    requires forall i :: 0 <= i < |s| ==> KeyOf(keys, s[i]) > k
    ensures WithKey(s, keys, k) == []
  {
    if s != [] {
      NoneWithKey(s[..|s| - 1], keys, k);
    }
  }

  /** Stability: children with equal keys keep their relative order. */
  lemma {:induction false} SortByKeyStable(s: seq<Entity>, keys: map<Entity, I32>, k: int)
    ensures WithKey(SortByKey(s, keys), keys, k) == WithKey(s, keys, k)
  {
    if s != [] {
      var init := s[..|s| - 1];
      SortByKeyStable(init, keys, k);
      SortByKeySorted(init, keys);
      InsertWithKey(SortByKey(init, keys), s[|s| - 1], keys, k);
    }
  }

  /** Inserting a child whose key is not below any other appends it. */
  lemma InsertLast(s: seq<Entity>, x: Entity, keys: map<Entity, I32>)
    requires forall i :: 0 <= i < |s| ==> KeyOf(keys, s[i]) <= KeyOf(keys, x)
    ensures Insert(s, x, keys) == s + [x]
  {
    assert InsertPos(s, x, keys) == |s|;
  }

  /**
   * Children already in key order are left as they are; so sorting twice
   * is sorting once, and skipping the roots whose children did not change
   * loses nothing.
   */
  lemma {:induction false} SortByKeyKeepsSorted(s: seq<Entity>, keys: map<Entity, I32>)
    requires Sorted(s, keys)
    ensures SortByKey(s, keys) == s
  {
    if s != [] {
      var init := s[..|s| - 1];
      SortByKeyKeepsSorted(init, keys);
      InsertLast(init, s[|s| - 1], keys);
    }
  }

  lemma SortByKeyIdempotent(s: seq<Entity>, keys: map<Entity, I32>)
    ensures SortByKey(SortByKey(s, keys), keys) == SortByKey(s, keys)
  {
    SortByKeySorted(s, keys);
    SortByKeyKeepsSorted(SortByKey(s, keys), keys);
  }

  /** `Children::sort_by_key` on one root's children, as an insertion sort in place. */
  method SortChildren(a: array<Entity>, keys: map<Entity, I32>)
    modifies a
    ensures a[..] == SortByKey(old(a[..]), keys)
  {
    ghost var s0 := a[..];
    var i := 0;
    while i < a.Length
      invariant 0 <= i <= a.Length
      invariant a[..i] == SortByKey(s0[..i], keys)
      invariant forall m :: i <= m < a.Length ==> a[m] == s0[m]
    {
      SortByKeySorted(s0[..i], keys);
      InsertNext(a, i, keys);
      SortByKeyStep(s0, i, keys);
      i := i + 1;
    }
    assert s0[..a.Length] == s0;
    assert a[..] == a[..a.Length];
  }

  /** Sorting one more child inserts it into the sorted ones before it. */
  lemma SortByKeyStep(s: seq<Entity>, i: nat, keys: map<Entity, I32>)
    requires i < |s|
    ensures SortByKey(s[..i + 1], keys) == Insert(SortByKey(s[..i], keys), s[i], keys)
  {
    assert s[..i + 1][..i] == s[..i];
  }

  /** One step of the insertion sort: moves `a[i]` into its place among the sorted `a[..i]`. */
  method InsertNext(a: array<Entity>, i: nat, keys: map<Entity, I32>)
    requires i < a.Length && Sorted(a[..i], keys)
    modifies a
    ensures a[..i + 1] == Insert(old(a[..i]), old(a[i]), keys)
    ensures forall m :: i < m < a.Length ==> a[m] == old(a[m])
  {
    ghost var sorted := a[..i];
    var x := a[i];
    var j := i;
    while j > 0 && KeyOf(keys, a[j - 1]) > KeyOf(keys, x)
      invariant 0 <= j <= i
      invariant forall m :: 0 <= m < j ==> a[m] == sorted[m]
      invariant forall m :: j < m <= i ==> a[m] == sorted[m - 1]
      invariant forall m :: j <= m < i ==> KeyOf(keys, sorted[m]) > KeyOf(keys, x)
      invariant forall m :: i < m < a.Length ==> a[m] == old(a[m])
    {
      a[j] := a[j - 1];
      j := j - 1;
    }
    assert j > 0 ==> KeyOf(keys, sorted[j - 1]) <= KeyOf(keys, x);
    a[j] := x;
    InsertionLands(a[..i + 1], sorted, x, keys, j);
  }

  /**
   * The array contents the insertion step leaves: the sorted prefix up to
   * `j`, then `x`, then the rest shifted by one, where `j` is the first
   * position after the keys not greater than that of `x`.
   */
  lemma InsertionLands(t: seq<Entity>, sorted: seq<Entity>, x: Entity, keys: map<Entity, I32>, j: nat)
    requires Sorted(sorted, keys) && j <= |sorted| && |t| == |sorted| + 1
    requires forall m :: 0 <= m < j ==> t[m] == sorted[m]
    requires t[j] == x
    requires forall m :: j < m < |t| ==> t[m] == sorted[m - 1]
    requires j > 0 ==> KeyOf(keys, sorted[j - 1]) <= KeyOf(keys, x)
    requires forall m :: j <= m < |sorted| ==> KeyOf(keys, sorted[m]) > KeyOf(keys, x)
    ensures t == Insert(sorted, x, keys)
  {
    assert InsertPos(sorted, x, keys) == j;
  }

  /** `sort_perf_ui_widgets`: sorts the children of every root whose children changed. */
  method SortPerfUiWidgets(changed: seq<array<Entity>>, keys: map<Entity, I32>)
    requires forall i, j :: 0 <= i < j < |changed| ==> changed[i] != changed[j]
    modifies set c | c in changed
    ensures forall k :: 0 <= k < |changed| ==> changed[k][..] == SortByKey(old(changed[k][..]), keys)
  {
    for i := 0 to |changed|
      invariant forall k :: 0 <= k < i ==> changed[k][..] == SortByKey(old(changed[k][..]), keys)
      invariant forall k :: i <= k < |changed| ==> changed[k][..] == old(changed[k][..])
    {
      SortChildren(changed[i], keys);
    }
  }
}
