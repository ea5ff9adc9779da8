/** Grouping by key with an insertion-ordered map, the shape of `dedup`:
    the first element with a key is stored, each later element with the
    same key is merged into what is stored, and the stored values come back
    in the order their keys were first inserted. Stated for any element
    type, string-valued key and merge function. */
module Grouping {
  import opened Seqs

  function Keys<T>(xs: seq<T>, key: T -> string): (ks: seq<string>)
    ensures |ks| == |xs| && forall i :: 0 <= i < |xs| ==> ks[i] == key(xs[i])
  {
    seq(|xs|, i requires 0 <= i < |xs| => key(xs[i]))
  }

  /** The keys in the order a `Map` (or the key list of a plain object
      without numeric keys) first receives them. */
  function FirstSeenKeys<T>(xs: seq<T>, key: T -> string): seq<string> {
    Distinct(Keys(xs, key))
  }

  function HasKey<T>(key: T -> string, k: string): T -> bool {
    x => key(x) == k
  }

  /** The elements with key `k`, in arrival order. */
  function Group<T(==)>(xs: seq<T>, key: T -> string, k: string): seq<T> {
    Filter(xs, HasKey(key, k))
  }

  /** The first element merged in turn with each later one. */
  function Fold<T>(g: seq<T>, merge: (T, T) -> T): T
    requires |g| > 0
  {
    if |g| == 1 then g[0] else merge(Fold(g[..|g| - 1], merge), g[|g| - 1])
  }

  lemma FoldSnoc<T>(g: seq<T>, x: T, merge: (T, T) -> T)
    requires |g| > 0
    ensures Fold(g + [x], merge) == merge(Fold(g, merge), x)
  {
    assert (g + [x])[..|g|] == g;
  }

  lemma GroupsNonEmpty<T>(xs: seq<T>, key: T -> string)
    ensures forall k | k in FirstSeenKeys(xs, key) :: |Group(xs, key, k)| > 0
  {
    forall k | k in FirstSeenKeys(xs, key) ensures |Group(xs, key, k)| > 0 {
      var i :| 0 <= i < |xs| && Keys(xs, key)[i] == k;
      assert HasKey(key, k)(xs[i]);
    }
  }

  /** One merged value per key, in first-seen key order. */
  function GroupMerge<T(==)>(xs: seq<T>, key: T -> string, merge: (T, T) -> T): (out: seq<T>)
    ensures |out| == |FirstSeenKeys(xs, key)| <= |xs|
    ensures forall j | 0 <= j < |out| ::
      |Group(xs, key, FirstSeenKeys(xs, key)[j])| > 0 && out[j] == Fold(Group(xs, key, FirstSeenKeys(xs, key)[j]), merge)
  {
    var ks := FirstSeenKeys(xs, key);
    GroupsNonEmpty(xs, key);
    seq(|ks|, j requires 0 <= j < |ks| => Fold(Group(xs, key, ks[j]), merge))
  }

  // ---- one step of the loop ----

  lemma KeysStep<T>(seen: seq<T>, x: T, key: T -> string)
    ensures FirstSeenKeys(seen + [x], key) ==
      if key(x) in FirstSeenKeys(seen, key) then FirstSeenKeys(seen, key) else FirstSeenKeys(seen, key) + [key(x)]
  {
    assert Keys(seen + [x], key) == Keys(seen, key) + [key(x)];
    DistinctSnoc(Keys(seen, key), key(x));
  }

  lemma GroupOther<T>(seen: seq<T>, x: T, key: T -> string, k: string)
    requires key(x) != k
    ensures Group(seen + [x], key, k) == Group(seen, key, k)
  {
    FilterAppend(seen, [x], HasKey(key, k));
    assert [x][1..] == [];
    var b := Group(seen, key, k);
    assert b + [] == b;
  }

  lemma GroupOwn<T>(seen: seq<T>, x: T, key: T -> string)
    ensures Group(seen + [x], key, key(x)) == Group(seen, key, key(x)) + [x]
  {
    FilterAppend(seen, [x], HasKey(key, key(x)));
    assert [x][1..] == [];
  }

  lemma GroupOfUnseen<T>(seen: seq<T>, key: T -> string, k: string)
    requires k !in FirstSeenKeys(seen, key)
    ensures Group(seen, key, k) == []
  {
    forall j | 0 <= j < |seen| ensures !HasKey(key, k)(seen[j]) {
      assert Keys(seen, key)[j] == key(seen[j]);
    }
    FilterNone(seen, HasKey(key, k));
  }

  /** The loop's state once the elements `seen` have been processed:
      `keys` in insertion order and, for each, the group merged so far. */
  ghost predicate LoopState<T>(seen: seq<T>, key: T -> string, merge: (T, T) -> T, keys: seq<string>, byKey: map<string, T>) {
    && keys == FirstSeenKeys(seen, key)
    && (forall k :: k in byKey <==> k in keys)
    && GroupsMerged(seen, key, merge, byKey)
  }

  ghost predicate GroupsMerged<T>(seen: seq<T>, key: T -> string, merge: (T, T) -> T, byKey: map<string, T>) {
    forall k | k in byKey :: |Group(seen, key, k)| > 0 && byKey[k] == Fold(Group(seen, key, k), merge)
  }

  /** Before the first element: no keys, an empty map. */
  lemma InitState<T>(xs: seq<T>, key: T -> string, merge: (T, T) -> T)
    ensures LoopState(xs[..0], key, merge, [], map[])
  {
    assert xs[..0] == [];
    assert Keys(xs[..0], key) == [];
  }

  /** An element with a key not seen before is stored as it is. */
  lemma StepNewKey<T>(seen: seq<T>, x: T, key: T -> string, merge: (T, T) -> T, keys: seq<string>, byKey: map<string, T>)
    requires LoopState(seen, key, merge, keys, byKey) && key(x) !in byKey
    ensures LoopState(seen + [x], key, merge, keys + [key(x)], byKey[key(x) := x])
  {
    KeysStep(seen, x, key);
    assert keys + [key(x)] == FirstSeenKeys(seen + [x], key);
    NewGroupsMerged(seen, x, key, merge, keys, byKey);
  }

  lemma NewGroupsMerged<T>(seen: seq<T>, x: T, key: T -> string, merge: (T, T) -> T, keys: seq<string>, byKey: map<string, T>)
    requires LoopState(seen, key, merge, keys, byKey) && key(x) !in byKey
    ensures GroupsMerged(seen + [x], key, merge, byKey[key(x) := x])
  {
    var byKey' := byKey[key(x) := x];
    forall k | k in byKey'
      ensures |Group(seen + [x], key, k)| > 0 && byKey'[k] == Fold(Group(seen + [x], key, k), merge)
    {
      if k == key(x) {
        GroupOwn(seen, x, key);
        GroupOfUnseen(seen, key, k);
        assert Group(seen + [x], key, k) == [x];
      } else {
        GroupOther(seen, x, key, k);
      }
    }
  }

  /** An element with a key seen before is merged into the stored value. */
  lemma StepSeenKey<T>(seen: seq<T>, x: T, key: T -> string, merge: (T, T) -> T, keys: seq<string>, byKey: map<string, T>)
    requires LoopState(seen, key, merge, keys, byKey) && key(x) in byKey
    ensures LoopState(seen + [x], key, merge, keys, byKey[key(x) := merge(byKey[key(x)], x)])
  {
    KeysStep(seen, x, key);
    assert keys == FirstSeenKeys(seen + [x], key);
    SeenGroupsMerged(seen, x, key, merge, keys, byKey);
  }

  lemma SeenGroupsMerged<T>(seen: seq<T>, x: T, key: T -> string, merge: (T, T) -> T, keys: seq<string>, byKey: map<string, T>)
    requires LoopState(seen, key, merge, keys, byKey) && key(x) in byKey
    ensures GroupsMerged(seen + [x], key, merge, byKey[key(x) := merge(byKey[key(x)], x)])
  {
    var byKey' := byKey[key(x) := merge(byKey[key(x)], x)];
    forall k | k in byKey'
      ensures |Group(seen + [x], key, k)| > 0 && byKey'[k] == Fold(Group(seen + [x], key, k), merge)
    {
      if k == key(x) {
        OwnGroupGrows(seen, x, key, merge);
      } else {
        GroupOther(seen, x, key, k);
      }
    }
  }

  lemma OwnGroupGrows<T>(seen: seq<T>, x: T, key: T -> string, merge: (T, T) -> T)
    requires |Group(seen, key, key(x))| > 0
    ensures |Group(seen + [x], key, key(x))| > 0
    ensures Fold(Group(seen + [x], key, key(x)), merge) == merge(Fold(Group(seen, key, key(x)), merge), x)
  {
    GroupOwn(seen, x, key);
    FoldSnoc(Group(seen, key, key(x)), x, merge);
  }

  /** Once every element is seen, the stored values in key order are the
      specified result. */
  lemma FinalState<T>(xs: seq<T>, key: T -> string, merge: (T, T) -> T, keys: seq<string>, byKey: map<string, T>)
    requires LoopState(xs, key, merge, keys, byKey)
    ensures forall k | k in keys :: k in byKey
    ensures |keys| == |GroupMerge(xs, key, merge)|
    ensures forall j | 0 <= j < |keys| :: byKey[keys[j]] == GroupMerge(xs, key, merge)[j]
  {
  }

  /** One turn of the loop: store `x` under its key when the key is new,
      otherwise replace the stored value by its merge with `x`. */
  method Insert<T>(ghost seen: seq<T>, x: T, key: T -> string, merge: (T, T) -> T, keys: seq<string>, byKey: map<string, T>)
    returns (keys': seq<string>, byKey': map<string, T>)
    requires LoopState(seen, key, merge, keys, byKey)
    ensures LoopState(seen + [x], key, merge, keys', byKey')
  {
    var k := key(x);
    if k !in byKey {
      StepNewKey(seen, x, key, merge, keys, byKey);
      byKey' := byKey[k := x];
      keys' := keys + [k];
    } else {
      StepSeenKey(seen, x, key, merge, keys, byKey);
      byKey' := byKey[k := merge(byKey[k], x)];
      keys' := keys;
    }
  }

  /** The stored values listed in key insertion order. */
  method Collect<T(==)>(ghost xs: seq<T>, key: T -> string, merge: (T, T) -> T, keys: seq<string>, byKey: map<string, T>)
    returns (out: seq<T>)
    requires LoopState(xs, key, merge, keys, byKey)
    ensures out == GroupMerge(xs, key, merge)
  {
    FinalState(xs, key, merge, keys, byKey);
    out := seq(|keys|, j requires 0 <= j < |keys| => byKey[keys[j]]);
  }

  /** The loop of `dedup`: for each element, store it under its key when
      the key is new, otherwise replace the stored value by the merge of
      the stored value and the element; then list the stored values in key
      insertion order. */
  method GroupMergeLoop<T(==)>(xs: seq<T>, key: T -> string, merge: (T, T) -> T) returns (out: seq<T>)
    ensures out == GroupMerge(xs, key, merge)
  {
    var keys: seq<string> := [];
    var byKey: map<string, T> := map[];
    ghost var seen: seq<T> := [];
    var i := 0;
    InitState(xs, key, merge);
    while i < |xs|
      invariant 0 <= i <= |xs| && seen == xs[..i]
      invariant LoopState(seen, key, merge, keys, byKey)
    {
      keys, byKey := Insert(seen, xs[i], key, merge, keys, byKey);
      SliceSnoc(xs, i);
      seen := seen + [xs[i]];
      i := i + 1;
    }
    SliceAll(xs);
    out := Collect(xs, key, merge, keys, byKey);
  }

  // ---- what grouping promises ----

  /** Every element belongs to exactly one group: the one for its own key. */
  lemma Partition<T>(xs: seq<T>, key: T -> string, i: int)
    requires 0 <= i < |xs|
    ensures key(xs[i]) in FirstSeenKeys(xs, key)
    ensures forall j | 0 <= j < |FirstSeenKeys(xs, key)| ::
      xs[i] in Group(xs, key, FirstSeenKeys(xs, key)[j]) <==> j == IndexOfElem(FirstSeenKeys(xs, key), key(xs[i]))
  {
    var ks := FirstSeenKeys(xs, key);
    assert Keys(xs, key)[i] == key(xs[i]);
    var m := IndexOfElem(ks, key(xs[i]));
    forall j | 0 <= j < |ks| ensures xs[i] in Group(xs, key, ks[j]) <==> j == m {
      if j == m {
        assert HasKey(key, ks[j])(xs[i]);
      }
    }
  }

  /** An element whose key no other element has comes back unchanged, at
      the position of its key. */
  lemma LoneKeyUnchanged<T>(xs: seq<T>, key: T -> string, merge: (T, T) -> T, i: int)
    requires 0 <= i < |xs|
    requires forall n | 0 <= n < |xs| && n != i :: key(xs[n]) != key(xs[i])
    ensures key(xs[i]) in FirstSeenKeys(xs, key)
    ensures GroupMerge(xs, key, merge)[IndexOfElem(FirstSeenKeys(xs, key), key(xs[i]))] == xs[i]
  {
    Partition(xs, key, i);
    FilterSingle(xs, HasKey(key, key(xs[i])), i);
  }

  /** When no two elements share a key, every group is a single element and
      the result is the input. */
  lemma DistinctKeysUnchanged<T>(xs: seq<T>, key: T -> string, merge: (T, T) -> T)
    requires NoDups(Keys(xs, key))
    ensures GroupMerge(xs, key, merge) == xs
  {
    DistinctOfNoDups(Keys(xs, key));
    var out := GroupMerge(xs, key, merge);
    forall j | 0 <= j < |xs| ensures out[j] == xs[j] {
      var k := key(xs[j]);
      assert FirstSeenKeys(xs, key)[j] == k;
      forall n | 0 <= n < |xs| && n != j ensures !HasKey(key, k)(xs[n]) {
        assert Keys(xs, key)[n] != Keys(xs, key)[j];
      }
      FilterSingle(xs, HasKey(key, k), j);
    }
  }
}
