/** Sequence operations the pipeline uses: `Array.from(new Set(s))`,
    `Array.prototype.filter`, and the subsequence relation. */
module Seqs {

  predicate NoDups<T(==)>(s: seq<T>) {
    forall i, j :: 0 <= i < j < |s| ==> s[i] != s[j]
  }

  /** `Array.from(new Set(s))`: each element once, at its first occurrence,
      in the order of first occurrence (a `Set` iterates in insertion order). */
  function Distinct<T(==)>(s: seq<T>): (r: seq<T>)
    ensures NoDups(r)
    ensures forall i :: 0 <= i < |r| ==> r[i] in s
    ensures forall i :: 0 <= i < |s| ==> s[i] in r
    ensures |r| <= |s|
  {
    if s == [] then []
    else
      var d := Distinct(s[..|s| - 1]);
      if s[|s| - 1] in d then d else d + [s[|s| - 1]]
  }

  /** A sequence without duplicates is its own `Set`. */
  lemma {:induction false} DistinctOfNoDups<T>(s: seq<T>)
    requires NoDups(s)
    ensures Distinct(s) == s
  {
    if s != [] {
      DistinctOfNoDups(s[..|s| - 1]);
      assert s[|s| - 1] !in s[..|s| - 1];
    }
  }

  /** Folding `new Set([...acc, ...next])` step by step is one `Set` over
      the concatenation. */
  lemma {:induction false} DistinctAppend<T>(a: seq<T>, b: seq<T>)
    ensures Distinct(Distinct(a) + b) == Distinct(a + b)
  {
    if b == [] {
      assert Distinct(a) + b == Distinct(a);
      assert a + b == a;
      DistinctOfNoDups(Distinct(a));
    } else {
      var b', x := b[..|b| - 1], b[|b| - 1];
      DistinctAppend(a, b');
      AppendSnoc(Distinct(a), b);
      AppendSnoc(a, b);
      DistinctSnoc(Distinct(a) + b', x);
      DistinctSnoc(a + b', x);
    }
  }

  lemma AppendSnoc<T>(u: seq<T>, b: seq<T>)
    requires |b| > 0
    ensures u + b == (u + b[..|b| - 1]) + [b[|b| - 1]]
  {
  }

  lemma DistinctSnoc<T>(s: seq<T>, x: T)
    ensures Distinct(s + [x]) == if x in Distinct(s) then Distinct(s) else Distinct(s) + [x]
  {
    assert (s + [x])[..|s|] == s;
  }

  /** The elements of `a` come first, in `a`'s own first-occurrence order. */
  lemma {:induction false} DistinctPrefix<T>(a: seq<T>, b: seq<T>)
    ensures Distinct(a) <= Distinct(a + b)
  {
    if b == [] {
      assert a + b == a;
    } else {
      DistinctPrefix(a, b[..|b| - 1]);
      assert (a + b)[..|a + b| - 1] == a + b[..|b| - 1];
    }
  }

  /** A duplicate-free sequence has as many elements as its set. */
  lemma {:induction false} NoDupsCard<T>(s: seq<T>)
    requires NoDups(s)
    ensures |set x | x in s| == |s|
  {
    if s != [] {
      var p := s[..|s| - 1];
      NoDupsCard(p);
      assert (set x | x in s) == (set x | x in p) + {s[|s| - 1]};
      assert s[|s| - 1] !in p;
    }
  }

  /** `a` is a subsequence of `b`: `a` is `b` with some elements left out. */
  predicate IsSubseq<T(==)>(a: seq<T>, b: seq<T>)
    decreases |b|
  {
    a == [] || (b != [] && if a[0] == b[0] then IsSubseq(a[1..], b[1..]) else IsSubseq(a, b[1..]))
  }

  lemma {:induction false} SubseqRefl<T>(s: seq<T>)
    ensures IsSubseq(s, s)
  {
    if s != [] {
      SubseqRefl(s[1..]);
    }
  }

  /** `s.filter(p)`. */
  function Filter<T(==)>(s: seq<T>, p: T -> bool): (r: seq<T>)
    ensures |r| <= |s|
    ensures forall i :: 0 <= i < |r| ==> r[i] in s && p(r[i])
    ensures forall i :: 0 <= i < |s| && p(s[i]) ==> s[i] in r
  {
    if s == [] then []
    else if p(s[0]) then [s[0]] + Filter(s[1..], p)
    else Filter(s[1..], p)
  }

  /** Filtering only leaves elements out. */
  lemma {:induction false} FilterSubseq<T>(s: seq<T>, p: T -> bool)
    ensures IsSubseq(Filter(s, p), s)
  {
    if s != [] {
      FilterSubseq(s[1..], p);
    }
  }

  lemma {:induction false} FilterAppend<T>(a: seq<T>, b: seq<T>, p: T -> bool)
    ensures Filter(a + b, p) == Filter(a, p) + Filter(b, p)
  {
    if a != [] {
      FilterAppend(a[1..], b, p);
      assert (a + b)[1..] == a[1..] + b;
    } else {
      assert a + b == b;
    }
  }

  /** When every element passes, filtering changes nothing. */
  lemma {:induction false} FilterAll<T>(s: seq<T>, p: T -> bool)
    requires forall x :: x in s ==> p(x)
    ensures Filter(s, p) == s
  {
    if s != [] {
      FilterAll(s[1..], p);
    }
  }

  /** Two filters can be applied in either order. */
  lemma {:induction false} FilterCommutes<T>(s: seq<T>, p: T -> bool, q: T -> bool)
    ensures Filter(Filter(s, p), q) == Filter(Filter(s, q), p)
  {
    if s != [] {
      FilterCommutes(s[1..], p, q);
    }
  }

  /** Filtering keeps exactly the elements that pass, counted with repetition. */
  lemma {:induction false} FilterCount<T>(s: seq<T>, p: T -> bool, x: T)
    ensures multiset(Filter(s, p))[x] == if p(x) then multiset(s)[x] else 0
  {
    if s != [] {
      FilterCount(s[1..], p, x);
      assert s == [s[0]] + s[1..];
    }
  }

  /** `xs[0] || xs[1] || ... || xs[n-1]` under the truthiness `p`: the first
      element that satisfies `p`, or the last element when none does. */
  function FirstWhere<T>(xs: seq<T>, p: T -> bool): (r: T)
    requires |xs| > 0
    ensures r in xs
    ensures p(r) <==> exists i | 0 <= i < |xs| :: p(xs[i])
    ensures forall i | 0 <= i < |xs| && p(xs[i]) && forall j | 0 <= j < i :: !p(xs[j]) :: r == xs[i]
    ensures !p(r) ==> r == xs[|xs| - 1]
  {
    if |xs| == 1 || p(xs[0]) then xs[0]
    else FirstWhere(xs[1..], p)
  }

  /** Extending the `||` chain on the right by one operand. */
  lemma {:induction false} FirstWhereSnoc<T>(xs: seq<T>, x: T, p: T -> bool)
    requires |xs| > 0
    ensures FirstWhere(xs + [x], p) == if p(FirstWhere(xs, p)) then FirstWhere(xs, p) else x
  {
    if |xs| > 1 && !p(xs[0]) {
      assert (xs + [x])[1..] == xs[1..] + [x];
      FirstWhereSnoc(xs[1..], x, p);
    }
  }

  /** Index of the first occurrence of `x`. */
  function IndexOfElem<T(==)>(s: seq<T>, x: T): (k: nat)
    requires x in s
    ensures k < |s| && s[k] == x
    ensures forall j | 0 <= j < k :: s[j] != x
  {
    if s[0] == x then 0 else 1 + IndexOfElem(s[1..], x)
  }

  lemma IndexOfElemUnique<T>(s: seq<T>, x: T, k: int)
    requires 0 <= k < |s| && s[k] == x
    requires forall j | 0 <= j < k :: s[j] != x
    ensures IndexOfElem(s, x) == k
  {
  }

  /** `Distinct` lists the elements in the order of their first occurrence. */
  lemma {:induction false} DistinctOrder<T>(s: seq<T>, i: int, j: int)
    requires 0 <= i < j < |Distinct(s)|
    ensures IndexOfElem(s, Distinct(s)[i]) < IndexOfElem(s, Distinct(s)[j])
  {
    var p, x := s[..|s| - 1], s[|s| - 1];
    LastSplit(s);
    var d := Distinct(p);
    DistinctSnoc(p, x);
    var a, b := Distinct(s)[i], Distinct(s)[j];
    assert a == d[i];
    IndexOfElemSnoc(p, x, a);
    if j < |d| {
      IndexOfElemSnoc(p, x, b);
      DistinctOrder(p, i, j);
    } else {
      IndexOfElemNew(p, x);
    }
  }

  lemma LastSplit<T>(s: seq<T>)
    requires |s| > 0
    ensures s == s[..|s| - 1] + [s[|s| - 1]]
  {
  }

  /** Appending keeps the first occurrence of an element already present. */
  lemma IndexOfElemSnoc<T>(p: seq<T>, x: T, a: T)
    requires a in p
    ensures IndexOfElem(p + [x], a) == IndexOfElem(p, a)
  {
    IndexOfElemUnique(p + [x], a, IndexOfElem(p, a));
  }

  lemma IndexOfElemNew<T>(p: seq<T>, x: T)
    requires x !in p
    ensures IndexOfElem(p + [x], x) == |p|
  {
    IndexOfElemUnique(p + [x], x, |p|);
  }

  /** Filtering a sequence in which exactly one element passes. */
  lemma {:induction false} FilterSingle<T>(s: seq<T>, p: T -> bool, i: int)
    requires 0 <= i < |s| && p(s[i])
    requires forall j | 0 <= j < |s| && j != i :: !p(s[j])
    ensures Filter(s, p) == [s[i]]
  {
    if i == 0 {
      FilterNone(s[1..], p);
    } else {
      FilterSingle(s[1..], p, i - 1);
    }
  }

  lemma {:induction false} FilterNone<T>(s: seq<T>, p: T -> bool)
    requires forall j | 0 <= j < |s| :: !p(s[j])
    ensures Filter(s, p) == []
  {
    if s != [] {
      FilterNone(s[1..], p);
    }
  }

  /** In a duplicate-free sequence each element occurs once. */
  lemma {:induction false} NoDupsMultiplicity<T>(s: seq<T>, x: T)
    requires NoDups(s)
    ensures multiset(s)[x] == if x in s then 1 else 0
  {
    if s != [] {
      var p := s[..|s| - 1];
      assert s == p + [s[|s| - 1]];
      NoDupsMultiplicity(p, x);
      assert s[|s| - 1] !in p;
    }
  }

  /** `xs.findIndex(p)`: the index of the first element satisfying `p`, or
      -1 when there is none. */
  function FindIndex<T>(xs: seq<T>, p: T -> bool): (k: int)
    ensures -1 <= k < |xs|
    ensures k >= 0 ==> p(xs[k])
    ensures forall j | 0 <= j < |xs| && (k < 0 || j < k) :: !p(xs[j])
  {
    if xs == [] then -1
    else if p(xs[0]) then 0
    else
      var k := FindIndex(xs[1..], p);
      if k < 0 then -1 else k + 1
  }

  /** A prefix one element longer. */
  lemma SliceSnoc<T>(xs: seq<T>, i: int)
    requires 0 <= i < |xs|
    ensures xs[..i + 1] == xs[..i] + [xs[i]]
  {
  }

  lemma SliceAll<T>(xs: seq<T>)
    ensures xs[..|xs|] == xs
  {
  }

  function InTable<K(==), S>(table: map<K, S>): K -> bool {
    (k: K) => k in table
  }

  /** The keys of `keys` that `table` has, each mapped with its entry by
      `f`, in the order of `keys`. */
  function MapPresent<K(==), S, R>(keys: seq<K>, table: map<K, S>, f: (K, S) -> R): (out: seq<R>)
    ensures |out| == |Filter(keys, InTable(table))| <= |keys|
  {
    var kept := Filter(keys, InTable(table));
    seq(|kept|, j requires 0 <= j < |kept| => f(kept[j], table[kept[j]]))
  }

  lemma MapPresentSnoc<K, S, R>(keys: seq<K>, k: K, table: map<K, S>, f: (K, S) -> R)
    ensures MapPresent(keys + [k], table, f) == MapPresent(keys, table, f) + if k in table then [f(k, table[k])] else []
  {
    var kept, kept' := Filter(keys, InTable(table)), Filter(keys + [k], InTable(table));
    FilterAppend(keys, [k], InTable(table));
    assert [k][1..] == [];
    var tail := if k in table then [k] else [];
    assert Filter([k], InTable(table)) == tail;
    assert kept' == kept + tail;
    var a, b := MapPresent(keys + [k], table, f), MapPresent(keys, table, f);
    var c := if k in table then [f(k, table[k])] else [];
    assert |a| == |b + c|;
    forall j | 0 <= j < |a| ensures a[j] == (b + c)[j] {
      if j < |kept| {
        assert kept'[j] == kept[j];
      }
    }
  }

  /** `r` is `f` applied to one of `keys` that `table` has. */
  predicate MappedFrom<K(==), S, R(==)>(keys: seq<K>, table: map<K, S>, f: (K, S) -> R, r: R) {
    exists i | 0 <= i < |keys| :: keys[i] in table && r == f(keys[i], table[keys[i]])
  }

  lemma MapPresentOrigin<K, S, R>(keys: seq<K>, table: map<K, S>, f: (K, S) -> R, j: int) returns (i: int)
    requires 0 <= j < |MapPresent(keys, table, f)|
    ensures 0 <= i < |keys| && keys[i] in table && MapPresent(keys, table, f)[j] == f(keys[i], table[keys[i]])
  {
    var kept := Filter(keys, InTable(table));
    assert kept[j] in keys;
    i :| 0 <= i < |keys| && keys[i] == kept[j];
  }

  /** Every key the table has gives an element, and every element comes
      from a key the table has. */
  lemma MapPresentExactly<K, S, R>(keys: seq<K>, table: map<K, S>, f: (K, S) -> R)
    ensures forall j | 0 <= j < |MapPresent(keys, table, f)| :: MappedFrom(keys, table, f, MapPresent(keys, table, f)[j])
    ensures forall i | 0 <= i < |keys| && keys[i] in table :: f(keys[i], table[keys[i]]) in MapPresent(keys, table, f)
  {
    forall j | 0 <= j < |MapPresent(keys, table, f)| ensures MappedFrom(keys, table, f, MapPresent(keys, table, f)[j]) {
      var i := MapPresentOrigin(keys, table, f, j);
    }
    forall i | 0 <= i < |keys| && keys[i] in table ensures f(keys[i], table[keys[i]]) in MapPresent(keys, table, f) {
      var kept := Filter(keys, InTable(table));
      assert InTable(table)(keys[i]);
      var j :| 0 <= j < |kept| && kept[j] == keys[i];
      assert MapPresent(keys, table, f)[j] == f(keys[i], table[keys[i]]);
    }
  }
}
