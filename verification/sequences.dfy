/** Order-preserving filtering and the "first best" / "last worst" selections that the
    stream selectors of the source compute with stable sorts. */
module Sequences {
  import opened Wrappers

  /** `list(filter(keep, s))`. */
  function Filter<T>(s: seq<T>, keep: T -> bool): (r: seq<T>)
    ensures |r| <= |s|
    ensures forall i :: 0 <= i < |r| ==> r[i] in s && keep(r[i])
    ensures forall i :: 0 <= i < |s| && keep(s[i]) ==> s[i] in r
    decreases |s|
  {
    if |s| == 0 then []
    else if keep(s[0]) then [s[0]] + Filter(s[1..], keep)
    else Filter(s[1..], keep)
  }

  /** Filtering preserves order: filtering a concatenation filters each part in place. */
  lemma {:induction false} FilterAppend<T>(a: seq<T>, b: seq<T>, keep: T -> bool)
    ensures Filter(a + b, keep) == Filter(a, keep) + Filter(b, keep)
    decreases |a|
  {
    if |a| == 0 {
      assert a + b == b;
    } else {
      assert (a + b)[0] == a[0];
      assert (a + b)[1..] == a[1..] + b;
      FilterAppend(a[1..], b, keep);
    }
  }

  /** Filtering keeps every element exactly when the predicate holds of all of them. */
  lemma {:induction false} FilterAll<T>(s: seq<T>, keep: T -> bool)
    ensures Filter(s, keep) == s <==> forall i :: 0 <= i < |s| ==> keep(s[i])
    decreases |s|
  {
    if |s| > 0 {
      FilterAll(s[1..], keep);
      if !keep(s[0]) {
        assert |Filter(s, keep)| < |s| by {
          assert Filter(s, keep) == Filter(s[1..], keep);
        }
      } else {
        assert forall i :: 1 <= i < |s| ==> s[i] == s[1..][i - 1];
      }
    }
  }

  /** The position a stable descending sort puts first: the earliest maximal key. */
  function FirstArgMax(keys: seq<int>): (k: nat)
    requires |keys| > 0
    ensures k < |keys|
    ensures forall j :: 0 <= j < |keys| ==> keys[j] <= keys[k]
    ensures forall j :: 0 <= j < k ==> keys[j] < keys[k]
  {
    if |keys| == 1 then 0
    else
      var k := FirstArgMax(keys[..|keys| - 1]);
      if keys[|keys| - 1] > keys[k] then |keys| - 1 else k
  }

  /** The position a stable descending sort puts last: the latest minimal key. */
  function LastArgMin(keys: seq<int>): (k: nat)
    requires |keys| > 0
    ensures k < |keys|
    ensures forall j :: 0 <= j < |keys| ==> keys[k] <= keys[j]
    ensures forall j :: k < j < |keys| ==> keys[k] < keys[j]
  {
    if |keys| == 1 then 0
    else
      var k := LastArgMin(keys[..|keys| - 1]);
      if keys[|keys| - 1] <= keys[k] then |keys| - 1 else k
  }

  /** The earliest maximal key among those at most `ceiling`, if any is. */
  function FirstArgMaxAtMost(keys: seq<int>, ceiling: int): (k: Option<nat>)
    ensures k.None? <==> forall j :: 0 <= j < |keys| ==> keys[j] > ceiling
    ensures k.Some? ==> k.value < |keys| && keys[k.value] <= ceiling
    ensures k.Some? ==> forall j :: 0 <= j < |keys| && keys[j] <= ceiling ==> keys[j] <= keys[k.value]
    ensures k.Some? ==> forall j :: 0 <= j < k.value && keys[j] <= ceiling ==> keys[j] < keys[k.value]
  {
    if |keys| == 0 then None
    else
      var n := |keys| - 1;
      var k := FirstArgMaxAtMost(keys[..n], ceiling);
      assert forall j :: 0 <= j < n ==> keys[..n][j] == keys[j];
      if keys[n] <= ceiling && (k.None? || keys[n] > keys[k.value]) then Some(n) else k
  }

  /** The elements `key` holds of and the others, each in their original order. */
  function Partition<T>(s: seq<T>, key: T -> bool): (r: (seq<T>, seq<T>))
    ensures forall i :: 0 <= i < |r.0| ==> key(r.0[i])
    ensures forall i :: 0 <= i < |r.1| ==> !key(r.1[i])
    ensures |r.0| + |r.1| == |s|
    decreases |s|
  {
    if |s| == 0 then ([], [])
    else
      var (p, o) := Partition(s[1..], key);
      if key(s[0]) then ([s[0]] + p, o) else (p, [s[0]] + o)
  }

  /** Partitioning loses and adds nothing. */
  lemma {:induction false} PartitionMultiset<T>(s: seq<T>, key: T -> bool)
    ensures multiset(Partition(s, key).0) + multiset(Partition(s, key).1) == multiset(s)
    decreases |s|
  {
    if |s| > 0 {
      PartitionMultiset(s[1..], key);
      assert s == [s[0]] + s[1..];
    }
  }

  /** `sorted(s, key=key, reverse=True)` for a boolean key: Python's sort is
      stable also in reverse, so the elements with the key come first and each
      class keeps its order. */
  function StableByKey<T>(s: seq<T>, key: T -> bool): seq<T> {
    var (p, o) := Partition(s, key);
    p + o
  }

  /** The order is a permutation with every keyed element before every other. */
  lemma StableByKeySorted<T>(s: seq<T>, key: T -> bool)
    ensures |StableByKey(s, key)| == |s|
    ensures multiset(StableByKey(s, key)) == multiset(s)
    ensures var r := StableByKey(s, key);
      forall i, j :: 0 <= i < j < |r| && key(r[j]) ==> key(r[i])
  {
    var (p, o) := Partition(s, key);
    var r := p + o;
    PartitionMultiset(s, key);
    forall i, j | 0 <= i < j < |r|
      ensures key(r[j]) ==> key(r[i])
    {
      if i < |p| {
        assert r[i] == p[i];
      } else {
        assert r[j] == o[j - |p|];
      }
    }
  }

  /** Partitioning a concatenation partitions each part. */
  lemma {:induction false} PartitionAppend<T>(a: seq<T>, b: seq<T>, key: T -> bool)
    ensures Partition(a + b, key) == (Partition(a, key).0 + Partition(b, key).0, Partition(a, key).1 + Partition(b, key).1)
    decreases |a|
  {
    if |a| == 0 {
      assert a + b == b;
      assert Partition(a, key) == ([], []);
      assert [] + Partition(b, key).0 == Partition(b, key).0;
      assert [] + Partition(b, key).1 == Partition(b, key).1;
    } else {
      var s := a + b;
      assert s[0] == a[0] && s[1..] == a[1..] + b;
      PartitionAppend(a[1..], b, key);
      var (p1, o1) := Partition(a[1..], key);
      var (p2, o2) := Partition(b, key);
      if key(a[0]) {
        assert [a[0]] + (p1 + p2) == ([a[0]] + p1) + p2;
      } else {
        assert [a[0]] + (o1 + o2) == ([a[0]] + o1) + o2;
      }
    }
  }

  /** Elements of one class partition to themselves. */
  lemma {:induction false} PartitionUniform<T>(s: seq<T>, key: T -> bool, keyed: bool)
    requires forall i :: 0 <= i < |s| ==> key(s[i]) == keyed
    ensures Partition(s, key) == if keyed then (s, []) else ([], s)
    decreases |s|
  {
    if |s| > 0 {
      PartitionUniform(s[1..], key, keyed);
      assert s == [s[0]] + s[1..];
    }
  }

  /** The order is stable: each class keeps its order, so sorting again
      changes nothing. */
  lemma StableByKeyStable<T>(s: seq<T>, key: T -> bool)
    ensures Partition(StableByKey(s, key), key) == Partition(s, key)
    ensures StableByKey(StableByKey(s, key), key) == StableByKey(s, key)
  {
    var (p, o) := Partition(s, key);
    PartitionAppend(p, o, key);
    PartitionUniform(p, key, true);
    PartitionUniform(o, key, false);
    assert p + [] == p;
    assert [] + o == o;
  }

  /** Insert `x` in front of the first element whose key is not below its own. */
  function InsertByKey<T>(x: T, s: seq<T>, key: T -> int): (r: seq<T>)
    ensures |r| == |s| + 1
    decreases |s|
  {
    if |s| == 0 || key(x) <= key(s[0]) then [x] + s else [s[0]] + InsertByKey(x, s[1..], key)
  }

  /** `sorted(s, key=key)`, as an insertion sort from the back. */
  function SortByKey<T>(s: seq<T>, key: T -> int): (r: seq<T>)
    ensures |r| == |s|
    decreases |s|
  {
    if |s| == 0 then [] else InsertByKey(s[0], SortByKey(s[1..], key), key)
  }

  predicate SortedByKey<T>(s: seq<T>, key: T -> int) {
    forall i, j :: 0 <= i < j < |s| ==> key(s[i]) <= key(s[j])
  }

  /** Every key in `s` is at least `v`. */
  predicate KeysAtLeast<T>(s: seq<T>, key: T -> int, v: int) {
    forall i :: 0 <= i < |s| ==> v <= key(s[i])
  }

  lemma {:induction false} InsertAtLeast<T>(x: T, s: seq<T>, key: T -> int, v: int)
    requires v <= key(x) && KeysAtLeast(s, key, v)
    ensures KeysAtLeast(InsertByKey(x, s, key), key, v)
    decreases |s|
  {
    if |s| > 0 && key(x) > key(s[0]) {
      InsertAtLeast(x, s[1..], key, v);
      var r := InsertByKey(x, s, key);
      assert r[1..] == InsertByKey(x, s[1..], key);
      forall i | 0 <= i < |r| ensures v <= key(r[i]) {
        if i > 0 { assert r[i] == r[1..][i - 1]; }
      }
    }
  }

  lemma {:induction false} InsertSorted<T>(x: T, s: seq<T>, key: T -> int)
    requires SortedByKey(s, key)
    ensures SortedByKey(InsertByKey(x, s, key), key)
    decreases |s|
  {
    if |s| == 0 || key(x) <= key(s[0]) {
      var r := [x] + s;
      forall i, j | 0 <= i < j < |r| ensures key(r[i]) <= key(r[j]) {
        assert r[j] == s[j - 1];
        if i > 0 { assert r[i] == s[i - 1]; } else { assert key(s[0]) <= key(s[j - 1]); }
      }
    } else {
      var t := InsertByKey(x, s[1..], key);
      InsertSorted(x, s[1..], key);
      assert KeysAtLeast(s[1..], key, key(s[0])) by {
        forall i | 0 <= i < |s[1..]| ensures key(s[0]) <= key(s[1..][i]) {
          assert s[1..][i] == s[i + 1];
        }
      }
      InsertAtLeast(x, s[1..], key, key(s[0]));
      var r := [s[0]] + t;
      forall i, j | 0 <= i < j < |r| ensures key(r[i]) <= key(r[j]) {
        assert r[j] == t[j - 1];
        if i > 0 { assert r[i] == t[i - 1]; }
      }
    }
  }

  lemma {:induction false} InsertMultiset<T>(x: T, s: seq<T>, key: T -> int)
    ensures multiset(InsertByKey(x, s, key)) == multiset{x} + multiset(s)
    decreases |s|
  {
    if |s| > 0 && key(x) > key(s[0]) {
      InsertMultiset(x, s[1..], key);
      assert s == [s[0]] + s[1..];
    }
  }

  /** The sort yields an ascending permutation. */
  lemma {:induction false} SortByKeySorted<T>(s: seq<T>, key: T -> int)
    ensures SortedByKey(SortByKey(s, key), key)
    ensures multiset(SortByKey(s, key)) == multiset(s)
    decreases |s|
  {
    if |s| > 0 {
      SortByKeySorted(s[1..], key);
      InsertSorted(s[0], SortByKey(s[1..], key), key);
      InsertMultiset(s[0], SortByKey(s[1..], key), key);
      assert s == [s[0]] + s[1..];
    }
  }

  /** The test "has key `k`". */
  function KeyIs<T>(key: T -> int, k: int): T -> bool {
    (x: T) => key(x) == k
  }

  lemma {:induction false} InsertStable<T>(x: T, s: seq<T>, key: T -> int, k: int)
    ensures Filter(InsertByKey(x, s, key), KeyIs(key, k)) == (if key(x) == k then [x] else []) + Filter(s, KeyIs(key, k))
    decreases |s|
  {
    var f := KeyIs(key, k);
    if |s| == 0 || key(x) <= key(s[0]) {
      var r := [x] + s;
      assert r[0] == x && r[1..] == s;
    } else {
      var t := InsertByKey(x, s[1..], key);
      var r := [s[0]] + t;
      assert r[0] == s[0] && r[1..] == t;
      InsertStable(x, s[1..], key, k);
      if key(s[0]) == k {
        assert key(x) != k;
      }
    }
  }

  /** The sort is stable: the elements with any one key keep their order. */
  lemma {:induction false} SortByKeyStable<T>(s: seq<T>, key: T -> int, k: int)
    ensures Filter(SortByKey(s, key), KeyIs(key, k)) == Filter(s, KeyIs(key, k))
    decreases |s|
  {
    if |s| > 0 {
      SortByKeyStable(s[1..], key, k);
      InsertStable(s[0], SortByKey(s[1..], key), key, k);
    }
  }
}
