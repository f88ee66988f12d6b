/**
 * Grouping a sequence by a key in first-seen order, the behaviour of building a
 * JavaScript object keyed by status while walking a list: keys keep the order in
 * which they first appear and each bucket keeps the original order of its items.
 */
module OrderedGroups {

  /** The distinct keys of `items`, in the order in which they first appear. */
  function FirstSeen<T, K(==)>(items: seq<T>, key: T -> K): (ks: seq<K>)
    ensures forall i, j :: 0 <= i < j < |ks| ==> ks[i] != ks[j]
    ensures forall i :: 0 <= i < |items| ==> key(items[i]) in ks
    decreases |items|
  {
    if |items| == 0 then []
    else
      var init := items[..|items| - 1];
      var prev := FirstSeen(init, key);
      var k := key(items[|items| - 1]);
      assert forall i :: 0 <= i < |init| ==> init[i] == items[i];
      if k in prev then prev else prev + [k]
  }

  /** The items whose key is `k`, in their original order. */
  function Bucket<T, K(==)>(items: seq<T>, key: T -> K, k: K): seq<T>
    decreases |items|
  {
    if |items| == 0 then []
    else
      var last := items[|items| - 1];
      Bucket(items[..|items| - 1], key, k) + (if key(last) == k then [last] else [])
  }

  /** The buckets of `items` looked up by key, as the object built while walking the list. */
  function Buckets<T, K(==)>(items: seq<T>, key: T -> K): map<K, seq<T>>
  {
    map k | k in FirstSeen(items, key) :: Bucket(items, key, k)
  }

  /** Appending an item adds it to the bucket of its key, opening that bucket when the key is new. */
  lemma {:induction false} BucketsSnoc<T, K>(items: seq<T>, key: T -> K)
    requires |items| > 0
    ensures var n := |items|;
      var b := Buckets(items[..n - 1], key);
      var k := key(items[n - 1]);
      Buckets(items, key) == b[k := (if k in b then b[k] else []) + [items[n - 1]]]
  {
    var n := |items|;
    var init, x := items[..n - 1], items[n - 1];
    var b := Buckets(init, key);
    var k := key(x);
    var want := b[k := (if k in b then b[k] else []) + [x]];
    BucketSpec(init, key, k);
    forall j | j in FirstSeen(items, key) ensures Buckets(items, key)[j] == want[j] {
      BucketSnoc(items, key, j);
    }
    assert Buckets(items, key).Keys == want.Keys;
  }

  /**
   * One pass over `items` that opens a bucket the first time a key is met and
   * appends each item to the bucket of its key.
   */
  method GroupInOrder<T, K(==)>(items: seq<T>, key: T -> K) returns (keys: seq<K>, buckets: map<K, seq<T>>)
    ensures keys == FirstSeen(items, key)
    ensures buckets == Buckets(items, key)
  {
    keys := [];
    buckets := map[];
    for i := 0 to |items|
      invariant keys == FirstSeen(items[..i], key)
      invariant buckets == Buckets(items[..i], key)
    {
      GroupStep(items, key, i);
      var k := key(items[i]);
      var bucket := if k in buckets then buckets[k] else [];
      if k !in buckets {
        keys := keys + [k];
      }
      buckets := buckets[k := bucket + [items[i]]];
    }
    assert items[..|items|] == items;
  }

  /** How the keys and buckets of a prefix change when the prefix grows by one item. */
  lemma GroupStep<T, K>(items: seq<T>, key: T -> K, i: nat)
    requires i < |items|
    ensures var k, keys, buckets := key(items[i]), FirstSeen(items[..i], key), Buckets(items[..i], key);
            && (k in buckets <==> k in keys)
            && FirstSeen(items[..i + 1], key) == (if k in keys then keys else keys + [k])
            && Buckets(items[..i + 1], key) == buckets[k := (if k in buckets then buckets[k] else []) + [items[i]]]
  {
    var next := items[..i + 1];
    assert next[..|next| - 1] == items[..i];
    assert next[|next| - 1] == items[i];
    FirstSeenSnoc(next, key);
    BucketsSnoc(next, key);
  }

  /** Appending an item appends its key to the first-seen keys when the key is new. */
  lemma FirstSeenSnoc<T, K>(items: seq<T>, key: T -> K)
    requires |items| > 0
    ensures var keys, k := FirstSeen(items[..|items| - 1], key), key(items[|items| - 1]);
            && (k in Buckets(items[..|items| - 1], key) <==> k in keys)
            && FirstSeen(items, key) == (if k in keys then keys else keys + [k])
  {
  }

  /** The buckets of `items`, one per key of `FirstSeen`, in the same order. */
  function Grouped<T, K(==)>(items: seq<T>, key: T -> K): seq<seq<T>>
  {
    var ks := FirstSeen(items, key);
    seq(|ks|, j requires 0 <= j < |ks| => Bucket(items, key, ks[j]))
  }

  /** The buckets laid end to end. */
  function Concat<T>(ss: seq<seq<T>>): seq<T>
    decreases |ss|
  {
    if |ss| == 0 then [] else Concat(ss[..|ss| - 1]) + ss[|ss| - 1]
  }

  /** Equal keys occupy one contiguous run of `items`. */
  predicate Contiguous<T, K(==)>(items: seq<T>, key: T -> K)
  {
    forall i, j, l :: 0 <= i < j < l < |items| && key(items[i]) == key(items[l]) ==> key(items[j]) == key(items[i])
  }

  /** Every item of a bucket has the bucket's key, and a bucket is empty exactly when its key never occurs. */
  lemma {:induction false} BucketSpec<T, K>(items: seq<T>, key: T -> K, k: K)
    ensures forall x :: x in Bucket(items, key, k) ==> key(x) == k
    ensures |Bucket(items, key, k)| == 0 <==> forall i :: 0 <= i < |items| ==> key(items[i]) != k
    ensures |Bucket(items, key, k)| <= |items|
    decreases |items|
  {
    if |items| > 0 {
      var init := items[..|items| - 1];
      BucketSpec(init, key, k);
      assert forall i :: 0 <= i < |init| ==> init[i] == items[i];
    }
  }

  /** Extending the last bucket by `x` extends the concatenation by `x`. */
  lemma {:induction false} ConcatExtendLast<T>(ss: seq<seq<T>>, ts: seq<seq<T>>, x: T)
    requires |ss| == |ts| > 0
    requires forall j :: 0 <= j < |ss| ==> ts[j] == if j == |ss| - 1 then ss[j] + [x] else ss[j]
    ensures Concat(ts) == Concat(ss) + [x]
  {
    var n := |ss|;
    var ss0, ts0 := ss[..n - 1], ts[..n - 1];
    assert forall j :: 0 <= j < n - 1 ==> ts0[j] == ss0[j];
    assert ts0 == ss0;
    var c := Concat(ss0);
    assert Concat(ss) == c + ss[n - 1];
    assert Concat(ts) == c + (ss[n - 1] + [x]);
    assert c + (ss[n - 1] + [x]) == (c + ss[n - 1]) + [x];
  }

  /** Extending exactly one bucket by `x` adds `x` to the concatenation. */
  lemma {:induction false} ConcatExtendOne<T>(ss: seq<seq<T>>, ts: seq<seq<T>>, j0: nat, x: T)
    requires |ss| == |ts| && j0 < |ss|
    requires forall j :: 0 <= j < |ss| ==> ts[j] == if j == j0 then ss[j] + [x] else ss[j]
    ensures multiset(Concat(ts)) == multiset(Concat(ss)) + multiset{x}
    decreases |ss|
  {
    var n := |ss|;
    if j0 == n - 1 {
      ConcatExtendLast(ss, ts, x);
    } else {
      var ss0, ts0 := ss[..|ss| - 1], ts[..|ts| - 1];
      assert forall j :: 0 <= j < n - 1 ==> ts0[j] == ts[j] && ss0[j] == ss[j];
      ConcatExtendOne(ss0, ts0, j0, x);
      assert ts[|ts| - 1] == ss[|ss| - 1];
      ConcatExtendEarlier(ss, ts, x);
    }
  }

  /** When the last buckets agree, an extension by `x` of the earlier buckets carries over to the whole. */
  lemma ConcatExtendEarlier<T>(ss: seq<seq<T>>, ts: seq<seq<T>>, x: T)
    requires |ss| == |ts| > 0 && ts[|ts| - 1] == ss[|ss| - 1]
    requires multiset(Concat(ts[..|ts| - 1])) == multiset(Concat(ss[..|ss| - 1])) + multiset{x}
    ensures multiset(Concat(ts)) == multiset(Concat(ss)) + multiset{x}
  {
    var a, b, tail := Concat(ss[..|ss| - 1]), Concat(ts[..|ts| - 1]), ss[|ss| - 1];
    assert Concat(ts) == b + tail;
    assert Concat(ss) == a + tail;
    assert multiset(b + tail) == multiset(b) + multiset(tail);
    assert multiset(a + tail) == multiset(a) + multiset(tail);
  }

  /** Every key of `FirstSeen` is the key of some item. */
  lemma {:induction false} FirstSeenOccurs<T, K>(items: seq<T>, key: T -> K, j: nat)
    requires j < |FirstSeen(items, key)|
    ensures exists i :: 0 <= i < |items| && key(items[i]) == FirstSeen(items, key)[j]
    decreases |items|
  {
    var n := |items|;
    var init := items[..n - 1];
    if j < |FirstSeen(init, key)| {
      FirstSeenOccurs(init, key, j);
      var i :| 0 <= i < |init| && key(init[i]) == FirstSeen(init, key)[j];
      assert key(items[i]) == FirstSeen(items, key)[j];
    } else {
      assert key(items[n - 1]) == FirstSeen(items, key)[j];
    }
  }

  /** No bucket of a grouping is empty, and every item lies in the bucket of its key. */
  lemma {:induction false} GroupedBucketsNonEmpty<T, K>(items: seq<T>, key: T -> K)
    ensures forall j :: 0 <= j < |Grouped(items, key)| ==> |Grouped(items, key)[j]| > 0
  {
    var ks := FirstSeen(items, key);
    forall j | 0 <= j < |ks| ensures |Bucket(items, key, ks[j])| > 0 {
      FirstSeenOccurs(items, key, j);
      BucketSpec(items, key, ks[j]);
    }
  }

  /** Appending an item extends exactly the bucket of its key. */
  lemma {:induction false} BucketSnoc<T, K>(items: seq<T>, key: T -> K, k: K)
    requires |items| > 0
    ensures var n := |items|;
      Bucket(items, key, k) == Bucket(items[..n - 1], key, k) + (if key(items[n - 1]) == k then [items[n - 1]] else [])
  {
  }

  /** An item whose key was seen before joins that key's bucket. */
  lemma {:induction false} GroupedSnocSeen<T, K>(items: seq<T>, key: T -> K)
    requires |items| > 0
    requires key(items[|items| - 1]) in FirstSeen(items[..|items| - 1], key)
    ensures multiset(Concat(Grouped(items, key))) == multiset(Concat(Grouped(items[..|items| - 1], key))) + multiset{items[|items| - 1]}
  {
    var n := |items|;
    var init, x := items[..n - 1], items[n - 1];
    var ks0 := FirstSeen(init, key);
    var g0, g := Grouped(init, key), Grouped(items, key);
    var k := key(x);
    assert FirstSeen(items, key) == ks0;
    var j0 :| 0 <= j0 < |ks0| && ks0[j0] == k;
    forall j | 0 <= j < |g0| ensures g[j] == if j == j0 then g0[j] + [x] else g0[j] {
      BucketSnoc(items, key, ks0[j]);
    }
    ConcatExtendOne(g0, g, j0, x);
  }

  /** Grouping only reorders: the buckets laid end to end are a permutation of the items. */
  lemma {:induction false} GroupedIsPermutation<T, K>(items: seq<T>, key: T -> K)
    ensures multiset(Concat(Grouped(items, key))) == multiset(items)
    ensures |Concat(Grouped(items, key))| == |items|
    decreases |items|
  {
    if |items| == 0 {
      return;
    }
    var n := |items|;
    var init, x := items[..n - 1], items[n - 1];
    assert items == init + [x];
    GroupedIsPermutation(init, key);
    if key(x) in FirstSeen(init, key) {
      GroupedSnocSeen(items, key);
    } else {
      GroupedSnocNew(items, key);
    }
    assert |Concat(Grouped(items, key))| == |multiset(Concat(Grouped(items, key)))|;
  }

  /** Dropping the last item keeps equal keys contiguous. */
  lemma {:induction false} ContiguousInit<T, K>(items: seq<T>, key: T -> K)
    requires |items| > 0 && Contiguous(items, key)
    ensures Contiguous(items[..|items| - 1], key)
  {
    var init := items[..|items| - 1];
    forall a, b, c | 0 <= a < b < c < |init| && key(init[a]) == key(init[c])
      ensures key(init[b]) == key(init[a])
    {
      assert key(items[a]) == key(items[c]);
    }
  }

  /** Under contiguity, a key seen earlier that reappears at the end is also the key just before the end. */
  lemma {:induction false} ContiguousLastRun<T, K>(items: seq<T>, key: T -> K, i: nat)
    requires Contiguous(items, key)
    requires i < |items| - 1 && key(items[i]) == key(items[|items| - 1])
    ensures key(items[|items| - 2]) == key(items[|items| - 1])
  {
    var n := |items|;
    if i < n - 2 {
      assert key(items[n - 2]) == key(items[i]);
    }
  }

  /** Under contiguity the key of the last item is the last key seen. */
  lemma {:induction false} LastKeyIsLastSeen<T, K>(items: seq<T>, key: T -> K)
    requires |items| > 0 && Contiguous(items, key)
    ensures var ks := FirstSeen(items, key); |ks| > 0 && ks[|ks| - 1] == key(items[|items| - 1])
    decreases |items|
  {
    var n := |items|;
    var init := items[..n - 1];
    var k := key(items[n - 1]);
    if n > 1 && k in FirstSeen(init, key) {
      var j :| 0 <= j < |FirstSeen(init, key)| && FirstSeen(init, key)[j] == k;
      FirstSeenOccurs(init, key, j);
      var i :| 0 <= i < |init| && key(init[i]) == k;
      ContiguousLastRun(items, key, i);
      ContiguousInit(items, key);
      LastKeyIsLastSeen(init, key);
    }
  }

  /** An item whose key is new opens a last bucket of its own. */
  lemma {:induction false} GroupedSnocNew<T, K>(items: seq<T>, key: T -> K)
    requires |items| > 0
    requires key(items[|items| - 1]) !in FirstSeen(items[..|items| - 1], key)
    ensures Concat(Grouped(items, key)) == Concat(Grouped(items[..|items| - 1], key)) + [items[|items| - 1]]
  {
    var n := |items|;
    var init, x := items[..n - 1], items[n - 1];
    var ks0 := FirstSeen(init, key);
    var g0, g := Grouped(init, key), Grouped(items, key);
    var k := key(x);
    assert FirstSeen(items, key) == ks0 + [k];
    forall j | 0 <= j < |g0| ensures g[j] == g0[j] {
      BucketSnoc(items, key, ks0[j]);
    }
    assert g[..|g| - 1] == g0;
    BucketSpec(init, key, k);
    BucketSnoc(items, key, k);
    assert g[|g| - 1] == [x];
  }

  /** An item whose key is the last key seen joins the last bucket. */
  lemma {:induction false} GroupedSnocLast<T, K>(items: seq<T>, key: T -> K)
    requires |items| > 0
    requires var ks0 := FirstSeen(items[..|items| - 1], key);
      |ks0| > 0 && key(items[|items| - 1]) == ks0[|ks0| - 1]
    ensures Concat(Grouped(items, key)) == Concat(Grouped(items[..|items| - 1], key)) + [items[|items| - 1]]
  {
    var n := |items|;
    var init, x := items[..n - 1], items[n - 1];
    var ks0 := FirstSeen(init, key);
    var g0, g := Grouped(init, key), Grouped(items, key);
    assert FirstSeen(items, key) == ks0;
    forall j | 0 <= j < |g0| ensures g[j] == if j == |g0| - 1 then g0[j] + [x] else g0[j] {
      BucketSnoc(items, key, ks0[j]);
    }
    ConcatExtendLast(g0, g, x);
  }

  /** When equal keys are already contiguous, grouping leaves the order unchanged. */
  lemma {:induction false} GroupedKeepsContiguousOrder<T, K>(items: seq<T>, key: T -> K)
    requires Contiguous(items, key)
    ensures Concat(Grouped(items, key)) == items
    decreases |items|
  {
    if |items| == 0 {
      return;
    }
    var n := |items|;
    var init, x := items[..n - 1], items[n - 1];
    assert items == init + [x];
    ContiguousInit(items, key);
    GroupedKeepsContiguousOrder(init, key);
    var ks0 := FirstSeen(init, key);
    var k := key(x);
    if k in ks0 {
      var j :| 0 <= j < |ks0| && ks0[j] == k;
      FirstSeenOccurs(init, key, j);
      var i :| 0 <= i < |init| && key(init[i]) == k;
      ContiguousLastRun(items, key, i);
      LastKeyIsLastSeen(init, key);
      GroupedSnocLast(items, key);
    } else {
      GroupedSnocNew(items, key);
    }
  }

  /** When equal keys are contiguous, item k of bucket j is the item at Offset(j) + k of the list. */
  lemma {:induction false} ContiguousGroupAt<T, K>(items: seq<T>, key: T -> K, j: nat, k: nat)
    requires Contiguous(items, key)
    requires j < |Grouped(items, key)| && k < |Grouped(items, key)[j]|
    ensures Offset(Grouped(items, key), j) + k < |items|
    ensures items[Offset(Grouped(items, key), j) + k] == Grouped(items, key)[j][k]
  {
    GroupedKeepsContiguousOrder(items, key);
    ConcatAt(Grouped(items, key), j, k);
  }

  /** How many items the buckets before bucket `j` hold together. */
  function Offset<T>(ss: seq<seq<T>>, j: nat): nat
    requires j <= |ss|
  {
    |Concat(ss[..j])|
  }

  /** The offset of the next bucket is this bucket's offset plus its size. */
  lemma {:induction false} OffsetNext<T>(ss: seq<seq<T>>, j: nat)
    requires j < |ss|
    ensures Offset(ss, j + 1) == Offset(ss, j) + |ss[j]|
  {
    assert ss[..j + 1][..j] == ss[..j];
  }

  /** Item k of bucket j sits at position Offset(ss, j) + k of the buckets laid end to end. */
  lemma {:induction false} ConcatAt<T>(ss: seq<seq<T>>, j: nat, k: nat)
    requires j < |ss| && k < |ss[j]|
    ensures Offset(ss, j) + k < |Concat(ss)|
    ensures Concat(ss)[Offset(ss, j) + k] == ss[j][k]
    decreases |ss|
  {
    var n := |ss|;
    assert ss[..n] == ss;
    var init := ss[..n - 1];
    assert Concat(ss) == Concat(init) + ss[n - 1];
    if j < n - 1 {
      assert init[..j] == ss[..j];
      ConcatAt(init, j, k);
    }
  }
}
