/**
 * Sequence helpers shared by the list comprehensions, `filter` calls and
 * counting loops of the modelled code. The folds are defined by their last
 * element, so a loop over a prefix `xs[..i]` unfolds them one step at a time.
 */
module Seqs {
  import opened Common

  /** The elements of `xs` that satisfy `p`, in their original order. */
  function Filter<T>(xs: seq<T>, p: T -> bool): (r: seq<T>)
    ensures |r| <= |xs|
    ensures forall k :: 0 <= k < |r| ==> p(r[k])
    decreases |xs|
  {
    if |xs| == 0 then []
    else Filter(xs[..|xs| - 1], p) + (if p(xs[|xs| - 1]) then [xs[|xs| - 1]] else [])
  }

  /** How many elements of `xs` satisfy `p`. */
  function Count<T>(xs: seq<T>, p: T -> bool): (r: nat)
    ensures r <= |xs|
    decreases |xs|
  {
    if |xs| == 0 then 0
    else Count(xs[..|xs| - 1], p) + (if p(xs[|xs| - 1]) then 1 else 0)
  }

  /** Counting one more element of a prefix adds one exactly when that element satisfies `p`. */
  lemma CountStep<T>(xs: seq<T>, i: nat, p: T -> bool)
    requires i < |xs|
    ensures Count(xs[..i + 1], p) == Count(xs[..i], p) + (if p(xs[i]) then 1 else 0)
  {
    assert xs[..i + 1][..i] == xs[..i];
  }

  /** The filter keeps exactly the satisfying elements: membership both ways. */
  lemma {:induction false} FilterMembers<T>(xs: seq<T>, p: T -> bool, x: T)
    ensures x in Filter(xs, p) <==> x in xs && p(x)
    decreases |xs|
  {
    if |xs| > 0 {
      var init := xs[..|xs| - 1];
      FilterMembers(init, p, x);
      assert xs == init + [xs[|xs| - 1]];
    }
  }

  /** A filter that every element passes keeps the sequence. */
  lemma {:induction false} FilterAll<T>(xs: seq<T>, p: T -> bool)
    requires forall k :: 0 <= k < |xs| ==> p(xs[k])
    ensures Filter(xs, p) == xs
    decreases |xs|
  {
    if |xs| > 0 {
      FilterAll(xs[..|xs| - 1], p);
    }
  }

  /** The filter is as long as the count of satisfying elements. */
  lemma {:induction false} FilterLength<T>(xs: seq<T>, p: T -> bool)
    ensures |Filter(xs, p)| == Count(xs, p)
    decreases |xs|
  {
    if |xs| > 0 {
      FilterLength(xs[..|xs| - 1], p);
    }
  }

  /** Every element satisfies exactly one of `p` and its negation. */
  lemma {:induction false} CountComplement<T>(xs: seq<T>, p: T -> bool, q: T -> bool)
    requires forall x :: q(x) == !p(x)
    ensures Count(xs, p) + Count(xs, q) == |xs|
    decreases |xs|
  {
    if |xs| > 0 {
      CountComplement(xs[..|xs| - 1], p, q);
    }
  }

  /** A predicate implied by another counts at least as many elements. */
  lemma {:induction false} CountMonotone<T>(xs: seq<T>, p: T -> bool, q: T -> bool)
    requires forall x :: p(x) ==> q(x)
    ensures Count(xs, p) <= Count(xs, q)
    decreases |xs|
  {
    if |xs| > 0 {
      CountMonotone(xs[..|xs| - 1], p, q);
    }
  }

  /** Counting over a concatenation adds up. */
  lemma {:induction false} CountAppend<T>(xs: seq<T>, ys: seq<T>, p: T -> bool)
    ensures Count(xs + ys, p) == Count(xs, p) + Count(ys, p)
    decreases |ys|
  {
    if |ys| > 0 {
      var init := ys[..|ys| - 1];
      CountAppend(xs, init, p);
      assert (xs + ys)[..|xs + ys| - 1] == xs + init;
      assert (xs + ys)[|xs + ys| - 1] == ys[|ys| - 1];
    } else {
      assert xs + ys == xs;
    }
  }

  /** A satisfying element is counted: the count is positive. */
  lemma {:induction false} CountPositive<T>(xs: seq<T>, p: T -> bool, i: nat)
    requires i < |xs| && p(xs[i])
    ensures Count(xs, p) > 0
    decreases |xs|
  {
    if i < |xs| - 1 {
      CountPositive(xs[..|xs| - 1], p, i);
    }
  }

  /** Every element is counted exactly when all of them satisfy `p`. */
  lemma {:induction false} CountAll<T>(xs: seq<T>, p: T -> bool)
    ensures Count(xs, p) == |xs| <==> forall i :: 0 <= i < |xs| ==> p(xs[i])
    decreases |xs|
  {
    if |xs| > 0 {
      var init := xs[..|xs| - 1];
      CountAll(init, p);
      if Count(xs, p) == |xs| {
        forall i | 0 <= i < |xs| ensures p(xs[i]) {
          if i < |xs| - 1 {
            assert xs[i] == init[i];
          }
        }
      }
      if forall i :: 0 <= i < |xs| ==> p(xs[i]) {
        forall i | 0 <= i < |init| ensures p(init[i]) {
          assert init[i] == xs[i];
        }
      }
    }
  }

  /** The last `n` elements, or all of them when there are fewer (`xs[-n:]` for n > 0). */
  function LastN<T>(xs: seq<T>, n: nat): (r: seq<T>)
    ensures |r| == if |xs| < n then |xs| else n
    ensures forall k :: 0 <= k < |r| ==> r[k] == xs[|xs| - |r| + k]
  {
    if |xs| <= n then xs else xs[|xs| - n..]
  }

  /** `xs` applied element-wise. */
  function Map<A, B>(xs: seq<A>, f: A -> B): (r: seq<B>)
    ensures |r| == |xs|
    ensures forall k :: 0 <= k < |xs| ==> r[k] == f(xs[k])
  {
    seq(|xs|, k requires 0 <= k < |xs| => f(xs[k]))
  }

  /** Mapping an extended sequence extends the mapped one. */
  lemma MapSnoc<A, B>(xs: seq<A>, x: A, f: A -> B)
    ensures Map(xs + [x], f) == Map(xs, f) + [f(x)]
  {
    assert forall k :: 0 <= k < |xs| ==> (xs + [x])[k] == xs[k];
  }

  /** The values `f` finds among the elements (a `set` built by `add` in a loop). */
  function Image<T, U>(xs: seq<T>, f: T -> Option<U>): set<U>
  {
    set i | 0 <= i < |xs| && f(xs[i]).Some? :: f(xs[i]).value
  }

  /** One more element adds its value, if it has one. */
  lemma ImageSnoc<T, U>(xs: seq<T>, x: T, f: T -> Option<U>)
    ensures Image(xs + [x], f) == Image(xs, f) + if f(x).Some? then {f(x).value} else {}
  {
    var ys := xs + [x];
    forall u | u in Image(ys, f) ensures u in Image(xs, f) + if f(x).Some? then {f(x).value} else {} {
      var i :| 0 <= i < |ys| && f(ys[i]).Some? && f(ys[i]).value == u;
      if i < |xs| {
        assert ys[i] == xs[i];
      }
    }
    forall u | u in Image(xs, f) ensures u in Image(ys, f) {
      var i :| 0 <= i < |xs| && f(xs[i]).Some? && f(xs[i]).value == u;
      assert ys[i] == xs[i];
    }
    if f(x).Some? {
      assert ys[|xs|] == x;
    }
  }

  /** A counter read at `k`, missing keys reading as zero (`defaultdict(int)`). */
  function CountOf<K>(m: map<K, nat>, k: K): nat
  {
    if k in m then m[k] else 0
  }

  /** How many elements have each value of `f` (a `defaultdict(int)` incremented in a loop). */
  function Tally<T, K>(xs: seq<T>, f: T -> Option<K>): map<K, nat>
    decreases |xs|
  {
    if |xs| == 0 then map[]
    else
      var before := Tally(xs[..|xs| - 1], f);
      var key := f(xs[|xs| - 1]);
      if key.Some? then Increment(before, key.value) else before
  }

  /** The counter `m` with one more at `k` (`m[k] += 1` on a `defaultdict(int)`). */
  function Increment<K>(m: map<K, nat>, k: K): (r: map<K, nat>)
    ensures CountOf(r, k) == CountOf(m, k) + 1
    ensures r.Keys == m.Keys + {k}
  {
    m[k := CountOf(m, k) + 1]
  }

  /** One more element increments the counter of its value, if it has one. */
  lemma TallySnoc<T, K>(xs: seq<T>, x: T, f: T -> Option<K>)
    ensures Tally(xs + [x], f)
         == if f(x).Some? then Increment(Tally(xs, f), f(x).value) else Tally(xs, f)
  {
    assert (xs + [x])[..|xs|] == xs;
  }

  /** The elements whose value under `f` is `k`. */
  function Is<T, K(==)>(f: T -> Option<K>, k: K): T -> bool
  {
    x => f(x) == Some(k)
  }

  /** Each key is tallied once per element having it; keys never seen are absent. */
  lemma {:induction false} TallyCounts<T, K>(xs: seq<T>, f: T -> Option<K>, k: K)
    ensures CountOf(Tally(xs, f), k) == Count(xs, Is(f, k))
    ensures k in Tally(xs, f) <==> Count(xs, Is(f, k)) > 0
    decreases |xs|
  {
    if |xs| > 0 {
      TallyCounts(xs[..|xs| - 1], f, k);
    }
  }

  /** The index of the first element satisfying `p` (`findIndex`, a scan with `break`). */
  function FirstIndex<T>(xs: seq<T>, p: T -> bool): (r: Option<nat>)
    ensures r.Some? ==> r.value < |xs| && p(xs[r.value]) && forall j :: 0 <= j < r.value ==> !p(xs[j])
    ensures r.None? ==> forall j :: 0 <= j < |xs| ==> !p(xs[j])
    decreases |xs|
  {
    if |xs| == 0 then None
    else if p(xs[0]) then Some(0)
    else match FirstIndex(xs[1..], p)
      case None => None
      case Some(i) => Some(i + 1)
  }

  /** A satisfying element with none before it is the first. */
  lemma FirstIndexAt<T>(xs: seq<T>, p: T -> bool, i: nat)
    requires i < |xs| && p(xs[i])
    requires forall j :: 0 <= j < i ==> !p(xs[j])
    ensures FirstIndex(xs, p) == Some(i)
  {
  }

  /** With no satisfying element there is no first one. */
  lemma FirstIndexNone<T>(xs: seq<T>, p: T -> bool)
    requires forall j :: 0 <= j < |xs| ==> !p(xs[j])
    ensures FirstIndex(xs, p) == None
  {
  }

  /** The sum of the values of a map (`Object.values(m)` added up). */
  ghost function MapSum<K>(m: map<K, nat>): nat
    decreases |m.Keys|
  {
    if |m| == 0 then 0
    else
      var k :| k in m;
      m[k] + MapSum(m - {k})
  }

  /** The sum does not depend on which key is taken out first. */
  lemma {:induction false} MapSumRemove<K>(m: map<K, nat>, k: K)
    requires k in m
    ensures MapSum(m) == m[k] + MapSum(m - {k})
    decreases |m.Keys|
  {
    var j := MapSumPick(m);
    if j != k {
      var withoutJ, withoutK := m - {j}, m - {k};
      assert withoutJ.Keys == m.Keys - {j} && |withoutJ.Keys| == |m.Keys| - 1;
      assert withoutK.Keys == m.Keys - {k} && |withoutK.Keys| == |m.Keys| - 1;
      MapSumRemove(withoutJ, k);
      MapSumRemove(withoutK, j);
      RemoveCommutes(m, j, k);
    }
  }

  /** Taking two keys out of a map in either order gives the same map. */
  lemma RemoveCommutes<K>(m: map<K, nat>, j: K, k: K)
    ensures m - {j} - {k} == m - {k} - {j}
  {
    assert (m - {j} - {k}).Keys == m.Keys - {j, k} == (m - {k} - {j}).Keys;
  }

  /** The key the definition of `MapSum` takes out first. */
  lemma MapSumPick<K>(m: map<K, nat>) returns (j: K)
    requires |m| > 0
    ensures j in m && MapSum(m) == m[j] + MapSum(m - {j})
  {
    j :| j in m && MapSum(m) == m[j] + MapSum(m - {j});
  }

  /** Incrementing one counter adds one to the sum. */
  lemma MapSumIncrement<K>(m: map<K, nat>, k: K)
    ensures MapSum(Increment(m, k)) == MapSum(m) + 1
  {
    var r := Increment(m, k);
    MapSumRemove(r, k);
    if k in m {
      MapSumRemove(m, k);
      assert r - {k} == m - {k};
    } else {
      assert r - {k} == m;
    }
  }

  /** When every element has a key, the counters of a tally add up to the number of elements. */
  lemma {:induction false} TallySum<T, K>(xs: seq<T>, f: T -> Option<K>)
    requires forall x :: f(x).Some?
    ensures MapSum(Tally(xs, f)) == |xs|
    decreases |xs|
  {
    if |xs| == 0 {
      assert Tally(xs, f) == map[];
    } else {
      var init := xs[..|xs| - 1];
      TallySum(init, f);
      assert xs == init + [xs[|xs| - 1]];
      TallySnoc(init, xs[|xs| - 1], f);
      MapSumIncrement(Tally(init, f), f(xs[|xs| - 1]).value);
    }
  }
}
