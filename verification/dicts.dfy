/** Python dictionaries where iteration order matters: an association list
    in insertion order. Assigning to an existing key replaces its value in
    place; assigning to a new key appends it, as `d[k] = v` does. */
module Dicts {
  import opened Results
  import opened Seqs

  type Dict<K, V> = seq<(K, V)>

  function Keys<K, V>(d: Dict<K, V>): (ks: seq<K>)
    ensures |ks| == |d|
    ensures forall i {:trigger ks[i]} :: 0 <= i < |d| ==> ks[i] == d[i].0
    decreases |d|
  {
    if |d| == 0 then [] else [d[0].0] + Keys(d[1..])
  }

  /** The key bound at position `i`; named so that uniqueness is only
      unfolded where a proof asks about particular positions. */
  function KeyAt<K, V>(d: Dict<K, V>, i: nat): K
    requires i < |d|
  {
    d[i].0
  }

  /** Dictionaries binding the same keys position by position have the same keys. */
  lemma SameKeys<K, V, W>(a: Dict<K, V>, b: Dict<K, W>)
    requires |a| == |b| && forall i :: 0 <= i < |a| ==> a[i].0 == b[i].0
    ensures Keys(a) == Keys(b)
  {
    assert forall i :: 0 <= i < |a| ==> Keys(a)[i] == Keys(b)[i];
  }

  /** No key is bound twice, which every Python dictionary satisfies. */
  predicate KeysUnique<K(==), V>(d: Dict<K, V>) {
    forall i, j {:trigger KeyAt(d, i), KeyAt(d, j)} :: 0 <= i < j < |d| ==> KeyAt(d, i) != KeyAt(d, j)
  }

  /** Python's `d.get(k)`. */
  function Get<K(==), V>(d: Dict<K, V>, k: K): (r: Option<V>)
    ensures r.None? <==> k !in Keys(d)
    ensures r.Some? ==> (k, r.value) in d
    decreases |d|
  {
    if |d| == 0 then None
    else if d[0].0 == k then Some(d[0].1)
    else Get(d[1..], k)
  }

  /** Uniqueness of keys depends only on the key sequence. */
  lemma UniqueFromKeys<K, V>(d: Dict<K, V>, r: Dict<K, V>, k: K)
    requires KeysUnique(d)
    requires Keys(r) == Keys(d) || (k !in Keys(d) && Keys(r) == Keys(d) + [k])
    ensures KeysUnique(r)
  {
    forall i, j | 0 <= i < j < |r|
      ensures KeyAt(r, i) != KeyAt(r, j)
    {
      assert KeyAt(r, i) == Keys(r)[i] && KeyAt(r, j) == Keys(r)[j];
      if j < |d| {
        assert KeyAt(d, i) != KeyAt(d, j);
      } else {
        assert Keys(d)[i] == KeyAt(d, i);
      }
    }
  }

  /** Python's `d[k] = v`. */
  function Put<K(==,!new), V>(d: Dict<K, V>, k: K, v: V): Dict<K, V>
    decreases |d|
  {
    if |d| == 0 then [(k, v)]
    else if d[0].0 == k then [(k, v)] + d[1..]
    else [d[0]] + Put(d[1..], k, v)
  }

  /** After `d[k] = v`, `k` maps to `v` and every other key to what it mapped to before. */
  lemma {:induction false} PutGet<K(!new), V>(d: Dict<K, V>, k: K, v: V)
    ensures forall k' :: Get(Put(d, k, v), k') == if k' == k then Some(v) else Get(d, k')
    decreases |d|
  {
    if |d| > 0 {
      var r := Put(d, k, v);
      if d[0].0 == k {
        assert r[1..] == d[1..];
      } else {
        PutGet(d[1..], k, v);
        assert r[1..] == Put(d[1..], k, v);
      }
    }
  }

  /** An existing key keeps its position; a new key is appended after the others. */
  lemma {:induction false} PutKeysEq<K(!new), V>(d: Dict<K, V>, k: K, v: V)
    ensures Keys(Put(d, k, v)) == if k in Keys(d) then Keys(d) else Keys(d) + [k]
    decreases |d|
  {
    if |d| > 0 {
      var r := Put(d, k, v);
      assert Keys(d) == [d[0].0] + Keys(d[1..]);
      if d[0].0 == k {
        assert r[1..] == d[1..];
        assert Keys(r) == [k] + Keys(r[1..]);
      } else {
        PutKeysEq(d[1..], k, v);
        assert r[1..] == Put(d[1..], k, v);
        assert Keys(r) == [d[0].0] + Keys(r[1..]);
        assert k in Keys(d) <==> k in Keys(d[1..]);
        assert [d[0].0] + (Keys(d[1..]) + [k]) == Keys(d) + [k];
      }
    }
  }

  /** After `d[k] = v` the keys are the old ones plus `k`. */
  lemma PutKeys<K(!new), V>(d: Dict<K, V>, k: K, v: V)
    ensures forall k' :: k' in Keys(Put(d, k, v)) <==> k' in Keys(d) || k' == k
  {
    PutKeysEq(d, k, v);
  }

  /** Assignment keeps the keys unique. */
  lemma PutUnique<K(!new), V>(d: Dict<K, V>, k: K, v: V)
    requires KeysUnique(d)
    ensures KeysUnique(Put(d, k, v))
  {
    PutKeysEq(d, k, v);
    UniqueFromKeys(d, Put(d, k, v), k);
  }

  /** A new key is appended at the end. */
  lemma {:induction false} PutNew<K(!new), V>(d: Dict<K, V>, k: K, v: V)
    requires k !in Keys(d)
    ensures Put(d, k, v) == d + [(k, v)]
    decreases |d|
  {
    if |d| > 0 {
      assert Keys(d)[0] == d[0].0;
      assert Keys(d[1..]) == Keys(d)[1..];
      PutNew(d[1..], k, v);
      assert [d[0]] + (d[1..] + [(k, v)]) == d + [(k, v)];
    }
  }

  predicate Binds<K(==), V>(o: Option<(K, V)>, k: K) {
    o.Some? && o.value.0 == k
  }

  /** The dictionary built by the Python loop
        `for x in xs: if f(x) is not None: k, v = f(x); d[k] = v`. */
  function Collect<T, K(==,!new), V>(xs: seq<T>, f: T -> Option<(K, V)>): Dict<K, V>
    decreases |xs|
  {
    if |xs| == 0 then []
    else
      var d := Collect(xs[..|xs| - 1], f);
      match f(xs[|xs| - 1])
      case None => d
      case Some(kv) => Put(d, kv.0, kv.1)
  }

  /** The collected dictionary is a genuine Python dictionary: no key twice. */
  lemma {:induction false} CollectUnique<T, K(!new), V>(xs: seq<T>, f: T -> Option<(K, V)>)
    ensures KeysUnique(Collect(xs, f))
    decreases |xs|
  {
    if |xs| > 0 {
      var init := xs[..|xs| - 1];
      CollectUnique(init, f);
      CollectSnoc(xs, f);
      match f(xs[|xs| - 1])
      case None =>
      case Some(kv) => PutUnique(Collect(init, f), kv.0, kv.1);
    }
  }

  /** `v` is what the last element of `xs` that binds `k` binds it to. */
  ghost predicate LastBinding<T, K, V>(xs: seq<T>, f: T -> Option<(K, V)>, k: K, v: V) {
    exists i :: 0 <= i < |xs| && f(xs[i]) == Some((k, v))
      && forall j :: i < j < |xs| ==> !Binds(f(xs[j]), k)
  }

  /** Collecting one more element: it either binds nothing new or overwrites its key. */
  lemma CollectSnoc<T, K(!new), V>(xs: seq<T>, f: T -> Option<(K, V)>)
    requires |xs| > 0
    ensures var c := Collect(xs[..|xs| - 1], f);
            Collect(xs, f) == match f(xs[|xs| - 1]) case None => c case Some(kv) => Put(c, kv.0, kv.1)
  {
  }

  /** A binding by the last element decides the key. */
  lemma LastBindingAtEnd<T, K, V>(xs: seq<T>, f: T -> Option<(K, V)>, k: K, v: V, w: V)
    requires |xs| > 0 && f(xs[|xs| - 1]) == Some((k, w))
    ensures LastBinding(xs, f, k, v) <==> v == w
  {
    var n := |xs| - 1;
    if v == w {
      assert f(xs[n]) == Some((k, v));
    }
    if LastBinding(xs, f, k, v) {
      var i :| 0 <= i < |xs| && f(xs[i]) == Some((k, v))
        && forall j :: i < j < |xs| ==> !Binds(f(xs[j]), k);
      assert i == n;
    }
  }

  /** An element not binding the key leaves the key's last binding where it was. */
  lemma LastBindingSkip<T, K, V>(xs: seq<T>, f: T -> Option<(K, V)>, k: K, v: V)
    requires |xs| > 0 && !Binds(f(xs[|xs| - 1]), k)
    ensures LastBinding(xs, f, k, v) <==> LastBinding(xs[..|xs| - 1], f, k, v)
  {
    var init := xs[..|xs| - 1];
    var n := |xs| - 1;
    if LastBinding(init, f, k, v) {
      var i :| 0 <= i < n && f(init[i]) == Some((k, v))
        && forall j :: i < j < n ==> !Binds(f(init[j]), k);
      assert f(xs[i]) == Some((k, v));
      assert forall j :: i < j < |xs| ==> !Binds(f(xs[j]), k) by {
        forall j | i < j < |xs|
          ensures !Binds(f(xs[j]), k)
        {
          if j < n {
            assert xs[j] == init[j];
          }
        }
      }
    }
    if LastBinding(xs, f, k, v) {
      var i :| 0 <= i < |xs| && f(xs[i]) == Some((k, v))
        && forall j :: i < j < |xs| ==> !Binds(f(xs[j]), k);
      assert i < n;
      assert f(init[i]) == Some((k, v));
      assert forall j :: i < j < n ==> !Binds(f(init[j]), k) by {
        forall j | i < j < n
          ensures !Binds(f(init[j]), k)
        {
          assert init[j] == xs[j];
        }
      }
    }
  }

  /** A later binding of a key overwrites an earlier one: the collected
      value of a key is the one its last binding gives. */
  lemma {:induction false} CollectGet<T, K(!new), V>(xs: seq<T>, f: T -> Option<(K, V)>, k: K, v: V)
    ensures Get(Collect(xs, f), k) == Some(v) <==> LastBinding(xs, f, k, v)
    decreases |xs|
  {
    if |xs| > 0 {
      var init := xs[..|xs| - 1];
      CollectSnoc(xs, f);
      var c := Collect(init, f);
      match f(xs[|xs| - 1])
      case None =>
        CollectGet(init, f, k, v);
        LastBindingSkip(xs, f, k, v);
      case Some(kv) =>
        PutGet(c, kv.0, kv.1);
        if kv.0 == k {
          LastBindingAtEnd(xs, f, k, v, kv.1);
        } else {
          CollectGet(init, f, k, v);
          LastBindingSkip(xs, f, k, v);
        }
    }
  }

  /** Collecting elements that bind distinct keys, in order, rebuilds exactly those bindings. */
  lemma {:induction false} CollectDistinct<T, K(!new), V>(xs: seq<T>, f: T -> Option<(K, V)>, d: Dict<K, V>)
    requires |xs| == |d| && KeysUnique(d)
    requires forall i :: 0 <= i < |xs| ==> f(xs[i]) == Some(d[i])
    ensures Collect(xs, f) == d
    decreases |xs|
  {
    if |xs| > 0 {
      var n := |xs| - 1;
      var init := d[..n];
      UniqueLast(d);
      assert forall i :: 0 <= i < n ==> f(xs[..n][i]) == Some(init[i]) by {
        forall i | 0 <= i < n
          ensures f(xs[..n][i]) == Some(init[i])
        {
          assert xs[..n][i] == xs[i] && init[i] == d[i];
        }
      }
      CollectDistinct(xs[..n], f, init);
      CollectSnoc(xs, f);
      assert f(xs[n]) == Some(d[n]);
      PutNew(init, d[n].0, d[n].1);
      calc {
        Collect(xs, f);
        Put(Collect(xs[..n], f), d[n].0, d[n].1);
        Put(init, d[n].0, d[n].1);
        init + [(d[n].0, d[n].1)];
        { assert init + [d[n]] == d; }
        d;
      }
    }
  }

  /** The last binding of a dictionary with unique keys binds a key the rest does not. */
  lemma UniqueLast<K, V>(d: Dict<K, V>)
    requires |d| > 0 && KeysUnique(d)
    ensures KeysUnique(d[..|d| - 1]) && d[|d| - 1].0 !in Keys(d[..|d| - 1])
  {
    var n := |d| - 1;
    var init := d[..n];
    forall i | 0 <= i < n
      ensures Keys(init)[i] != d[n].0
    {
      assert KeyAt(d, i) != KeyAt(d, n);
    }
    forall i, j | 0 <= i < j < n
      ensures KeyAt(init, i) != KeyAt(init, j)
    {
      assert KeyAt(d, i) != KeyAt(d, j);
    }
  }

  /** Every collected key is bound by some element ... */
  lemma {:induction false} CollectKeySource<T, K(!new), V>(xs: seq<T>, f: T -> Option<(K, V)>, k: K) returns (i: nat)
    requires k in Keys(Collect(xs, f))
    ensures i < |xs| && Binds(f(xs[i]), k)
    decreases |xs|
  {
    var n := |xs| - 1;
    CollectKeysStep(xs, f, k);
    if Binds(f(xs[n]), k) {
      i := n;
    } else {
      i := CollectKeySource(xs[..n], f, k);
      assert xs[..n][i] == xs[i];
    }
  }

  /** ... and every key an element binds is collected. */
  lemma {:induction false} CollectKeyPresent<T, K(!new), V>(xs: seq<T>, f: T -> Option<(K, V)>, i: nat, k: K)
    requires i < |xs| && Binds(f(xs[i]), k)
    ensures k in Keys(Collect(xs, f))
    decreases |xs|
  {
    var n := |xs| - 1;
    CollectKeysStep(xs, f, k);
    if i < n {
      assert xs[..n][i] == xs[i];
      CollectKeyPresent(xs[..n], f, i, k);
    }
  }

  /** The collected keys are exactly the keys some element binds. */
  lemma CollectKeys<T, K(!new), V>(xs: seq<T>, f: T -> Option<(K, V)>, k: K)
    ensures k in Keys(Collect(xs, f)) <==> exists i :: 0 <= i < |xs| && Binds(f(xs[i]), k)
  {
    if k in Keys(Collect(xs, f)) {
      var i := CollectKeySource(xs, f, k);
    }
    if exists i :: 0 <= i < |xs| && Binds(f(xs[i]), k) {
      var i :| 0 <= i < |xs| && Binds(f(xs[i]), k);
      CollectKeyPresent(xs, f, i, k);
    }
  }

  /** One more element adds at most the key it binds. */
  lemma CollectKeysStep<T, K(!new), V>(xs: seq<T>, f: T -> Option<(K, V)>, k: K)
    requires |xs| > 0
    ensures k in Keys(Collect(xs, f)) <==> k in Keys(Collect(xs[..|xs| - 1], f)) || Binds(f(xs[|xs| - 1]), k)
  {
    var c := Collect(xs[..|xs| - 1], f);
    match f(xs[|xs| - 1])
    case None =>
    case Some(kv) =>
      PutKeys(c, kv.0, kv.1);
  }

  /** Sum of the lengths of the value lists. */
  function TotalSize<K, U>(d: Dict<K, seq<U>>): nat
    decreases |d|
  {
    if |d| == 0 then 0 else |d[0].1| + TotalSize(d[1..])
  }

  /** Appending one element to a key's list grows the total by one. */
  lemma {:induction false} AppendSize<K(!new), U>(d: Dict<K, seq<U>>, k: K, u: U)
    ensures TotalSize(Put(d, k, Get(d, k).GetOr([]) + [u])) == TotalSize(d) + 1
    decreases |d|
  {
    if |d| > 0 && d[0].0 != k {
      AppendSize(d[1..], k, u);
    }
  }

  function KeyIs<T, K(==)>(key: T -> K, k: K): T -> bool {
    x => key(x) == k
  }

  /** Python's grouping loop
        `for x in xs: if key(x) not in d: d[key(x)] = []; d[key(x)].append(f(x))`. */
  function GroupBy<T, K(==,!new), U>(xs: seq<T>, key: T -> K, f: T -> U): Dict<K, seq<U>>
    decreases |xs|
  {
    if |xs| == 0 then []
    else
      var g := GroupBy(xs[..|xs| - 1], key, f);
      var x := xs[|xs| - 1];
      Put(g, key(x), Get(g, key(x)).GetOr([]) + [f(x)])
  }

  /** The groups have unique keys ... */
  lemma {:induction false} GroupByUnique<T, K(!new), U>(xs: seq<T>, key: T -> K, f: T -> U)
    ensures KeysUnique(GroupBy(xs, key, f))
    decreases |xs|
  {
    if |xs| > 0 {
      var init := xs[..|xs| - 1];
      var x := xs[|xs| - 1];
      GroupByUnique(init, key, f);
      var g := GroupBy(init, key, f);
      PutUnique(g, key(x), Get(g, key(x)).GetOr([]) + [f(x)]);
    }
  }

  /** ... one per key value occurring in the input. */
  lemma {:induction false} GroupByKeys<T, K(!new), U>(xs: seq<T>, key: T -> K, f: T -> U)
    ensures forall k :: k in Keys(GroupBy(xs, key, f)) <==> exists i :: 0 <= i < |xs| && key(xs[i]) == k
    decreases |xs|
  {
    if |xs| > 0 {
      var init := xs[..|xs| - 1];
      var x := xs[|xs| - 1];
      GroupByKeys(init, key, f);
      var g := GroupBy(init, key, f);
      var r := GroupBy(xs, key, f);
      PutKeys(g, key(x), Get(g, key(x)).GetOr([]) + [f(x)]);
      GroupKeysStep(init, x, key, g, r);
      assert init + [x] == xs;
    }
  }

  /** Every element lands in exactly one group. */
  lemma {:induction false} GroupBySize<T, K(!new), U>(xs: seq<T>, key: T -> K, f: T -> U)
    ensures TotalSize(GroupBy(xs, key, f)) == |xs|
    decreases |xs|
  {
    if |xs| > 0 {
      var x := xs[|xs| - 1];
      GroupBySize(xs[..|xs| - 1], key, f);
      AppendSize(GroupBy(xs[..|xs| - 1], key, f), key(x), f(x));
    }
  }

  /** Each group is the in-order image of exactly the elements with its key. */
  lemma {:induction false} GroupBySelects<T, K(!new), U>(xs: seq<T>, key: T -> K, f: T -> U)
    ensures forall k :: Get(GroupBy(xs, key, f), k).Some? ==>
              Selects(Get(GroupBy(xs, key, f), k).value, xs, KeyIs(key, k), f)
    decreases |xs|
  {
    if |xs| > 0 {
      var init := xs[..|xs| - 1];
      var x := xs[|xs| - 1];
      GroupBySelects(init, key, f);
      GroupByAbsent(init, key, f);
      GroupByStep(xs, key, f);
      GroupSelectsStep(init, x, key, f, GroupBy(init, key, f), GroupBy(xs, key, f));
      assert init + [x] == xs;
    }
  }

  /** A key without a group belongs to no element. */
  lemma GroupByAbsent<T, K(!new), U>(xs: seq<T>, key: T -> K, f: T -> U)
    ensures forall k :: Get(GroupBy(xs, key, f), k).None? ==> forall i :: 0 <= i < |xs| ==> key(xs[i]) != k
  {
    GroupByKeys(xs, key, f);
  }

  /** One more element is appended to its own key's group only. */
  lemma GroupByStep<T, K(!new), U>(xs: seq<T>, key: T -> K, f: T -> U)
    requires |xs| > 0
    ensures var g := GroupBy(xs[..|xs| - 1], key, f);
            var x := xs[|xs| - 1];
            && Get(GroupBy(xs, key, f), key(x)) == Some(Get(g, key(x)).GetOr([]) + [f(x)])
            && forall k :: k != key(x) ==> Get(GroupBy(xs, key, f), k) == Get(g, k)
  {
    var g := GroupBy(xs[..|xs| - 1], key, f);
    var x := xs[|xs| - 1];
    PutGet(g, key(x), Get(g, key(x)).GetOr([]) + [f(x)]);
  }

  lemma GroupKeysStep<T, K(!new), U>(init: seq<T>, x: T, key: T -> K, g: Dict<K, seq<U>>, r: Dict<K, seq<U>>)
    requires forall k :: k in Keys(g) <==> exists i :: 0 <= i < |init| && key(init[i]) == k
    requires forall k :: k in Keys(r) <==> k in Keys(g) || k == key(x)
    ensures forall k :: k in Keys(r) <==> exists i :: 0 <= i < |init + [x]| && key((init + [x])[i]) == k
  {
    var xs := init + [x];
    forall k
      ensures k in Keys(r) <==> exists i :: 0 <= i < |xs| && key(xs[i]) == k
    {
      if k in Keys(r) {
        if k == key(x) {
          assert key(xs[|init|]) == k;
        } else {
          var i :| 0 <= i < |init| && key(init[i]) == k;
          assert key(xs[i]) == k;
        }
      }
      if exists i :: 0 <= i < |xs| && key(xs[i]) == k {
        var i :| 0 <= i < |xs| && key(xs[i]) == k;
        if i < |init| {
          assert key(init[i]) == k;
        }
      }
    }
  }

  lemma GroupSelectsStep<T, K(!new), U>(init: seq<T>, x: T, key: T -> K, f: T -> U, g: Dict<K, seq<U>>, r: Dict<K, seq<U>>)
    requires forall k :: Get(g, k).Some? ==> Selects(Get(g, k).value, init, KeyIs(key, k), f)
    requires forall k :: Get(g, k).None? ==> forall i :: 0 <= i < |init| ==> key(init[i]) != k
    requires Get(r, key(x)) == Some(Get(g, key(x)).GetOr([]) + [f(x)])
    requires forall k :: k != key(x) ==> Get(r, k) == Get(g, k)
    ensures forall k :: Get(r, k).Some? ==> Selects(Get(r, k).value, init + [x], KeyIs(key, k), f)
  {
    forall k | Get(r, k).Some?
      ensures Selects(Get(r, k).value, init + [x], KeyIs(key, k), f)
    {
      var p := KeyIs(key, k);
      if k == key(x) {
        var prior := Get(g, k).GetOr([]);
        if Get(g, k).None? {
          assert forall i :: 0 <= i < |init| ==> !p(init[i]);
          IndicesNone(init, p);
        }
        SelectsSnoc(prior, init, x, p, f);
      } else {
        SelectsSnoc(Get(g, k).value, init, x, p, f);
      }
    }
  }
}
