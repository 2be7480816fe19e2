/** An insertion-ordered dictionary with string keys, as a Python `dict` is:
    a sequence of (key, value) entries. `Put` is `d[k] = v` (an existing key keeps
    its position, a new key goes to the end) and `AppendItem` is
    `defaultdict(list)[k].append(x)`. */
module OrderedTable {
  import opened Common

  type Table<V> = seq<(string, V)>

  function Keys<V>(t: Table<V>): (ks: seq<string>)
    ensures |ks| == |t|
    ensures forall i :: 0 <= i < |t| ==> ks[i] == t[i].0
  {
    seq(|t|, i requires 0 <= i < |t| => t[i].0)
  }

  /** Keys are pairwise distinct: what every Python dict guarantees. */
  predicate DistinctKeys<V>(t: Table<V>)
  {
    forall i, j :: 0 <= i < j < |t| ==> t[i].0 != t[j].0
  }

  /** `d.get(k)`: the value of the first entry with key `k`. */
  function Get<V>(t: Table<V>, k: string): (r: Option<V>)
    ensures r.Some? <==> k in Keys(t)
    ensures r.Some? ==> (k, r.value) in t
  {
    if t == [] then None
    else if t[0].0 == k then Some(t[0].1)
    else Get(t[1..], k)
  }

  lemma {:induction false} GetAt<V>(t: Table<V>, i: nat)
    requires DistinctKeys(t) && i < |t|
    ensures Get(t, t[i].0) == Some(t[i].1)
  {
    if i > 0 {
      assert t[0].0 != t[i].0;
      assert t[1..][i - 1] == t[i];
      GetAt(t[1..], i - 1);
    }
  }

  /** `d[k] = v`. */
  function Put<V>(t: Table<V>, k: string, v: V): Table<V>
  {
    if t == [] then [(k, v)]
    else if t[0].0 == k then [(k, v)] + t[1..]
    else [t[0]] + Put(t[1..], k, v)
  }

  lemma {:induction false} KeysTail<V>(t: Table<V>)
    requires t != []
    ensures Keys(t) == [t[0].0] + Keys(t[1..])
  {
  }

  /** After `d[k] = v`, `k` maps to `v` and every other key keeps its value. */
  lemma {:induction false} PutGet<V>(t: Table<V>, k: string, v: V, k': string)
    ensures Get(Put(t, k, v), k') == if k' == k then Some(v) else Get(t, k')
  {
    if t != [] && t[0].0 != k {
      PutGet(t[1..], k, v, k');
    }
  }

  /** `d[k] = v` keeps the key order and appends a new key at the end. */
  lemma {:induction false} PutKeys<V>(t: Table<V>, k: string, v: V)
    ensures Keys(Put(t, k, v)) == if k in Keys(t) then Keys(t) else Keys(t) + [k]
  {
    if t != [] {
      KeysTail(t);
      var r := Put(t, k, v);
      KeysTail(r);
      if t[0].0 != k {
        assert r == [t[0]] + Put(t[1..], k, v);
        assert r[1..] == Put(t[1..], k, v);
        PutKeys(t[1..], k, v);
      } else {
        assert r[1..] == t[1..];
      }
    }
  }

  lemma DistinctCons<V>(e: (string, V), t: Table<V>)
    ensures DistinctKeys([e] + t) <==> DistinctKeys(t) && e.0 !in Keys(t)
  {
    var u := [e] + t;
    if DistinctKeys(u) {
      forall j | 0 <= j < |t| ensures Keys(t)[j] != e.0 {
        assert u[0] == e && u[j + 1] == t[j];
      }
      forall i, j | 0 <= i < j < |t| ensures t[i].0 != t[j].0 {
        assert u[i + 1] == t[i] && u[j + 1] == t[j];
      }
    }
    if DistinctKeys(t) && e.0 !in Keys(t) {
      forall i, j | 0 <= i < j < |u| ensures u[i].0 != u[j].0 {
        if i == 0 {
          assert u[j] == t[j - 1] && Keys(t)[j - 1] == t[j - 1].0;
        } else {
          assert u[i] == t[i - 1] && u[j] == t[j - 1];
        }
      }
    }
  }

  lemma {:induction false} PutDistinct<V>(t: Table<V>, k: string, v: V)
    requires DistinctKeys(t)
    ensures DistinctKeys(Put(t, k, v))
  {
    if t != [] {
      assert t == [t[0]] + t[1..];
      DistinctCons(t[0], t[1..]);
      KeysTail(t);
      if t[0].0 == k {
        DistinctCons((k, v), t[1..]);
      } else {
        PutDistinct(t[1..], k, v);
        PutKeys(t[1..], k, v);
        DistinctCons(t[0], Put(t[1..], k, v));
      }
    }
  }

  /** Writing back the value a key already has changes nothing. */
  lemma {:induction false} PutSame<V>(t: Table<V>, k: string, v: V)
    requires Get(t, k) == Some(v)
    ensures Put(t, k, v) == t
  {
    assert t != [];
    if t[0].0 != k {
      assert Get(t[1..], k) == Some(v);
      PutSame(t[1..], k, v);
      assert Put(t, k, v) == [t[0]] + Put(t[1..], k, v);
      assert t == [t[0]] + t[1..];
    } else {
      assert t == [(k, v)] + t[1..];
    }
  }

  /** The value under `k`, or the empty list a defaultdict(list) would create. */
  function ListAt<T>(t: Table<seq<T>>, k: string): seq<T>
  {
    match Get(t, k)
    case Some(xs) => xs
    case None => []
  }

  /** `d[k].append(x)` on a defaultdict(list). */
  function AppendItem<T>(t: Table<seq<T>>, k: string, x: T): (r: Table<seq<T>>)
    ensures Get(r, k) == Some(ListAt(t, k) + [x])
    ensures forall k' :: k' != k ==> Get(r, k') == Get(t, k')
    ensures DistinctKeys(t) ==> DistinctKeys(r)
  {
    var r := Put(t, k, ListAt(t, k) + [x]);
    assert Get(r, k) == Some(ListAt(t, k) + [x]) by { PutGet(t, k, ListAt(t, k) + [x], k); }
    assert forall k' :: k' != k ==> Get(r, k') == Get(t, k') by {
      forall k' | k' != k ensures Get(r, k') == Get(t, k') {
        PutGet(t, k, ListAt(t, k) + [x], k');
      }
    }
    assert DistinctKeys(t) ==> DistinctKeys(r) by {
      if DistinctKeys(t) { PutDistinct(t, k, ListAt(t, k) + [x]); }
    }
    r
  }

  /** `x` has been recorded under `k`. */
  ghost predicate Recorded<T>(t: Table<seq<T>>, k: string, x: T)
  {
    Get(t, k).Some? && x in Get(t, k).value
  }

  /** Every list in the table is non-empty: a defaultdict(list) that was only appended to. */
  predicate NoEmptyLists<T>(t: Table<seq<T>>)
  {
    forall i :: 0 <= i < |t| ==> t[i].1 != []
  }

  lemma {:induction false} AppendItemKeepsNonEmpty<T>(t: Table<seq<T>>, k: string, x: T)
    requires NoEmptyLists(t)
    ensures NoEmptyLists(AppendItem(t, k, x))
    ensures Recorded(AppendItem(t, k, x), k, x)
    ensures forall k', y :: Recorded(AppendItem(t, k, x), k', y) <==> Recorded(t, k', y) || (k' == k && y == x)
  {
    PutKeepsNonEmpty(t, k, ListAt(t, k) + [x]);
  }

  lemma {:induction false} PutKeepsNonEmpty<T>(t: Table<seq<T>>, k: string, v: seq<T>)
    requires NoEmptyLists(t) && v != []
    ensures NoEmptyLists(Put(t, k, v))
  {
    if t != [] && t[0].0 != k {
      PutKeepsNonEmpty(t[1..], k, v);
    }
  }

  /** In a table whose lists are non-empty, a key is present exactly when something is
      recorded under it. */
  lemma KeyIffRecorded<T>(t: Table<seq<T>>, k: string)
    requires NoEmptyLists(t)
    ensures k in Keys(t) <==> exists x :: Recorded(t, k, x)
  {
    if k in Keys(t) {
      var v := Get(t, k).value;
      var i :| 0 <= i < |t| && t[i] == (k, v);
      assert v[0] in v;
      assert Recorded(t, k, v[0]);
    }
  }

  /** Appending to a key that is not yet present adds a one-element entry at the end. */
  lemma AppendItemNew<T>(t: Table<seq<T>>, k: string, x: T)
    requires k !in Keys(t)
    ensures AppendItem(t, k, x) == t + [(k, [x])]
  {
    assert ListAt(t, k) == [];
    assert ListAt(t, k) + [x] == [x];
    PutNewAppends(t, k, [x]);
  }

  /** Appending to the key of the last entry extends that entry's list. */
  lemma AppendItemLast<T>(t: Table<seq<T>>, k: string, xs: seq<T>, x: T)
    requires k !in Keys(t)
    ensures AppendItem(t + [(k, xs)], k, x) == t + [(k, xs + [x])]
  {
    GetAppendNew(t, k, xs, k);
    assert ListAt(t + [(k, xs)], k) == xs;
    PutLastReplaces(t, k, xs, xs + [x]);
  }

  lemma {:induction false} PutNewAppends<V>(t: Table<V>, k: string, v: V)
    requires k !in Keys(t)
    ensures Put(t, k, v) == t + [(k, v)]
  {
    if t != [] {
      assert Keys(t) == [t[0].0] + Keys(t[1..]);
      PutNewAppends(t[1..], k, v);
      assert t == [t[0]] + t[1..];
    }
  }

  lemma {:induction false} PutLastReplaces<V>(t: Table<V>, k: string, v: V, w: V)
    requires k !in Keys(t)
    ensures Put(t + [(k, v)], k, w) == t + [(k, w)]
  {
    if t == [] {
      assert [] + [(k, v)] == [(k, v)];
      assert [] + [(k, w)] == [(k, w)];
    } else {
      KeysTail(t);
      assert t[0].0 != k && k !in Keys(t[1..]);
      var u := t + [(k, v)];
      assert u[0] == t[0] && u[1..] == t[1..] + [(k, v)];
      assert Put(u, k, w) == [t[0]] + Put(t[1..] + [(k, v)], k, w);
      PutLastReplaces(t[1..], k, v, w);
      assert [t[0]] + (t[1..] + [(k, w)]) == t + [(k, w)];
    }
  }

  lemma {:induction false} KeysAppend<V>(t: Table<V>, u: Table<V>)
    ensures Keys(t + u) == Keys(t) + Keys(u)
  {
  }

  lemma {:induction false} GetAppendNew<V>(t: Table<V>, k: string, v: V, k': string)
    ensures Get(t + [(k, v)], k') == if k' in Keys(t) then Get(t, k') else if k' == k then Some(v) else None
  {
    if t == [] {
      assert [] + [(k, v)] == [(k, v)];
    } else {
      assert Keys(t) == [t[0].0] + Keys(t[1..]);
      assert (t + [(k, v)])[1..] == t[1..] + [(k, v)];
      GetAppendNew(t[1..], k, v, k');
    }
  }

  /** Looking up in a concatenation: the first table wins. */
  lemma {:induction false} GetConcat<V>(t: Table<V>, u: Table<V>, k: string)
    ensures Get(t + u, k) == if k in Keys(t) then Get(t, k) else Get(u, k)
  {
    if t == [] {
      assert t + u == u;
    } else {
      assert (t + u)[0] == t[0];
      assert (t + u)[1..] == t[1..] + u;
      GetConcat(t[1..], u, k);
    }
  }

  /** A table with distinct keys is its front with distinct keys and a new last key. */
  lemma DistinctSnoc<V>(t: Table<V>)
    requires t != [] && DistinctKeys(t)
    ensures t == t[..|t| - 1] + [t[|t| - 1]]
    ensures DistinctKeys(t[..|t| - 1]) && t[|t| - 1].0 !in Keys(t[..|t| - 1])
  {
    var init := t[..|t| - 1];
    assert forall i :: 0 <= i < |init| ==> init[i] == t[i];
  }
}
