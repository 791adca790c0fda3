/** A Python dict as the sequence of its items in insertion order.
    Assigning to a key that is present replaces its value where it stands;
    assigning to a new key appends it. */
module OrderedMap {
  import opened Wrappers

  type Entry<K, V> = (K, V)

  /** The keys in insertion order, `list(m)`. */
  function Keys<K, V>(m: seq<Entry<K, V>>): (ks: seq<K>)
    ensures |ks| == |m|
  {
    if m == [] then [] else [m[0].0] + Keys(m[1..])
  }

  /** `k in m`. */
  predicate HasKey<K(==), V>(m: seq<Entry<K, V>>, k: K) {
    m != [] && (m[0].0 == k || HasKey(m[1..], k))
  }

  /** No key appears twice, as in any dict. */
  predicate UniqueKeys<K(==), V>(m: seq<Entry<K, V>>) {
    m != [] ==> !HasKey(m[1..], m[0].0) && UniqueKeys(m[1..])
  }

  /** `m.get(k)`. */
  function Lookup<K(==), V>(m: seq<Entry<K, V>>, k: K): (r: Option<V>)
    ensures r.Some? <==> HasKey(m, k)
  {
    if m == [] then None else if m[0].0 == k then Some(m[0].1) else Lookup(m[1..], k)
  }

  /** `m[k] = v`: the value of a present key is replaced in place,
      a new key goes last, and no other key changes. */
  function Put<K(==,!new), V>(m: seq<Entry<K, V>>, k: K, v: V): (r: seq<Entry<K, V>>)
    ensures Keys(r) == if HasKey(m, k) then Keys(m) else Keys(m) + [k]
    ensures Lookup(r, k) == Some(v)
    ensures forall k' :: k' != k ==> Lookup(r, k') == Lookup(m, k')
    ensures UniqueKeys(m) ==> UniqueKeys(r)
  {
    if m == [] then [(k, v)]
    else if m[0].0 == k then
      var r := [(k, v)] + m[1..];
      assert r[1..] == m[1..];
      r
    else
      var rest := Put(m[1..], k, v);
      var r := [m[0]] + rest;
      assert r[1..] == rest;
      assert Lookup(rest, m[0].0) == Lookup(m[1..], m[0].0);
      r
  }

  /** `if k not in m: m[k] = v`: the first writer of a key wins. */
  function PutIfAbsent<K(==,!new), V>(m: seq<Entry<K, V>>, k: K, v: V): (r: seq<Entry<K, V>>)
    ensures Keys(r) == if HasKey(m, k) then Keys(m) else Keys(m) + [k]
    ensures Lookup(r, k) == Some(Lookup(m, k).GetOr(v))
    ensures forall k' :: k' != k ==> Lookup(r, k') == Lookup(m, k')
    ensures UniqueKeys(m) ==> UniqueKeys(r)
  {
    if HasKey(m, k) then m else Put(m, k, v)
  }

  /** `for k, v in items: m[k] = v`. */
  function PutAll<K(==,!new), V>(m: seq<Entry<K, V>>, items: seq<Entry<K, V>>): (r: seq<Entry<K, V>>)
    ensures UniqueKeys(m) ==> UniqueKeys(r)
    ensures forall k :: !HasKey(items, k) ==> Lookup(r, k) == Lookup(m, k)
    decreases |items|
  {
    if items == [] then m else PutAll(Put(m, items[0].0, items[0].1), items[1..])
  }

  /** `for k, v in items: if k not in m: m[k] = v`. */
  function PutAllIfAbsent<K(==,!new), V>(m: seq<Entry<K, V>>, items: seq<Entry<K, V>>): (r: seq<Entry<K, V>>)
    ensures UniqueKeys(m) ==> UniqueKeys(r)
    ensures forall k :: HasKey(m, k) || !HasKey(items, k) ==> Lookup(r, k) == Lookup(m, k)
    decreases |items|
  {
    if items == [] then m else PutAllIfAbsent(PutIfAbsent(m, items[0].0, items[0].1), items[1..])
  }

  /** The value of the last item with key `k`. */
  function LastValue<K(==), V>(items: seq<Entry<K, V>>, k: K): V
    requires HasKey(items, k)
  {
    if HasKey(items[1..], k) then LastValue(items[1..], k) else items[0].1
  }

  /** After `for k, v in items: m[k] = v`, a key the items mention holds
      the value of the LAST item with that key, wherever it stands. */
  lemma {:induction false} PutAllLastWins<K(!new), V>(m: seq<Entry<K, V>>, items: seq<Entry<K, V>>, k: K)
    requires HasKey(items, k)
    ensures Lookup(PutAll(m, items), k) == Some(LastValue(items, k))
    decreases |items|
  {
    var m' := Put(m, items[0].0, items[0].1);
    if HasKey(items[1..], k) {
      PutAllLastWins(m', items[1..], k);
    }
  }

  /** After `for k, v in items: if k not in m: m[k] = v`, a key that was
      absent from `m` holds the value of the FIRST item with that key. */
  lemma {:induction false} PutAllIfAbsentFirstWins<K(!new), V>(m: seq<Entry<K, V>>, items: seq<Entry<K, V>>, k: K)
    requires HasKey(items, k) && !HasKey(m, k)
    ensures Lookup(PutAllIfAbsent(m, items), k) == Lookup(items, k)
    decreases |items|
  {
    var m' := PutIfAbsent(m, items[0].0, items[0].1);
    if items[0].0 != k {
      assert Lookup(m', k) == Lookup(m, k);
      PutAllIfAbsentFirstWins(m', items[1..], k);
    } else {
      assert HasKey(m', k);
    }
  }

  lemma {:induction false} HasKeyAt<K, V>(m: seq<Entry<K, V>>, i: int)
    requires 0 <= i < |m|
    ensures HasKey(m, m[i].0)
  {
    if i > 0 {
      HasKeyAt(m[1..], i - 1);
    }
  }

  /** In a dict, the item at each position is what `get` finds there. */
  lemma {:induction false} LookupAt<K, V>(m: seq<Entry<K, V>>, i: int)
    requires UniqueKeys(m) && 0 <= i < |m|
    ensures Lookup(m, m[i].0) == Some(m[i].1)
  {
    if i > 0 {
      LookupAt(m[1..], i - 1);
      HasKeyAt(m[1..], i - 1);
    }
  }

  /** Assigning to a key that is not there appends the item. */
  lemma {:induction false} PutNewKey<K(!new), V>(m: seq<Entry<K, V>>, k: K, v: V)
    requires !HasKey(m, k)
    ensures Put(m, k, v) == m + [(k, v)]
  {
    if m != [] {
      PutNewKey(m[1..], k, v);
      assert m == [m[0]] + m[1..];
    }
  }

  /** `k in m` holds exactly when some item has key `k`. */
  lemma {:induction false} HasKeyIff<K, V>(m: seq<Entry<K, V>>, k: K)
    ensures HasKey(m, k) <==> exists i :: 0 <= i < |m| && m[i].0 == k
  {
    if m != [] {
      HasKeyIff(m[1..], k);
      if exists i :: 0 <= i < |m| && m[i].0 == k {
        var i :| 0 <= i < |m| && m[i].0 == k;
        if i > 0 {
          assert m[1..][i - 1].0 == k;
        }
      }
      if HasKey(m[1..], k) {
        var i :| 0 <= i < |m[1..]| && m[1..][i].0 == k;
        assert m[i + 1].0 == k;
      }
    }
  }

  lemma {:induction false} HasKeyAppend<K, V>(m: seq<Entry<K, V>>, e: Entry<K, V>, k: K)
    ensures HasKey(m + [e], k) <==> HasKey(m, k) || e.0 == k
  {
    if m != [] {
      assert (m + [e])[1..] == m[1..] + [e];
      HasKeyAppend(m[1..], e, k);
    }
  }

  /** No key of `items` is already in `m`. */
  ghost predicate AllNew<K(!new), V>(m: seq<Entry<K, V>>, items: seq<Entry<K, V>>) {
    forall k :: HasKey(items, k) ==> !HasKey(m, k)
  }

  /** One step of [`PutAllFresh`]: the first item is new, so it is
      appended, and the remaining items are distinct and new after it. */
  lemma FreshFirst<K(!new), V>(m: seq<Entry<K, V>>, items: seq<Entry<K, V>>)
    requires items != [] && UniqueKeys(items) && AllNew(m, items)
    ensures PutAll(m, items) == PutAll(m + [items[0]], items[1..])
    ensures UniqueKeys(items[1..])
    ensures AllNew(m + [items[0]], items[1..])
  {
    var e := items[0];
    assert HasKey(items, e.0);
    PutNewKey(m, e.0, e.1);
    forall k | HasKey(items[1..], k) ensures !HasKey(m + [e], k) {
      assert HasKey(items, k);
      HasKeyAppend(m, e, k);
    }
  }

  lemma SplitFirst<T>(m: seq<T>, items: seq<T>)
    requires items != []
    ensures m + [items[0]] + items[1..] == m + items
  {
    assert [items[0]] + items[1..] == items;
  }

  /** Updating with items whose keys are distinct and all new appends
      them in order; on an empty dict, `update` gives the items back. */
  lemma {:induction false} PutAllFresh<K(!new), V>(m: seq<Entry<K, V>>, items: seq<Entry<K, V>>)
    requires UniqueKeys(items) && AllNew(m, items)
    ensures PutAll(m, items) == m + items
    decreases |items|
  {
    if items != [] {
      FreshFirst(m, items);
      PutAllFresh(m + [items[0]], items[1..]);
      SplitFirst(m, items);
    }
  }

  /** `update` keeps every key where it stood and appends new keys after
      them, at most one per item. */
  lemma {:induction false} PutAllKeepsOrder<K(!new), V>(m: seq<Entry<K, V>>, items: seq<Entry<K, V>>)
    ensures |m| <= |PutAll(m, items)| <= |m| + |items|
    ensures Keys(PutAll(m, items))[..|m|] == Keys(m)
    decreases |items|
  {
    if items != [] {
      var m' := Put(m, items[0].0, items[0].1);
      PutAllKeepsOrder(m', items[1..]);
      assert Keys(m')[..|m|] == Keys(m);
      assert Keys(PutAll(m, items))[..|m|] == Keys(PutAll(m, items))[..|m'|][..|m|];
    }
  }

  /** The same for the `if k not in m` loop. */
  lemma {:induction false} PutAllIfAbsentKeepsOrder<K(!new), V>(m: seq<Entry<K, V>>, items: seq<Entry<K, V>>)
    ensures |m| <= |PutAllIfAbsent(m, items)| <= |m| + |items|
    ensures Keys(PutAllIfAbsent(m, items))[..|m|] == Keys(m)
    decreases |items|
  {
    if items != [] {
      var m' := PutIfAbsent(m, items[0].0, items[0].1);
      PutAllIfAbsentKeepsOrder(m', items[1..]);
      assert Keys(m')[..|m|] == Keys(m);
      assert Keys(PutAllIfAbsent(m, items))[..|m|] == Keys(PutAllIfAbsent(m, items))[..|m'|][..|m|];
    }
  }
  /** The keys of `items` that `m` lacks, in order. */
  function MissingKeys<K(==), V>(m: seq<Entry<K, V>>, items: seq<Entry<K, V>>): seq<K> {
    if items == [] then []
    else (if HasKey(m, items[0].0) then [] else [items[0].0]) + MissingKeys(m, items[1..])
  }

  lemma {:induction false} MissingKeysSame<K, V>(m: seq<Entry<K, V>>, m': seq<Entry<K, V>>, items: seq<Entry<K, V>>)
    requires forall i :: 0 <= i < |items| ==> (HasKey(m, items[i].0) <==> HasKey(m', items[i].0))
    ensures MissingKeys(m, items) == MissingKeys(m', items)
  {
    if items != [] {
      assert forall i :: 0 <= i < |items[1..]| ==> items[1..][i] == items[i + 1];
      MissingKeysSame(m, m', items[1..]);
    }
  }

  /** The `if k not in m` loop over distinct items appends, in order,
      exactly the keys `m` lacks. */
  lemma {:induction false} PutAllIfAbsentKeys<K(!new), V>(m: seq<Entry<K, V>>, items: seq<Entry<K, V>>)
    requires UniqueKeys(items)
    ensures Keys(PutAllIfAbsent(m, items)) == Keys(m) + MissingKeys(m, items)
    decreases |items|
  {
    if items != [] {
      var m' := PutIfAbsent(m, items[0].0, items[0].1);
      PutAllIfAbsentKeys(m', items[1..]);
      MissingKeysStep(m, items);
    }
  }

  /** One item of the loop: the keys so far plus those still missing do
      not change. */
  lemma MissingKeysStep<K(!new), V>(m: seq<Entry<K, V>>, items: seq<Entry<K, V>>)
    requires items != [] && UniqueKeys(items)
    ensures var m' := PutIfAbsent(m, items[0].0, items[0].1);
      Keys(m) + MissingKeys(m, items) == Keys(m') + MissingKeys(m', items[1..])
  {
    var k := items[0].0;
    var rest := items[1..];
    var m' := PutIfAbsent(m, k, items[0].1);
    var added := if HasKey(m, k) then [] else [k];
    MissingKeysAfterPut(m, k, items[0].1, rest);
    assert Keys(m') == Keys(m) + added;
    assert MissingKeys(m, items) == added + MissingKeys(m, rest);
    assert Keys(m) + added + MissingKeys(m, rest) == Keys(m) + (added + MissingKeys(m, rest));
  }

  /** Storing a key the items do not mention leaves the keys they miss unchanged. */
  lemma MissingKeysAfterPut<K(!new), V>(m: seq<Entry<K, V>>, k: K, v: V, items: seq<Entry<K, V>>)
    requires !HasKey(items, k)
    ensures MissingKeys(PutIfAbsent(m, k, v), items) == MissingKeys(m, items)
  {
    var m' := PutIfAbsent(m, k, v);
    forall i | 0 <= i < |items| ensures HasKey(m, items[i].0) <==> HasKey(m', items[i].0) {
      HasKeyAt(items, i);
      assert Lookup(m', items[i].0) == Lookup(m, items[i].0);
    }
    MissingKeysSame(m, m', items);
  }

  /** Every key `update` appends after those of `m` is a key of the items. */
  lemma {:induction false} PutAllNewKeys<K(!new), V>(m: seq<Entry<K, V>>, items: seq<Entry<K, V>>)
    ensures forall j :: |m| <= j < |PutAll(m, items)| ==> HasKey(items, Keys(PutAll(m, items))[j])
    decreases |items|
  {
    if items != [] {
      var m' := Put(m, items[0].0, items[0].1);
      var r := PutAll(m, items);
      PutAllNewKeys(m', items[1..]);
      PutAllKeepsOrder(m', items[1..]);
      forall j | |m| <= j < |r| ensures HasKey(items, Keys(r)[j]) {
        if j < |m'| {
          assert Keys(m') == Keys(m) + [items[0].0];
          assert Keys(r)[j] == Keys(r)[..|m'|][j] == Keys(m')[j];
        }
      }
    }
  }
}
