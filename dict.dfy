/**
 * Python dictionaries as the sequence of their items in insertion order, with the two
 * operations the pipeline performs on them (`d.get(k)` and `d[k] = v`) and the counter
 * idioms built on them (`d.get(k, 0)`, `d[k] += v`, summing one table into another).
 * Keeping the order matters: `max` over a dict returns the first maximal key in that order.
 */
module Dict {
  import opened Results

  /** A dict as its (key, value) items, oldest first. */
  type Table<K, V> = seq<(K, V)>

  /** No key is stored twice: true of every table built by Put from the empty table. */
  ghost predicate DistinctKeys<K, V>(t: Table<K, V>)
  {
    forall i, j :: 0 <= i < j < |t| ==> t[i].0 != t[j].0
  }

  function Keys<K, V>(t: Table<K, V>): set<K>
  {
    set i | 0 <= i < |t| :: t[i].0
  }

  /** The position of the first item stored under k. */
  function IndexOf<K(==), V>(t: Table<K, V>, k: K): (i: nat)
    requires k in Keys(t)
    ensures i < |t| && t[i].0 == k
    ensures forall j :: 0 <= j < i ==> t[j].0 != k
  {
    if t[0].0 == k then 0
    else
      assert k in Keys(t[1..]) by {
        var j :| 0 <= j < |t| && t[j].0 == k;
        assert t[1..][j - 1].0 == k;
      }
      1 + IndexOf(t[1..], k)
  }

  /** d.get(k) */
  function Get<K(==), V>(t: Table<K, V>, k: K): (r: Option<V>)
    ensures r.Some? <==> k in Keys(t)
  {
    if k in Keys(t) then Some(t[IndexOf(t, k)].1) else None
  }

  /** d[k] = v: an existing key keeps its place and gets the new value; a new key goes last. */
  function Put<K(==), V>(t: Table<K, V>, k: K, v: V): (r: Table<K, V>)
    ensures k in Keys(t) ==> |r| == |t| && forall i :: 0 <= i < |t| ==> r[i] == (if t[i].0 == k then (k, v) else t[i])
    ensures k !in Keys(t) ==> r == t + [(k, v)]
  {
    if k in Keys(t) then seq(|t|, i requires 0 <= i < |t| => if t[i].0 == k then (k, v) else t[i])
    else t + [(k, v)]
  }

  /** After d[k] = v, d.get(k) is v and every other key reads as before; the keys grow by k. */
  lemma GetPut<K, V>(t: Table<K, V>, k: K, v: V)
    ensures Keys(Put(t, k, v)) == Keys(t) + {k}
    ensures forall k' :: Get(Put(t, k, v), k') == if k' == k then Some(v) else Get(t, k')
  {
    var r := Put(t, k, v);
    assert Keys(r) == Keys(t) + {k} by {
      if k in Keys(t) {
        forall x | x in Keys(r) ensures x in Keys(t) + {k} {
          var j :| 0 <= j < |r| && r[j].0 == x;
        }
        forall x | x in Keys(t) ensures x in Keys(r) {
          var j :| 0 <= j < |t| && t[j].0 == x;
          assert r[j].0 == x;
        }
      } else {
        forall x | x in Keys(r) ensures x in Keys(t) + {k} {
          var j :| 0 <= j < |r| && r[j].0 == x;
          if j < |t| { assert t[j].0 == x; }
        }
        forall x | x in Keys(t) ensures x in Keys(r) {
          var j :| 0 <= j < |t| && t[j].0 == x;
          assert r[j].0 == x;
        }
        assert r[|t|].0 == k;
      }
    }
    forall k' ensures Get(r, k') == if k' == k then Some(v) else Get(t, k') {
      if k' in Keys(t) && k' != k {
        var i := IndexOf(t, k');
        var j := IndexOf(r, k');
        assert r[i] == t[i];
        assert r[j] == t[j];
      } else if k' == k && k !in Keys(t) {
        assert r[|t|] == (k, v);
        assert forall j :: 0 <= j < |t| ==> r[j] == t[j] && t[j].0 in Keys(t);
      }
    }
  }

  /** Put keeps the keys distinct. */
  lemma PutDistinct<K, V>(t: Table<K, V>, k: K, v: V)
    requires DistinctKeys(t)
    ensures DistinctKeys(Put(t, k, v))
  {
    if k !in Keys(t) {
      var r := Put(t, k, v);
      forall i, j | 0 <= i < j < |r| ensures r[i].0 != r[j].0 {
        if j == |t| {
          assert t[i].0 in Keys(t);
        }
      }
    }
  }

  /** With distinct keys, every item is what d.get returns for its key. */
  lemma GetAt<K, V>(t: Table<K, V>, i: nat)
    requires DistinctKeys(t) && i < |t|
    ensures Get(t, t[i].0) == Some(t[i].1)
  {
    assert t[i].0 in Keys(t);
  }

  // ---------------------------------------------------------------------------------
  // Counters: tables whose values are occurrence counts

  /** d.get(k, 0), and what a defaultdict(int) reads for k. */
  function Count<K(==)>(t: Table<K, int>, k: K): int
  {
    match Get(t, k)
    case Some(n) => n
    case None => 0
  }

  /** d[k] += n on a defaultdict(int). */
  function Add<K(==)>(t: Table<K, int>, k: K, n: int): Table<K, int>
  {
    Put(t, k, Count(t, k) + n)
  }

  /** sum(d.values()) */
  function Total<K>(t: Table<K, int>): int
  {
    if t == [] then 0 else Total(t[..|t| - 1]) + t[|t| - 1].1
  }

  /** After d[k] += n: k counts n more, every other key the same, the keys grow by k. */
  lemma CountAdd<K>(t: Table<K, int>, k: K, n: int)
    ensures Keys(Add(t, k, n)) == Keys(t) + {k}
    ensures forall k' :: Count(Add(t, k, n), k') == Count(t, k') + (if k' == k then n else 0)
  {
    GetPut(t, k, Count(t, k) + n);
  }

  lemma {:induction false} TotalUpdate<K>(t: Table<K, int>, i: nat, e: (K, int))
    requires i < |t|
    ensures Total(t[i := e]) == Total(t) - t[i].1 + e.1
  {
    var n := |t| - 1;
    if i < n {
      assert t[i := e][..n] == t[..n][i := e];
      TotalUpdate(t[..n], i, e);
    } else {
      assert t[i := e][..n] == t[..n];
    }
  }

  /** d[k] += n adds exactly n to the sum of the values. */
  lemma TotalAdd<K>(t: Table<K, int>, k: K, n: int)
    requires DistinctKeys(t)
    ensures Total(Add(t, k, n)) == Total(t) + n
  {
    var r := Add(t, k, n);
    if k in Keys(t) {
      var i := IndexOf(t, k);
      assert r == t[i := (k, Count(t, k) + n)] by {
        forall j | 0 <= j < |t| ensures r[j] == t[i := (k, Count(t, k) + n)][j] {
          assert j != i ==> t[j].0 != t[i].0;
        }
      }
      TotalUpdate(t, i, (k, Count(t, k) + n));
    } else {
      assert r[..|r| - 1] == t;
    }
  }

  /** for k, v in local.items(): d[k] += v */
  function AddAll<K(==)>(d: Table<K, int>, local: Table<K, int>): Table<K, int>
    decreases |local|
  {
    if local == [] then d else AddAll(Add(d, local[0].0, local[0].1), local[1..])
  }

  /** The counts of one table summed per key: what d.get(k, 0) adds up to over the items. */
  function SumAt<K(==)>(local: Table<K, int>, k: K): int
    decreases |local|
  {
    if local == [] then 0 else (if local[0].0 == k then local[0].1 else 0) + SumAt(local[1..], k)
  }

  /** With distinct keys, summing per key is just looking the key up. */
  lemma {:induction false} SumAtCount<K>(local: Table<K, int>, k: K)
    requires DistinctKeys(local)
    ensures SumAt(local, k) == Count(local, k)
  {
    if local != [] {
      var rest := local[1..];
      SumAtCount(rest, k);
      if local[0].0 == k {
        assert k !in Keys(rest) by {
          forall j | 0 <= j < |rest| ensures rest[j].0 != k {
            assert rest[j] == local[j + 1];
          }
        }
        assert IndexOf(local, k) == 0;
      } else if k in Keys(local) {
        var i := IndexOf(local, k);
        assert rest[i - 1].0 == k;
        var j := IndexOf(rest, k);
        assert local[j + 1].0 == k;
        assert i == j + 1;
      } else {
        assert k !in Keys(rest) by {
          forall j | 0 <= j < |rest| ensures rest[j].0 != k {
            assert rest[j] == local[j + 1];
          }
        }
      }
    }
  }

  /** Summing local into d adds local's count to d's for every key and unites the keys. */
  lemma {:induction false} AddAllCount<K>(d: Table<K, int>, local: Table<K, int>)
    ensures Keys(AddAll(d, local)) == Keys(d) + Keys(local)
    ensures forall k :: Count(AddAll(d, local), k) == Count(d, k) + SumAt(local, k)
    decreases |local|
  {
    if local != [] {
      var d' := Add(d, local[0].0, local[0].1);
      CountAdd(d, local[0].0, local[0].1);
      AddAllCount(d', local[1..]);
      assert Keys(local) == {local[0].0} + Keys(local[1..]) by {
        forall x | x in Keys(local) ensures x in {local[0].0} + Keys(local[1..]) {
          var j :| 0 <= j < |local| && local[j].0 == x;
          if j > 0 { assert local[1..][j - 1].0 == x; }
        }
        forall x | x in Keys(local[1..]) ensures x in Keys(local) {
          var j :| 0 <= j < |local[1..]| && local[1..][j].0 == x;
          assert local[j + 1].0 == x;
        }
      }
    } else {
      assert Keys(local) == {};
    }
  }

  /** Summing into a table keeps its keys distinct. */
  lemma {:induction false} AddAllDistinct<K>(d: Table<K, int>, local: Table<K, int>)
    requires DistinctKeys(d)
    ensures DistinctKeys(AddAll(d, local))
    decreases |local|
  {
    if local != [] {
      PutDistinct(d, local[0].0, Count(d, local[0].0) + local[0].1);
      AddAllDistinct(Add(d, local[0].0, local[0].1), local[1..]);
    }
  }

  /** Summing a + b into d is summing a, then b. */
  lemma {:induction false} AddAllAppend<K>(d: Table<K, int>, a: Table<K, int>, b: Table<K, int>)
    ensures AddAll(d, a + b) == AddAll(AddAll(d, a), b)
    decreases |a|
  {
    if a == [] {
      assert a + b == b;
    } else {
      assert (a + b)[1..] == a[1..] + b;
      AddAllAppend(Add(d, a[0].0, a[0].1), a[1..], b);
    }
  }

  lemma {:induction false} TotalAppend<K>(a: Table<K, int>, b: Table<K, int>)
    ensures Total(a + b) == Total(a) + Total(b)
    decreases |b|
  {
    if b == [] {
      assert a + b == a;
    } else {
      var n := |b| - 1;
      assert (a + b)[..|a + b| - 1] == a + b[..n];
      TotalAppend(a, b[..n]);
    }
  }

  /** Summing local into a counter adds exactly local's total to the counter's total. */
  lemma {:induction false} TotalAddAll<K>(d: Table<K, int>, local: Table<K, int>)
    requires DistinctKeys(d)
    ensures Total(AddAll(d, local)) == Total(d) + Total(local)
    decreases |local|
  {
    if local != [] {
      var (k, n) := local[0];
      var d' := Add(d, k, n);
      TotalAdd(d, k, n);
      PutDistinct(d, k, Count(d, k) + n);
      TotalAddAll(d', local[1..]);
      TotalCons(local);
    }
  }

  lemma TotalCons<K>(t: Table<K, int>)
    requires t != []
    ensures Total(t) == t[0].1 + Total(t[1..])
  {
    TotalAppend([t[0]], t[1..]);
    assert [t[0]] + t[1..] == t;
    assert [t[0]][..0] == [];
  }

  lemma {:induction false} SumAtAppend<K>(a: Table<K, int>, b: Table<K, int>, k: K)
    ensures SumAt(a + b, k) == SumAt(a, k) + SumAt(b, k)
    decreases |a|
  {
    if a == [] {
      assert a + b == b;
    } else {
      assert (a + b)[1..] == a[1..] + b;
      SumAtAppend(a[1..], b, k);
    }
  }

  lemma KeysAppend<K, V>(a: Table<K, V>, b: Table<K, V>)
    ensures Keys(a + b) == Keys(a) + Keys(b)
  {
    forall x | x in Keys(a + b) ensures x in Keys(a) + Keys(b) {
      var j :| 0 <= j < |a + b| && (a + b)[j].0 == x;
      if j >= |a| {
        assert b[j - |a|].0 == x;
      }
    }
    forall x | x in Keys(a) + Keys(b) ensures x in Keys(a + b) {
      if x in Keys(a) {
        var j :| 0 <= j < |a| && a[j].0 == x;
        assert (a + b)[j].0 == x;
      } else {
        var j :| 0 <= j < |b| && b[j].0 == x;
        assert (a + b)[|a| + j].0 == x;
      }
    }
  }

  /** Python's == on dicts: the same keys with the same values, whatever the order. */
  ghost predicate SameTable<K(!new)>(a: Table<K, int>, b: Table<K, int>)
  {
    Keys(a) == Keys(b) && forall k :: Count(a, k) == Count(b, k)
  }
}
