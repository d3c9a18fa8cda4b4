/** The per-key `counts` / `totalPrices` dictionaries that every chart script
    fills in a `forEach` over its surviving rows. The two dictionaries always
    share their keys, so one map from key to Bucket stands for both. */
module Tallies {
  import opened Listings

  /** `counts[k]` and `totalPrices[k]` for one key. */
  datatype Bucket = Bucket(count: nat, priceSum: real)

  const Empty := Bucket(0, 0.0)

  function Plus(a: Bucket, b: Bucket): Bucket
  {
    Bucket(a.count + b.count, a.priceSum + b.priceSum)
  }

  /** Adding nothing changes nothing. */
  lemma PlusEmpty(b: Bucket)
    ensures Plus(b, Empty) == b
  {
  }

  /** `(counts[k] || 0)` and `(totalPrices[k] || 0)` */
  function Get<K>(m: map<K, Bucket>, k: K): Bucket
  {
    if k in m then m[k] else Empty
  }

  /** The entries of `m` whose key is in `keys`. */
  function Restrict<K>(m: map<K, Bucket>, keys: set<K>): (r: map<K, Bucket>)
    ensures r.Keys == m.Keys * keys
    ensures forall k :: k in r ==> r[k] == m[k]
  {
    map k | k in m && k in keys :: m[k]
  }

  /** Some key of a non-empty map. */
  ghost function Pick<K>(m: map<K, Bucket>): (k: K)
    requires m != map[]
    ensures k in m
  {
    var k :| k in m; k
  }

  /** Sum of all buckets of `m`, key by key. */
  ghost function Total<K>(m: map<K, Bucket>): Bucket
    decreases |m|
  {
    if m == map[] then Empty
    else
      var k := Pick(m);
      assert (m - {k}).Keys == m.Keys - {k};
      Plus(m[k], Total(m - {k}))
  }

  lemma TotalWithoutAbsent<K>(m: map<K, Bucket>, k: K)
    requires k !in m
    ensures Total(m) == Plus(Get(m, k), Total(m - {k}))
  {
    assert m - {k} == m;
  }

  lemma TotalWithoutPicked<K>(m: map<K, Bucket>, k: K)
    requires k in m && Pick(m) == k
    ensures Total(m) == Plus(Get(m, k), Total(m - {k}))
  {
  }

  lemma TotalWithoutSwapped<K>(m: map<K, Bucket>, k: K, j: K, rest: map<K, Bucket>)
    requires k in m && Pick(m) == j && j != k
    requires rest == m - {j} - {k}
    requires Total(m - {j}) == Plus(m[k], Total(rest))
    requires Total(m - {k}) == Plus(m[j], Total(rest))
    ensures Total(m) == Plus(Get(m, k), Total(m - {k}))
  {
  }

  /** The total does not depend on which key is taken out first. */
  lemma {:induction false} TotalWithout<K>(m: map<K, Bucket>, k: K)
    ensures Total(m) == Plus(Get(m, k), Total(m - {k}))
    decreases |m|
  {
    if k !in m {
      TotalWithoutAbsent(m, k);
    } else {
      var j := Pick(m);
      if j == k {
        TotalWithoutPicked(m, k);
      } else {
        var rest := m - {j} - {k};
        assert |m - {j}| < |m| by { assert (m - {j}).Keys == m.Keys - {j}; }
        assert |m - {k}| < |m| by { assert (m - {k}).Keys == m.Keys - {k}; }
        TotalWithout(m - {j}, k);
        TotalWithout(m - {k}, j);
        assert m - {k} - {j} == rest;
        TotalWithoutSwapped(m, k, j, rest);
      }
    }
  }

  /** The count and price sum of the rows of `rows` whose key is `k`. */
  function BucketOf<K(==)>(rows: seq<Row>, key: Row -> K, k: K): Bucket
  {
    if rows == [] then Empty
    else
      var last := rows[|rows| - 1];
      Plus(BucketOf(rows[..|rows| - 1], key, k), if key(last) == k then Bucket(1, last.price) else Empty)
  }

  lemma BucketOfAppend<K>(rows: seq<Row>, r: Row, key: Row -> K, k: K)
    ensures BucketOf(rows + [r], key, k)
         == Plus(BucketOf(rows, key, k), if key(r) == k then Bucket(1, r.price) else Empty)
  {
    assert (rows + [r])[..|rows|] == rows;
  }

  /** A key that no row has gets nothing. */
  lemma {:induction false} BucketOfAbsent<K>(rows: seq<Row>, key: Row -> K, k: K)
    requires forall r :: r in rows ==> key(r) != k
    ensures BucketOf(rows, key, k) == Empty
  {
    if rows != [] {
      BucketOfAbsent(rows[..|rows| - 1], key, k);
    }
  }

  /** A key that some row has is counted at least once. */
  lemma {:induction false} BucketOfPresent<K>(rows: seq<Row>, key: Row -> K, r: Row)
    requires r in rows
    ensures BucketOf(rows, key, key(r)).count >= 1
  {
    var init, last := rows[..|rows| - 1], rows[|rows| - 1];
    assert rows == init + [last];
    if last != r {
      BucketOfPresent(init, key, r);
    }
  }

  /** The distinct keys of `rows`. */
  function KeysOf<K(==)>(rows: seq<Row>, key: Row -> K): set<K>
  {
    set r | r in rows :: key(r)
  }

  /** What the two dictionaries should hold once every row is counted: for
      each key that occurs, the number of rows with that key and the sum of
      their prices. */
  function Tabulation<K(==)>(rows: seq<Row>, key: Row -> K): (tally: map<K, Bucket>)
  {
    map k | k in KeysOf(rows, key) :: BucketOf(rows, key, k)
  }

  /** The dictionaries have a key for each distinct key of the rows, and no other. */
  lemma TabulationKeys<K>(rows: seq<Row>, key: Row -> K)
    ensures Tabulation(rows, key).Keys == KeysOf(rows, key)
  {
  }

  /** Every key in the dictionaries comes from a row, so no count is zero. */
  lemma TabulationPositive<K>(rows: seq<Row>, key: Row -> K)
    ensures forall k :: k in Tabulation(rows, key) ==> Tabulation(rows, key)[k].count >= 1
  {
    forall k | k in Tabulation(rows, key)
      ensures Tabulation(rows, key)[k].count >= 1
    {
      var r :| r in rows && key(r) == k;
      BucketOfPresent(rows, key, r);
    }
  }

  /** Counting one more row changes exactly that row's key. */
  lemma TabulationAppend<K>(rows: seq<Row>, r: Row, key: Row -> K)
    ensures Tabulation(rows + [r], key)
         == Tabulation(rows, key)[key(r) := Plus(Get(Tabulation(rows, key), key(r)), Bucket(1, r.price))]
  {
    var before, after := Tabulation(rows, key), Tabulation(rows + [r], key);
    var expected := before[key(r) := Plus(Get(before, key(r)), Bucket(1, r.price))];
    assert KeysOf(rows + [r], key) == KeysOf(rows, key) + {key(r)};
    forall k | k in after
      ensures after[k] == expected[k]
    {
      BucketOfAppend(rows, r, key, k);
      if k !in before {
        BucketOfAbsent(rows, key, k);
      }
    }
    assert after == expected;
  }

  /** The `counts` / `totalPrices` loop: one dictionary update per row. */
  method Tabulate<K(==)>(rows: seq<Row>, key: Row -> K) returns (tally: map<K, Bucket>)
    ensures tally == Tabulation(rows, key)
  {
    tally := map[];
    for i := 0 to |rows|
      invariant tally == Tabulation(rows[..i], key)
    {
      var k := key(rows[i]);
      TabulationAppend(rows[..i], rows[i], key);
      assert rows[..i + 1] == rows[..i] + [rows[i]];
      tally := tally[k := Plus(Get(tally, k), Bucket(1, rows[i].price))];
    }
    assert rows[..|rows|] == rows;
  }

  /** Summed over all keys, the dictionaries hold every row once: the count
      total is the number of rows and the price total is their price sum. */
  lemma {:induction false} TabulationTotal<K>(rows: seq<Row>, key: Row -> K)
    ensures Total(Tabulation(rows, key)) == Bucket(|rows|, SumPrices(rows))
  {
    if rows == [] {
      assert Tabulation(rows, key) == map[];
    } else {
      var init, last := rows[..|rows| - 1], rows[|rows| - 1];
      assert rows == init + [last];
      TabulationTotal(init, key);
      TabulationAppend(init, last, key);
      SumPricesAppend(init, last);
      var before := Tabulation(init, key);
      var after := Tabulation(rows, key);
      TotalWithout(before, key(last));
      TotalWithout(after, key(last));
      assert after - {key(last)} == before - {key(last)};
    }
  }
}
