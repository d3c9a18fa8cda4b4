/** The records a chart is drawn from: `Object.keys(counts).map(...)` turns
    the dictionaries into one `{key, count, averagePrice}` record per key, and
    the tooltips show each record's share of `total`. */
module Slices {
  import opened Tallies

  /** One record `{key, count, averagePrice}`. */
  datatype Slice<K> = Slice(key: K, count: nat, averagePrice: real)

  /** The record of one key: its count and `totalPrices[key] / counts[key]`. */
  function SliceOf<K>(k: K, b: Bucket): (s: Slice<K>)
    requires b.count >= 1
    ensures s.key == k && s.count == b.count
  {
    Slice(k, b.count, b.priceSum / b.count as real)
  }

  /** The average price times the count gives back the price sum. */
  lemma SliceOfAverage<K>(k: K, b: Bucket)
    requires b.count >= 1
    ensures SliceOf(k, b).averagePrice * (b.count as real) == b.priceSum
  {
  }

  /** What a record stands for: its count and its count times its average. */
  function Weight<K>(s: Slice<K>): Bucket
  {
    Bucket(s.count, s.count as real * s.averagePrice)
  }

  /** Sum over the records of their counts and of their price masses; the
      count part is `d3.sum(data, d => d.count)`. */
  function SliceTotal<K>(slices: seq<Slice<K>>): Bucket
  {
    if slices == [] then Empty
    else Plus(SliceTotal(slices[..|slices| - 1]), Weight(slices[|slices| - 1]))
  }

  lemma SliceTotalAppend<K>(slices: seq<Slice<K>>, s: Slice<K>)
    ensures SliceTotal(slices + [s]) == Plus(SliceTotal(slices), Weight(s))
  {
    assert (slices + [s])[..|slices|] == slices;
  }

  lemma RestrictAll<K>(tally: map<K, Bucket>, done: set<K>)
    requires done == tally.Keys
    ensures Restrict(tally, done) == tally
  {
    var r := Restrict(tally, done);
    assert forall k :: k in r <==> k in tally;
    assert forall k :: k in r ==> r[k] == tally[k];
  }

  lemma DoneGrows<K>(keys: set<K>, pending: set<K>, k: K)
    requires pending <= keys && k in pending
    ensures (keys - pending) + {k} == keys - (pending - {k})
  {
  }

  lemma {:induction false} SliceTotalConcat<K>(a: seq<Slice<K>>, b: seq<Slice<K>>)
    ensures SliceTotal(a + b) == Plus(SliceTotal(a), SliceTotal(b))
    decreases |b|
  {
    if b == [] {
      assert a + b == a;
    } else {
      var init, last := b[..|b| - 1], b[|b| - 1];
      assert a + b == (a + init) + [last];
      assert b == init + [last];
      SliceTotalConcat(a, init);
      SliceTotalAppend(a + init, last);
      SliceTotalAppend(init, last);
    }
  }

  /** Taking one record out of the middle subtracts its weight. */
  lemma SliceTotalRemove<K>(t: seq<Slice<K>>, k: int)
    requires 0 <= k < |t|
    ensures SliceTotal(t) == Plus(SliceTotal(t[..k] + t[k + 1..]), Weight(t[k]))
  {
    var pre, post := t[..k], t[k + 1..];
    SplitAt(t, k);
    SliceTotalSplit(pre, t[k], post);
  }

  lemma SplitAt<T>(t: seq<T>, k: int)
    requires 0 <= k < |t|
    ensures t == t[..k] + [t[k]] + t[k + 1..]
  {
  }

  lemma SliceTotalSplit<K>(pre: seq<Slice<K>>, x: Slice<K>, post: seq<Slice<K>>)
    ensures SliceTotal(pre + [x] + post) == Plus(SliceTotal(pre + post), Weight(x))
  {
    SliceTotalConcat(pre + [x], post);
    SliceTotalAppend(pre, x);
    SliceTotalConcat(pre, post);
  }

  lemma MultisetCancel<T>(a: multiset<T>, b: multiset<T>, x: T)
    requires a + multiset{x} == b + multiset{x}
    ensures a == b
  {
    assert forall y :: a[y] == (a + multiset{x})[y] - multiset{x}[y];
    assert forall y :: b[y] == (b + multiset{x})[y] - multiset{x}[y];
  }

  /** A sequence without repeated elements holds each value at most once. */
  lemma {:induction false} DistinctAtMostOnce<T>(s: seq<T>, x: T)
    requires forall i, j :: 0 <= i < j < |s| ==> s[i] != s[j]
    ensures multiset(s)[x] <= 1
    decreases |s|
  {
    if s != [] {
      var init, last := s[..|s| - 1], s[|s| - 1];
      assert s == init + [last];
      DistinctAtMostOnce(init, x);
      if last == x {
        assert x !in init;
      }
    }
  }

  /** An element found at two positions is counted at least twice. */
  lemma TwiceCounted<T>(s: seq<T>, i: int, j: int)
    requires 0 <= i < j < |s| && s[i] == s[j]
    ensures multiset(s)[s[i]] >= 2
  {
    assert s == s[..j] + [s[j]] + s[j + 1..];
    assert s[i] in s[..j];
  }

  /** The sum over records does not depend on their order. */
  lemma {:induction false} SliceTotalPermutation<K>(s: seq<Slice<K>>, t: seq<Slice<K>>)
    requires multiset(s) == multiset(t)
    ensures SliceTotal(s) == SliceTotal(t)
    decreases |s|
  {
    if s == [] {
      assert t == [] by { assert |t| == |multiset(t)| == 0; }
    } else {
      var init, last := s[..|s| - 1], s[|s| - 1];
      assert s == init + [last];
      assert last in multiset(t);
      var k :| 0 <= k < |t| && t[k] == last;
      var rest := t[..k] + t[k + 1..];
      assert t == t[..k] + [last] + t[k + 1..];
      assert multiset(s) == multiset(init) + multiset{last};
      assert multiset(t) == multiset(rest) + multiset{last};
      MultisetCancel(multiset(init), multiset(rest), last);
      SliceTotalPermutation(init, rest);
      SliceTotalRemove(t, k);
      SliceTotalAppend(init, last);
    }
  }

  /** Adding one key of `tally` to the keys already summed. */
  lemma RestrictGrow<K>(tally: map<K, Bucket>, done: set<K>, k: K)
    requires k in tally && k !in done
    ensures Total(Restrict(tally, done + {k})) == Plus(tally[k], Total(Restrict(tally, done)))
  {
    TotalWithout(Restrict(tally, done + {k}), k);
    assert Restrict(tally, done + {k}) - {k} == Restrict(tally, done);
  }

  /** A record stands for exactly the bucket it was made from. */
  lemma WeightOfSliceOf<K>(k: K, b: Bucket)
    requires b.count >= 1
    ensures Weight(SliceOf(k, b)) == b
  {
    SliceOfAverage(k, b);
  }

  lemma SliceTotalGrow<K>(tally: map<K, Bucket>, done: set<K>, k: K, slices: seq<Slice<K>>)
    requires k in tally && k !in done && tally[k].count >= 1
    requires SliceTotal(slices) == Total(Restrict(tally, done))
    ensures SliceTotal(slices + [SliceOf(k, tally[k])]) == Total(Restrict(tally, done + {k}))
  {
    RestrictGrow(tally, done, k);
    SliceTotalAppend(slices, SliceOf(k, tally[k]));
    WeightOfSliceOf(k, tally[k]);
  }

  /** `s` is the record of one of the keys of `tally`. */
  predicate RecordOf<K>(tally: map<K, Bucket>, s: Slice<K>)
    requires forall k :: k in tally ==> tally[k].count >= 1
  {
    s.key in tally && s == SliceOf(s.key, tally[s.key])
  }

  /** `slices` holds exactly one record per key of `keys`. */
  predicate OnePerKey<K>(keys: set<K>, slices: seq<Slice<K>>)
  {
    && |slices| == |keys|
    && (forall i :: 0 <= i < |slices| ==> slices[i].key in keys)
    && (forall i, j :: 0 <= i < j < |slices| ==> slices[i].key != slices[j].key)
    && (forall k :: k in keys ==> exists i :: 0 <= i < |slices| && slices[i].key == k)
  }

  lemma OnePerKeyStep<K>(keys: set<K>, slices: seq<Slice<K>>, s: Slice<K>)
    requires OnePerKey(keys, slices) && s.key !in keys
    ensures OnePerKey(keys + {s.key}, slices + [s])
  {
    var slices' := slices + [s];
    forall j | j in keys + {s.key}
      ensures exists i :: 0 <= i < |slices'| && slices'[i].key == j
    {
      if j == s.key {
        assert slices'[|slices|].key == j;
      } else {
        var i :| 0 <= i < |slices| && slices[i].key == j;
        assert slices'[i].key == j;
      }
    }
  }

  lemma RecordsStep<K>(tally: map<K, Bucket>, slices: seq<Slice<K>>, s: Slice<K>)
    requires forall k :: k in tally ==> tally[k].count >= 1
    requires forall i :: 0 <= i < |slices| ==> RecordOf(tally, slices[i])
    requires RecordOf(tally, s)
    ensures forall i :: 0 <= i < |slices + [s]| ==> RecordOf(tally, (slices + [s])[i])
  {
  }

  /** The record loop once the keys outside `pending` are done: one record
      per done key, each made from its bucket, summing to the done buckets. */
  ghost predicate Building<K>(tally: map<K, Bucket>, slices: seq<Slice<K>>, pending: set<K>)
    requires forall k :: k in tally ==> tally[k].count >= 1
  {
    && pending <= tally.Keys
    && OnePerKey(tally.Keys - pending, slices)
    && (forall i :: 0 <= i < |slices| ==> RecordOf(tally, slices[i]))
    && SliceTotal(slices) == Total(Restrict(tally, tally.Keys - pending))
  }

  lemma BuildingStart<K>(tally: map<K, Bucket>)
    requires forall k :: k in tally ==> tally[k].count >= 1
    ensures Building(tally, [], tally.Keys)
  {
    assert Restrict(tally, tally.Keys - tally.Keys) == map[];
  }

  lemma BuildingStep<K>(tally: map<K, Bucket>, slices: seq<Slice<K>>, pending: set<K>, k: K)
    requires forall k :: k in tally ==> tally[k].count >= 1
    requires Building(tally, slices, pending) && k in pending
    ensures Building(tally, slices + [SliceOf(k, tally[k])], pending - {k})
  {
    var s := SliceOf(k, tally[k]);
    OnePerKeyStep(tally.Keys - pending, slices, s);
    RecordsStep(tally, slices, s);
    SliceTotalGrow(tally, tally.Keys - pending, k, slices);
    DoneGrows(tally.Keys, pending, k);
  }

  lemma BuildingDone<K>(tally: map<K, Bucket>, slices: seq<Slice<K>>)
    requires forall k :: k in tally ==> tally[k].count >= 1
    requires Building(tally, slices, {})
    ensures OnePerKey(tally.Keys, slices)
    ensures forall i :: 0 <= i < |slices| ==> RecordOf(tally, slices[i])
    ensures SliceTotal(slices) == Total(tally)
  {
    assert tally.Keys - {} == tally.Keys;
    RestrictAll(tally, tally.Keys - {});
  }

  /** Records for the keys of `tally`, one per key, in the order the keys are
      taken (which `Object.keys` does not fix). Summed over the records, the
      counts and price masses are those of the dictionaries. */
  method BuildSlices<K(==)>(tally: map<K, Bucket>) returns (slices: seq<Slice<K>>)
    requires forall k :: k in tally ==> tally[k].count >= 1
    ensures OnePerKey(tally.Keys, slices)
    ensures forall i :: 0 <= i < |slices| ==> RecordOf(tally, slices[i])
    ensures SliceTotal(slices) == Total(tally)
  {
    slices := [];
    var pending := tally.Keys;
    BuildingStart(tally);
    while pending != {}
      invariant Building(tally, slices, pending)
      decreases |pending|
    {
      var k :| k in pending;
      BuildingStep(tally, slices, pending, k);
      slices := slices + [SliceOf(k, tally[k])];
      pending := pending - {k};
    }
    BuildingDone(tally, slices);
  }

  /** `Object.values(counts).reduce((a, b) => a + b, 0)` */
  method SumCounts<K>(tally: map<K, Bucket>) returns (total: nat)
    ensures total == Total(tally).count
  {
    total := 0;
    var pending := tally.Keys;
    while pending != {}
      invariant pending <= tally.Keys
      invariant total == Total(Restrict(tally, tally.Keys - pending)).count
      decreases |pending|
    {
      var k :| k in pending;
      RestrictGrow(tally, tally.Keys - pending, k);
      DoneGrows(tally.Keys, pending, k);
      total := total + tally[k].count;
      pending := pending - {k};
    }
    RestrictAll(tally, tally.Keys - pending);
  }

  /** The tooltip's `count / total * 100`. */
  function Percentage(count: nat, total: nat): (p: real)
    requires total > 0
    ensures 0.0 <= p
    ensures count <= total ==> p <= 100.0
  {
    count as real / total as real * 100.0
  }

  /** The percentages of all records over the same `total`, added up. */
  function PercentSum<K>(slices: seq<Slice<K>>, total: nat): real
    requires total > 0
  {
    if slices == [] then 0.0
    else PercentSum(slices[..|slices| - 1], total) + Percentage(slices[|slices| - 1].count, total)
  }

  lemma SharesAdd(a: nat, b: nat, total: nat)
    requires total > 0
    ensures Percentage(a, total) + Percentage(b, total) == Percentage(a + b, total)
  {
    var t := total as real;
    assert a as real / t + b as real / t == (a + b) as real / t;
  }

  lemma {:induction false} PercentSumIsShare<K>(slices: seq<Slice<K>>, total: nat)
    requires total > 0
    ensures PercentSum(slices, total) == Percentage(SliceTotal(slices).count, total)
  {
    if slices != [] {
      var init := slices[..|slices| - 1];
      PercentSumIsShare(init, total);
      SharesAdd(SliceTotal(init).count, slices[|slices| - 1].count, total);
    }
  }

  lemma WholeIs100(total: nat)
    requires total > 0
    ensures Percentage(total, total) == 100.0
  {
    var t := total as real;
    assert (t / t) * t == 1.0 * t;
  }

  /** When `total` is the sum of the record counts, the percentages shown in
      the tooltips add up to 100. */
  lemma PercentagesSumTo100<K>(slices: seq<Slice<K>>, total: nat)
    requires total > 0 && total == SliceTotal(slices).count
    ensures PercentSum(slices, total) == 100.0
  {
    PercentSumIsShare(slices, total);
    WholeIs100(total);
  }
}
