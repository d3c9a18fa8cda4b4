/** The drill-down pages' `for (let key in counts)` loop, which moves every
    neighbourhood with fewer than 50 listings into a synthetic "Other" key.
    The loop visits the keys present when it starts; "Other", added by the
    loop itself, is not visited. */
module OtherBucket {
  import opened Tallies

  const Other := "Other"
  const SmallGroupLimit: nat := 50

  /** The keys among `done` that the fold moves into "Other". */
  function SmallKeys(m: map<string, Bucket>, done: set<string>): set<string>
  {
    set k | k in done && k in m && k != Other && m[k].count < SmallGroupLimit
  }

  /** The dictionaries once the loop has visited exactly the keys in `done`,
      in whatever order: each small key among them is gone, and its count and
      price sum have been added to "Other" (0 when "Other" was absent). */
  ghost function FoldKeys(m: map<string, Bucket>, done: set<string>): map<string, Bucket>
  {
    var small := SmallKeys(m, done);
    if small == {} then m
    else (m - small)[Other := Plus(Get(m, Other), Total(Restrict(m, small)))]
  }

  /** The dictionaries after the whole loop. */
  ghost function Folded(m: map<string, Bucket>): map<string, Bucket>
  {
    FoldKeys(m, m.Keys)
  }

  /** One iteration of the loop body, never folding "Other" into itself. */
  function FoldStep(m: map<string, Bucket>, key: string): map<string, Bucket>
  {
    if key != Other && key in m && m[key].count < SmallGroupLimit
    then m[Other := Plus(Get(m, Other), m[key])] - {key}
    else m
  }

  lemma NothingSmall(m: map<string, Bucket>, done: set<string>)
    requires SmallKeys(m, done) == {}
    ensures FoldKeys(m, done) == m
    ensures Total(Restrict(m, SmallKeys(m, done))) == Empty
  {
    assert Restrict(m, SmallKeys(m, done)) == map[];
  }

  lemma FoldKeysOther(m: map<string, Bucket>, done: set<string>)
    ensures Get(FoldKeys(m, done), Other) == Plus(Get(m, Other), Total(Restrict(m, SmallKeys(m, done))))
  {
    var small := SmallKeys(m, done);
    var v := Plus(Get(m, Other), Total(Restrict(m, small)));
    if small == {} {
      NothingSmall(m, done);
      PlusEmpty(Get(m, Other));
    } else {
      var r := (m - small)[Other := v];
      assert FoldKeys(m, done) == r;
      assert Get(r, Other) == v;
    }
  }

  lemma FoldKeysUntouched(m: map<string, Bucket>, done: set<string>, k: string)
    requires k != Other && k !in SmallKeys(m, done)
    ensures k in FoldKeys(m, done) <==> k in m
    ensures k in m ==> FoldKeys(m, done)[k] == m[k]
  {
  }

  lemma FoldKeysGrowSmall(m: map<string, Bucket>, done: set<string>, key: string)
    requires key in m && key != Other && m[key].count < SmallGroupLimit && key !in done
    ensures SmallKeys(m, done + {key}) == SmallKeys(m, done) + {key}
    ensures Total(Restrict(m, SmallKeys(m, done + {key})))
         == Plus(m[key], Total(Restrict(m, SmallKeys(m, done))))
  {
    var small, small' := SmallKeys(m, done), SmallKeys(m, done + {key});
    forall k
      ensures k in small' <==> k in small + {key}
    {
    }
    assert small' == small + {key};
    var grown := Restrict(m, small');
    assert key in grown && grown[key] == m[key];
    TotalWithout(grown, key);
    assert (grown - {key}).Keys == Restrict(m, small).Keys;
    assert grown - {key} == Restrict(m, small);
  }

  /** The loop body on a small key when nothing has been folded yet. */
  lemma FoldStepFirstSmall(m: map<string, Bucket>, key: string)
    requires key in m && key != Other && m[key].count < SmallGroupLimit
    ensures FoldStep(m, key) == (m - {key})[Other := Plus(Get(m, Other), m[key])]
  {
    var v' := Plus(Get(m, Other), m[key]);
    assert FoldStep(m, key) == m[Other := v'] - {key};
    assert m[Other := v'] - {key} == (m - {key})[Other := v'];
  }

  /** The loop body on a small key once the keys in `small` are folded. */
  lemma FoldStepNextSmall(m: map<string, Bucket>, small: set<string>, key: string, t: Bucket)
    requires key in m && key != Other && key !in small && m[key].count < SmallGroupLimit
    ensures var state := (m - small)[Other := Plus(Get(m, Other), t)];
      FoldStep(state, key) == (m - (small + {key}))[Other := Plus(Get(m, Other), Plus(m[key], t))]
  {
    var state := (m - small)[Other := Plus(Get(m, Other), t)];
    var v' := Plus(Get(m, Other), Plus(m[key], t));
    assert FoldStep(state, key) == state[Other := v'] - {key};
    assert state[Other := v'] - {key} == (m - (small + {key}))[Other := v'];
  }

  lemma FoldKeysStepSmall(m: map<string, Bucket>, done: set<string>, key: string)
    requires key in m && key != Other && m[key].count < SmallGroupLimit && key !in done
    ensures FoldKeys(m, done + {key}) == FoldStep(FoldKeys(m, done), key)
  {
    var small := SmallKeys(m, done);
    FoldKeysGrowSmall(m, done, key);
    if small == {} {
      NothingSmall(m, done);
      FoldStepFirstSmall(m, key);
      assert small + {key} == {key};
    } else {
      FoldStepNextSmall(m, small, key, Total(Restrict(m, small)));
    }
  }

  /** Visiting one more key is one more iteration of the loop body. */
  lemma FoldKeysStep(m: map<string, Bucket>, done: set<string>, key: string)
    requires key in m && key !in done
    ensures key != Other ==> key in FoldKeys(m, done) && FoldKeys(m, done)[key] == m[key]
    ensures FoldKeys(m, done + {key}) == FoldStep(FoldKeys(m, done), key)
  {
    if key != Other {
      FoldKeysUntouched(m, done, key);
    }
    if key != Other && m[key].count < SmallGroupLimit {
      FoldKeysStepSmall(m, done, key);
    } else {
      assert SmallKeys(m, done + {key}) == SmallKeys(m, done);
    }
  }

  /** The fold loop. Keys are taken from a snapshot of `tally` in an arbitrary
      order, so the ensures clause also says the result does not depend on the
      order in which the keys are visited. */
  method FoldSmallGroups(tally: map<string, Bucket>) returns (folded: map<string, Bucket>)
    ensures folded == Folded(tally)
  {
    folded := tally;
    var pending := tally.Keys;
    while pending != {}
      invariant pending <= tally.Keys
      invariant folded == FoldKeys(tally, tally.Keys - pending)
      decreases |pending|
    {
      var key :| key in pending;
      FoldKeysStep(tally, tally.Keys - pending, key);
      assert tally.Keys - (pending - {key}) == (tally.Keys - pending) + {key};
      if key != Other && folded[key].count < SmallGroupLimit {
        folded := folded[Other := Plus(Get(folded, Other), folded[key])];
        folded := folded - {key};
      }
      pending := pending - {key};
    }
    assert tally.Keys - pending == tally.Keys;
  }

  lemma FoldStepMapFacts(s: map<string, Bucket>, key: string, v: Bucket)
    requires key != Other
    ensures s[Other := v] - {key} - {Other} == s - {key} - {Other}
    ensures Get(s - {key}, Other) == Get(s, Other)
    ensures Get(s[Other := v] - {key}, Other) == v
  {
    assert Other in s[Other := v] - {key};
    assert s[Other := v] - {key} - {Other} == s - {key} - {Other};
  }

  lemma PlusRegroup(a: Bucket, b: Bucket, rest: Bucket, before: Bucket, after: Bucket, mid: Bucket)
    requires before == Plus(a, mid) && mid == Plus(b, rest)
    requires after == Plus(Plus(b, a), rest)
    ensures after == before
  {
  }

  lemma FoldStepKeepsTotalSmall(s: map<string, Bucket>, key: string)
    requires key != Other && key in s && s[key].count < SmallGroupLimit
    ensures Total(FoldStep(s, key)) == Total(s)
  {
    var v := Plus(Get(s, Other), s[key]);
    var s' := s[Other := v] - {key};
    assert FoldStep(s, key) == s';
    FoldStepMapFacts(s, key, v);
    TotalWithout(s, key);
    TotalWithout(s - {key}, Other);
    TotalWithout(s', Other);
    PlusRegroup(s[key], Get(s, Other), Total(s - {key} - {Other}), Total(s), Total(s'), Total(s - {key}));
  }

  /** One iteration moves a count and a price sum from one key to another, so
      the sum over all keys stays the same. */
  lemma FoldStepKeepsTotal(s: map<string, Bucket>, key: string)
    ensures Total(FoldStep(s, key)) == Total(s)
  {
    if key != Other && key in s && s[key].count < SmallGroupLimit {
      FoldStepKeepsTotalSmall(s, key);
    }
  }

  lemma {:induction false} FoldKeysKeepTotal(m: map<string, Bucket>, done: set<string>)
    requires done <= m.Keys
    ensures Total(FoldKeys(m, done)) == Total(m)
    decreases |done|
  {
    if done == {} {
      NothingSmall(m, done);
    } else {
      var k :| k in done;
      var before := done - {k};
      assert before + {k} == done;
      FoldKeysStep(m, before, k);
      FoldKeysKeepTotal(m, before);
      FoldStepKeepsTotal(FoldKeys(m, before), k);
    }
  }

  /** Folding conserves the total listing count and the total price over all
      keys: small groups are merged, never dropped. */
  lemma FoldedKeepsTotal(m: map<string, Bucket>)
    ensures Total(Folded(m)) == Total(m)
  {
    FoldKeysKeepTotal(m, m.Keys);
  }

  /** After the fold, every key other than "Other" is one that was already
      there with at least 50 listings, and keeps its count and price sum. */
  lemma FoldedKeepsLarge(m: map<string, Bucket>)
    ensures forall k :: k in Folded(m) && k != Other ==>
      k in m && Folded(m)[k] == m[k] && m[k].count >= SmallGroupLimit
    ensures forall k :: k in m && k != Other ==> (k in Folded(m) <==> m[k].count >= SmallGroupLimit)
  {
    forall k | k != Other && k !in SmallKeys(m, m.Keys)
      ensures k in Folded(m) <==> k in m
      ensures k in m ==> Folded(m)[k] == m[k]
    {
      FoldKeysUntouched(m, m.Keys, k);
    }
    forall k | k in Folded(m) && k != Other
      ensures k !in SmallKeys(m, m.Keys)
    {
    }
  }

  /** After the fold, "Other" holds its previous value (nothing when absent)
      plus the counts and price sums of all small keys, and it is present
      exactly when it was before or some key was small. */
  lemma FoldedOther(m: map<string, Bucket>)
    ensures Get(Folded(m), Other) == Plus(Get(m, Other), Total(Restrict(m, SmallKeys(m, m.Keys))))
    ensures Other in Folded(m) <==> Other in m || SmallKeys(m, m.Keys) != {}
  {
    FoldKeysOther(m, m.Keys);
  }

  lemma TotalPositive(m: map<string, Bucket>)
    requires m != map[]
    requires forall k :: k in m ==> m[k].count >= 1
    ensures Total(m).count >= 1
  {
    TotalWithout(m, Pick(m));
  }

  /** If every key was counted at least once, so is every key after the fold. */
  lemma FoldedPositive(m: map<string, Bucket>)
    requires forall k :: k in m ==> m[k].count >= 1
    ensures forall k :: k in Folded(m) ==> Folded(m)[k].count >= 1
  {
    FoldedKeepsLarge(m);
    FoldedOther(m);
    var small := SmallKeys(m, m.Keys);
    if small != {} {
      var k :| k in small;
      assert k in Restrict(m, small);
      TotalPositive(Restrict(m, small));
    }
  }

  /** The loop body exactly as the pages write it: nothing keeps the key
      "Other" itself from being folded, which adds its count and price sum to
      themselves and then deletes the key. */
  function FoldStepAsWritten(m: map<string, Bucket>, key: string): (r: map<string, Bucket>)
    ensures r.Keys <= m.Keys + {Other}
    ensures key == Other && key in m && m[key].count < SmallGroupLimit ==> Other !in r
  {
    if key in m && m[key].count < SmallGroupLimit
    then m[Other := Plus(Get(m, Other), m[key])] - {key}
    else m
  }

  /** The loop as written, visiting the snapshot keys in the order `keys`. */
  function FoldAsWritten(m: map<string, Bucket>, keys: seq<string>): (r: map<string, Bucket>)
    ensures r.Keys <= m.Keys + {Other}
    decreases |keys|
  {
    if keys == [] then m else FoldAsWritten(FoldStepAsWritten(m, keys[0]), keys[1..])
  }

  /** A neighbourhood really named "Other" with 3 listings: the corrected fold
      leaves it alone, the loop as written deletes it and its 3 listings. */
  lemma SmallOtherNeighbourhoodIsLost()
    ensures var m := map[Other := Bucket(3, 300.0)];
      FoldAsWritten(m, [Other]) == map[] && Folded(m) == m && Total(m).count == 3
  {
    var m := map[Other := Bucket(3, 300.0)];
    var doubled := m[Other := Bucket(6, 600.0)];
    assert FoldStepAsWritten(m, Other) == doubled - {Other};
    assert doubled - {Other} == map[];
    assert SmallKeys(m, m.Keys) == {};
    NothingSmall(m, m.Keys);
    TotalWithout(m, Other);
    assert m - {Other} == map[];
  }

  /** Two keys: a neighbourhood really named "Other" with 40 listings and one
      named "A" with 20. */
  function OrderExample(): map<string, Bucket>
  {
    map[Other := Bucket(40, 0.0), "A" := Bucket(20, 0.0)]
  }

  /** Visiting "Other" first deletes it before "A" joins it. */
  lemma OtherVisitedFirst()
    ensures FoldAsWritten(OrderExample(), [Other, "A"]) == map[Other := Bucket(20, 0.0)]
  {
    var onlyA := map["A" := Bucket(20, 0.0)];
    OtherFirstStep();
    assert [Other, "A"][1..] == ["A"];
    assert FoldAsWritten(OrderExample(), [Other, "A"]) == FoldAsWritten(onlyA, ["A"]);
    ASecondStep();
    assert ["A"][1..] == [];
  }

  lemma OtherFirstStep()
    ensures FoldStepAsWritten(OrderExample(), Other) == map["A" := Bucket(20, 0.0)]
  {
    var m := OrderExample();
    assert m[Other := Bucket(80, 0.0)] - {Other} == map["A" := Bucket(20, 0.0)];
  }

  lemma ASecondStep()
    ensures FoldStepAsWritten(map["A" := Bucket(20, 0.0)], "A") == map[Other := Bucket(20, 0.0)]
  {
    var m := map["A" := Bucket(20, 0.0)];
    assert m[Other := Bucket(20, 0.0)] - {"A"} == map[Other := Bucket(20, 0.0)];
  }

  /** Visiting "A" first brings "Other" to 60, so it is then kept. */
  lemma OtherVisitedLast()
    ensures FoldAsWritten(OrderExample(), ["A", Other]) == map[Other := Bucket(60, 0.0)]
  {
    var sixty := map[Other := Bucket(60, 0.0)];
    AFirstStep();
    assert ["A", Other][1..] == [Other];
    assert FoldAsWritten(OrderExample(), ["A", Other]) == FoldAsWritten(sixty, [Other]);
    assert FoldStepAsWritten(sixty, Other) == sixty;
    assert [Other][1..] == [];
  }

  lemma AFirstStep()
    ensures FoldStepAsWritten(OrderExample(), "A") == map[Other := Bucket(60, 0.0)]
  {
    var m := OrderExample();
    assert m[Other := Bucket(60, 0.0)] - {"A"} == map[Other := Bucket(60, 0.0)];
  }

  /** With a small key named "Other", the loop as written also depends on the
      order of the keys: the same dictionaries end with 20 or with 60 listings
      under "Other". */
  lemma AsWrittenDependsOnOrder()
    ensures FoldAsWritten(OrderExample(), [Other, "A"]) != FoldAsWritten(OrderExample(), ["A", Other])
    ensures FoldAsWritten(OrderExample(), [Other, "A"]) == map[Other := Bucket(20, 0.0)]
    ensures FoldAsWritten(OrderExample(), ["A", Other]) == map[Other := Bucket(60, 0.0)]
  {
    OtherVisitedFirst();
    OtherVisitedLast();
    assert map[Other := Bucket(20, 0.0)][Other] != map[Other := Bucket(60, 0.0)][Other];
  }

  lemma AsWrittenStepAgrees(state: map<string, Bucket>, key: string)
    requires key == Other ==> Get(state, Other).count >= SmallGroupLimit
    ensures FoldStepAsWritten(state, key) == FoldStep(state, key)
  {
  }

  /** A large "Other" stays large however many keys have been folded into it. */
  lemma OtherStaysLarge(m: map<string, Bucket>, done: set<string>)
    requires Other in m && m[Other].count >= SmallGroupLimit
    ensures Get(FoldKeys(m, done), Other).count >= SmallGroupLimit
  {
    FoldKeysOther(m, done);
  }

  lemma RemainingKeys(m: map<string, Bucket>, done: set<string>, keys: seq<string>)
    requires keys != []
    requires forall i, j :: 0 <= i < j < |keys| ==> keys[i] != keys[j]
    requires forall k :: k in keys <==> k in m && k !in done
    ensures keys[0] in m && keys[0] !in done
    ensures forall i, j :: 0 <= i < j < |keys[1..]| ==> keys[1..][i] != keys[1..][j]
    ensures forall k :: k in keys[1..] <==> k in m && k !in done + {keys[0]}
  {
    assert keys[0] in keys;
    assert forall i :: 0 < i < |keys| ==> keys[i] != keys[0];
    assert keys == [keys[0]] + keys[1..];
  }

  lemma {:induction false} FoldAsWrittenFrom(m: map<string, Bucket>, done: set<string>, keys: seq<string>)
    requires done <= m.Keys
    requires forall i, j :: 0 <= i < j < |keys| ==> keys[i] != keys[j]
    requires forall k :: k in keys <==> k in m && k !in done
    requires Other in m ==> m[Other].count >= SmallGroupLimit
    ensures FoldAsWritten(FoldKeys(m, done), keys) == Folded(m)
    decreases |keys|
  {
    if keys == [] {
      assert done == m.Keys;
    } else {
      var key := keys[0];
      RemainingKeys(m, done, keys);
      if key == Other {
        OtherStaysLarge(m, done);
      }
      AsWrittenStepAgrees(FoldKeys(m, done), key);
      FoldKeysStep(m, done, key);
      FoldAsWrittenFrom(m, done + {key}, keys[1..]);
    }
  }

  /** When there is no neighbourhood named "Other", or it is not small, the
      loop as written gives the corrected result whatever the visiting order. */
  lemma FoldAsWrittenAgrees(m: map<string, Bucket>, keys: seq<string>)
    requires forall i, j :: 0 <= i < j < |keys| ==> keys[i] != keys[j]
    requires forall k :: k in keys <==> k in m
    requires Other in m ==> m[Other].count >= SmallGroupLimit
    ensures FoldAsWritten(m, keys) == Folded(m)
  {
    NothingSmall(m, {});
    FoldAsWrittenFrom(m, {}, keys);
  }
}
