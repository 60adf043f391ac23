/** The aggregation loop of evalue_accuracy in utils.py.

    The two loader calls are replaced by their results: a ground-truth map and
    a result map from image identifier to box. Python 2's `result_dict.keys()`
    returns the result identifiers in an unspecified order; the model takes
    that order as a parameter `keys`, any duplicate-free enumeration of the
    result map. The loop visits the first `min(|ground|, |keys|)` result keys,
    skips those missing from the ground truth, collects the IoU of the rest and
    returns their arithmetic mean.
 */
module Accuracy {
  import opened Boxes
  import opened Errors
  import opened Iou

  /** No identifier occurs twice. */
  predicate Distinct(s: seq<string>)
  {
    forall i, j :: 0 <= i < j < |s| ==> s[i] != s[j]
  }

  /** `keys` lists every identifier of `results` exactly once, as `dict.keys()` does. */
  predicate IsKeyOrder(keys: seq<string>, results: map<string, Box>)
    ensures IsKeyOrder(keys, results) <==> Distinct(keys) && Elements(keys) == results.Keys
  {
    && Distinct(keys)
    && (forall k :: k in results ==> k in keys)
    && (forall k :: k in keys ==> k in results)
  }

  /** The keys the loop visits: the first `count = min(len(ground), len(keys))`. */
  function Examined(ground: map<string, Box>, keys: seq<string>): (ex: seq<string>)
    ensures |ex| <= |ground| && |ex| <= |keys|
    ensures |ex| == |ground| || |ex| == |keys|
    ensures forall i :: 0 <= i < |ex| ==> ex[i] == keys[i]
  {
    keys[..Min(|ground|, |keys|)]
  }

  /** The visited keys that also name a ground-truth box, in visiting order. */
  function Matched(ground: map<string, Box>, ks: seq<string>): (m: seq<string>)
    ensures |m| <= |ks|
    ensures forall k :: k in m <==> k in ks && k in ground
    ensures Distinct(ks) ==> Distinct(m)
  {
    if |ks| == 0 then
      []
    else
      var k := ks[|ks| - 1];
      var front := ks[..|ks| - 1];
      assert forall x :: x in ks <==> x in front || x == k;
      Matched(ground, front) + (if k in ground then [k] else [])
  }

  /** `result_IoU` after the loop over `ks`: the IoU of each matched key in
      order, or the first failure of computeIOU. */
  function CollectIous(ground: map<string, Box>, results: map<string, Box>, ks: seq<string>): (res: Result<seq<real>>)
    requires forall k :: k in ks ==> k in results
    ensures res.Ok? ==> |res.value| == |Matched(ground, ks)|
    ensures res.Ok? ==> forall i :: 0 <= i < |res.value| ==> 0.0 <= res.value[i] <= 1.0
    ensures res.Err? ==> res.error == ZeroUnion
  {
    if |ks| == 0 then
      Ok([])
    else
      var k := ks[|ks| - 1];
      var front := ks[..|ks| - 1];
      assert forall x :: x in ks <==> x in front || x == k;
      match CollectIous(ground, results, front)
      case Err(e) => Err(e)
      case Ok(ious) =>
        if k !in ground then
          Ok(ious)
        else
          match ComputeIou(ground[k], results[k])
          case Err(e) => Err(e)
          case Ok(v) => Ok(ious + [v])
  }

  /** `sum(result_IoU)`: the total so far plus the last value. */
  function Sum(s: seq<real>): (r: real)
    ensures (forall i :: 0 <= i < |s| ==> s[i] >= 0.0) ==> r >= 0.0
  {
    if |s| == 0 then 0.0 else Sum(s[..|s| - 1]) + s[|s| - 1]
  }

  /** Python's `sum(s, start)`: start, then each value added in turn. */
  function SumFrom(start: real, s: seq<real>): real
    decreases |s|
  {
    if |s| == 0 then start else SumFrom(start + s[0], s[1..])
  }

  /** The total is the first value plus the total of the rest. */
  lemma {:induction false} SumFirst(s: seq<real>)
    requires |s| > 0
    ensures Sum(s) == s[0] + Sum(s[1..])
  {
    if |s| > 1 {
      var front := s[..|s| - 1];
      assert front[0] == s[0];
      assert front[1..] == s[1..][..|s| - 2];
      SumFirst(front);
    } else {
      assert s[1..] == [];
      assert s[..0] == [];
    }
  }

  /** `Sum` agrees with Python's left-to-right `sum` for any start value. */
  lemma {:induction false} SumIsPythonSum(start: real, s: seq<real>)
    ensures SumFrom(start, s) == start + Sum(s)
    decreases |s|
  {
    if |s| > 0 {
      SumFirst(s);
      SumIsPythonSum(start + s[0], s[1..]);
    }
  }

  /** The sum of n values from [0, 1] lies in [0, n]. */
  lemma {:induction false} SumBounds(s: seq<real>)
    requires forall i :: 0 <= i < |s| ==> 0.0 <= s[i] <= 1.0
    ensures 0.0 <= Sum(s) <= |s| as real
  {
    if |s| > 0 {
      SumBounds(s[..|s| - 1]);
    }
  }

  /** `sum(result_IoU) / len(result_IoU)` on a nonempty list. */
  function Mean(s: seq<real>): (m: real)
    requires |s| > 0
    ensures m * |s| as real == Sum(s)
    ensures (forall i :: 0 <= i < |s| ==> 0.0 <= s[i] <= 1.0) ==> 0.0 <= m <= 1.0
  {
    MeanBounds(s);
    Sum(s) / |s| as real
  }

  /** The mean of values from [0, 1] lies in [0, 1]. */
  lemma MeanBounds(s: seq<real>)
    requires |s| > 0
    ensures (forall i :: 0 <= i < |s| ==> 0.0 <= s[i] <= 1.0) ==> 0.0 <= Sum(s) / |s| as real <= 1.0
  {
    if forall i :: 0 <= i < |s| ==> 0.0 <= s[i] <= 1.0 {
      SumBounds(s);
      DivBounds(Sum(s), |s| as real);
    }
  }

  lemma DivBounds(a: real, n: real)
    requires 0.0 <= a <= n && n > 0.0
    ensures 0.0 <= a / n <= 1.0
  {
    var m := a / n;
    assert m * n == a;
  }

  /** Each collected value is the IoU of the matched key at the same position. */
  lemma {:induction false} CollectedAreIous(ground: map<string, Box>, results: map<string, Box>, ks: seq<string>)
    requires forall k :: k in ks ==> k in results
    requires CollectIous(ground, results, ks).Ok?
    ensures forall i :: 0 <= i < |CollectIous(ground, results, ks).value| ==>
      var k := Matched(ground, ks)[i];
      k in ground && k in results && ComputeIou(ground[k], results[k]) == Ok(CollectIous(ground, results, ks).value[i])
  {
    if |ks| > 0 {
      var front := ks[..|ks| - 1];
      assert forall k :: k in front ==> k in ks;
      assert CollectIous(ground, results, front).Ok?;
      CollectedAreIous(ground, results, front);
    }
  }

  /** Collecting fails exactly when some visited key of the ground truth has
      a failing IoU. */
  lemma {:induction false} CollectFailsIff(ground: map<string, Box>, results: map<string, Box>, ks: seq<string>)
    requires forall k :: k in ks ==> k in results
    ensures CollectIous(ground, results, ks).Err? <==>
      exists k :: k in ks && k in ground && ComputeIou(ground[k], results[k]).Err?
  {
    if |ks| > 0 {
      var front := ks[..|ks| - 1];
      assert forall x :: x in ks <==> x in front || x == ks[|ks| - 1];
      CollectFailsIff(ground, results, front);
    }
  }

  /** The accuracy evalue_accuracy returns: the mean IoU over the matched
      keys among those visited; it fails when a matched pair has an empty
      union, and when no key was matched. */
  function AccuracyOf(ground: map<string, Box>, results: map<string, Box>, keys: seq<string>): (res: Result<real>)
    requires IsKeyOrder(keys, results)
    ensures res.Ok? ==> 0.0 <= res.value <= 1.0
    ensures res.Ok? ==> |Matched(ground, Examined(ground, keys))| > 0
  {
    var ex := Examined(ground, keys);
    match CollectIous(ground, results, ex)
    case Err(e) => Err(e)
    case Ok(ious) =>
      if |ious| == 0 then Err(EmptyEvaluation) else Ok(Mean(ious))
  }

  /** When no key is in the ground truth, nothing is matched. */
  lemma {:induction false} NoneMatched(ground: map<string, Box>, ks: seq<string>)
    requires forall k :: k in ks ==> k !in ground
    ensures Matched(ground, ks) == []
  {
    if |ks| > 0 {
      PrefixKeys(ks, |ks| - 1);
      NoneMatched(ground, ks[..|ks| - 1]);
    }
  }

  /** evalue_accuracy fails on a degenerate union exactly when a visited,
      matched pair has one, and for want of data exactly when no visited key
      is in the ground truth. */
  lemma AccuracyFailures(ground: map<string, Box>, results: map<string, Box>, keys: seq<string>)
    requires IsKeyOrder(keys, results)
    ensures AccuracyOf(ground, results, keys) == Err(ZeroUnion) <==>
      exists k :: k in Examined(ground, keys) && k in ground && ComputeIou(ground[k], results[k]).Err?
    ensures AccuracyOf(ground, results, keys) == Err(EmptyEvaluation) <==>
      forall k :: k in Examined(ground, keys) ==> k !in ground
  {
    var ex := Examined(ground, keys);
    CollectFailsIff(ground, results, ex);
    if forall k :: k in ex ==> k !in ground {
      NoneMatched(ground, ex);
    } else {
      var k :| k in ex && k in ground;
      assert k in Matched(ground, ex);
    }
  }

  /** A failure in a prefix of the visited keys is the failure of the whole loop. */
  lemma {:induction false} ErrPersists(ground: map<string, Box>, results: map<string, Box>, ks: seq<string>, j: nat)
    requires forall k :: k in ks ==> k in results
    requires j <= |ks|
    requires CollectIous(ground, results, ks[..j]).Err?
    ensures CollectIous(ground, results, ks) == CollectIous(ground, results, ks[..j])
    decreases |ks|
  {
    if j == |ks| {
      assert ks[..j] == ks;
    } else {
      var front := ks[..|ks| - 1];
      assert front[..j] == ks[..j];
      ErrPersists(ground, results, front, j);
    }
  }

  /** One more visited key extends the collected list by at most its IoU. */
  lemma CollectStep(ground: map<string, Box>, results: map<string, Box>, ks: seq<string>, i: nat)
    requires forall k :: k in ks ==> k in results
    requires i < |ks|
    requires CollectIous(ground, results, ks[..i]).Ok?
    ensures ks[i] !in ground ==>
      CollectIous(ground, results, ks[..i + 1]) == CollectIous(ground, results, ks[..i])
    ensures ks[i] in ground && ComputeIou(ground[ks[i]], results[ks[i]]).Ok? ==>
      CollectIous(ground, results, ks[..i + 1])
        == Ok(CollectIous(ground, results, ks[..i]).value + [ComputeIou(ground[ks[i]], results[ks[i]]).value])
    ensures ks[i] in ground && ComputeIou(ground[ks[i]], results[ks[i]]).Err? ==>
      CollectIous(ground, results, ks[..i + 1]).Err?
  {
    assert ks[..i + 1][..i] == ks[..i];
  }

  /** The loop of evalue_accuracy, lines 181-193. */
  method EvaluateAccuracy(ground: map<string, Box>, results: map<string, Box>, keys: seq<string>)
    returns (res: Result<real>)
    requires IsKeyOrder(keys, results)
    ensures res == AccuracyOf(ground, results, keys)
  {
    var ious: seq<real> := [];
    var count := Min(|ground|, |keys|);
    ghost var ex := keys[..count];
    var i := 0;
    while i < count
      invariant 0 <= i <= count
      invariant CollectIous(ground, results, ex[..i]) == Ok(ious)
    {
      var key := keys[i];
      CollectStep(ground, results, ex, i);
      if key in ground {
        var iou := ComputeIou(ground[key], results[key]);
        if iou.Err? {
          ErrPersists(ground, results, ex, i + 1);
          return Err(iou.error);
        }
        ious := ious + [iou.value];
      }
      i := i + 1;
    }
    assert ex[..count] == ex;
    if |ious| == 0 {
      return Err(EmptyEvaluation);
    }
    res := Ok(Sum(ious) / |ious| as real);
  }

  // ---------------------------------------------------------------------
  // Properties of the aggregation

  /** The identifiers listed in a sequence. */
  ghost function Elements(s: seq<string>): set<string>
  {
    set k | k in s
  }

  /** A duplicate-free sequence lists as many identifiers as it has entries. */
  lemma {:induction false} DistinctElementsCard(s: seq<string>)
    requires Distinct(s)
    ensures |Elements(s)| == |s|
  {
    if |s| > 0 {
      var front := s[..|s| - 1];
      assert Elements(s) == Elements(front) + {s[|s| - 1]};
      assert s[|s| - 1] !in Elements(front);
      DistinctElementsCard(front);
    }
  }

  /** A duplicate-free sequence drawn from a set is no longer than the set. */
  lemma DistinctWithin(s: seq<string>, within: set<string>)
    requires Distinct(s)
    requires forall k :: k in s ==> k in within
    ensures |s| <= |within|
  {
    DistinctElementsCard(s);
    SubsetCard(Elements(s), within);
  }

  /** `len(result_dict.keys()) == len(result_dict)`. */
  lemma KeyOrderLength(keys: seq<string>, results: map<string, Box>)
    requires IsKeyOrder(keys, results)
    ensures |keys| == |results|
  {
    DistinctElementsCard(keys);
    assert Elements(keys) == results.Keys;
  }

  /** The loop visits exactly the first min(|ground|, |results|) result keys,
      keeps those the ground truth knows, and so collects at most that many
      IoUs and at most one per shared identifier. */
  lemma CollectedCountBound(ground: map<string, Box>, results: map<string, Box>, keys: seq<string>)
    requires IsKeyOrder(keys, results)
    ensures |Examined(ground, keys)| == Min(|ground|, |results|)
    ensures forall k :: k in Matched(ground, Examined(ground, keys)) <==>
      k in ground && k in keys[..Min(|ground|, |results|)]
    ensures |Matched(ground, Examined(ground, keys))| <= Min(|ground|, |results|)
    ensures |Matched(ground, Examined(ground, keys))| <= |ground.Keys * results.Keys|
  {
    KeyOrderLength(keys, results);
    var ex := Examined(ground, keys);
    assert Distinct(ex);
    forall k | k in ex ensures k in keys {
    }
    DistinctWithin(Matched(ground, ex), ground.Keys * results.Keys);
  }

  /** When the result map is no larger than the ground truth, nothing is cut
      off: every shared identifier is matched. This is the situation the
      source's docstring asks for, ground truth and results sharing all
      file names. */
  lemma NoTruncationWhenResultsFit(ground: map<string, Box>, results: map<string, Box>, keys: seq<string>)
    requires IsKeyOrder(keys, results)
    requires |results| <= |ground|
    ensures Examined(ground, keys) == keys
    ensures forall k :: k in Matched(ground, Examined(ground, keys)) <==> k in ground && k in results
  {
    KeyOrderLength(keys, results);
    assert keys[..|keys|] == keys;
  }

  /** Worked example of the cap: with one ground-truth box and two results,
      only the first result key is visited, so a shared identifier listed
      second is never scored, and the outcome depends on the key order. */
  lemma TruncationExample()
    ensures var b := Box(0, 0, 10, 10);
      var ground := map["b" := b];
      var results := map["a" := b, "b" := b];
      && AccuracyOf(ground, results, ["a", "b"]) == Err(EmptyEvaluation)
      && AccuracyOf(ground, results, ["b", "a"]) == Ok(1.0)
  {
    var b := Box(0, 0, 10, 10);
    var ground := map["b" := b];
    var results := map["a" := b, "b" := b];
    assert IsKeyOrder(["a", "b"], results);
    assert IsKeyOrder(["b", "a"], results);
    assert Examined(ground, ["a", "b"]) == ["a"];
    assert Examined(ground, ["b", "a"]) == ["b"];
    SelfIou(b);
  }

  /** With an empty map on either side nothing is collected, and the final
      division fails. */
  lemma EmptyInputFails(ground: map<string, Box>, results: map<string, Box>, keys: seq<string>)
    requires IsKeyOrder(keys, results)
    requires |ground| == 0 || |results| == 0
    ensures AccuracyOf(ground, results, keys) == Err(EmptyEvaluation)
  {
    CollectedCountBound(ground, results, keys);
    AccuracyFailures(ground, results, keys);
  }

  /** With no identifier in common nothing is collected, and the final
      division fails. */
  lemma NoSharedKeyFails(ground: map<string, Box>, results: map<string, Box>, keys: seq<string>)
    requires IsKeyOrder(keys, results)
    requires ground.Keys !! results.Keys
    ensures AccuracyOf(ground, results, keys) == Err(EmptyEvaluation)
  {
    AccuracyFailures(ground, results, keys);
    forall k | k in Examined(ground, keys) ensures k !in ground {
      assert k in keys;
    }
  }

  /** When every box has positive area no IoU fails, so the evaluation fails
      only for want of a match, and otherwise yields a mean in [0, 1]. */
  lemma PositiveAreasAccuracy(ground: map<string, Box>, results: map<string, Box>, keys: seq<string>)
    requires IsKeyOrder(keys, results)
    requires forall k :: k in ground ==> BoxArea(ground[k]) > 0
    requires forall k :: k in results ==> BoxArea(results[k]) > 0
    ensures AccuracyOf(ground, results, keys) != Err(ZeroUnion)
    ensures AccuracyOf(ground, results, keys).Ok? <==> |Matched(ground, Examined(ground, keys))| > 0
    ensures AccuracyOf(ground, results, keys).Ok? ==> 0.0 <= AccuracyOf(ground, results, keys).value <= 1.0
  {
    AccuracyFailures(ground, results, keys);
    var m := Matched(ground, Examined(ground, keys));
    if |m| > 0 {
      assert m[0] in m;
    }
  }

  // ---------------------------------------------------------------------
  // Independence from the key order

  /** The IoU of one shared identifier, 0 when it fails. */
  function IouValue(ground: map<string, Box>, results: map<string, Box>, k: string): real
    requires k in ground && k in results
  {
    match ComputeIou(ground[k], results[k])
    case Ok(v) => v
    case Err(_) => 0.0
  }

  /** The IoUs of a sequence of shared identifiers, added in order. */
  function KeySum(ground: map<string, Box>, results: map<string, Box>, ks: seq<string>): real
    requires forall k :: k in ks ==> k in ground && k in results
  {
    if |ks| == 0 then 0.0
    else KeySum(ground, results, ks[..|ks| - 1]) + IouValue(ground, results, ks[|ks| - 1])
  }

  /** The IoUs of a set of shared identifiers, added in no particular order. */
  ghost function SetSum(ground: map<string, Box>, results: map<string, Box>, keys: set<string>): real
    requires forall k :: k in keys ==> k in ground && k in results
    decreases |keys|
  {
    if keys == {} then 0.0
    else
      var k :| k in keys;
      IouValue(ground, results, k) + SetSum(ground, results, keys - {k})
  }

  /** Any identifier may be taken out of a set sum first. */
  lemma {:induction false} SetSumRemove(ground: map<string, Box>, results: map<string, Box>, keys: set<string>, y: string)
    requires forall k :: k in keys ==> k in ground && k in results
    requires y in keys
    ensures SetSum(ground, results, keys) == IouValue(ground, results, y) + SetSum(ground, results, keys - {y})
    decreases |keys|
  {
    var x :| x in keys && SetSum(ground, results, keys)
      == IouValue(ground, results, x) + SetSum(ground, results, keys - {x});
    if x != y {
      SetSumRemove(ground, results, keys - {x}, y);
      SetSumRemove(ground, results, keys - {y}, x);
      assert keys - {x} - {y} == keys - {y} - {x};
    }
  }

  /** Adding the IoUs of distinct identifiers in sequence order gives the set sum. */
  lemma {:induction false} KeySumIsSetSum(ground: map<string, Box>, results: map<string, Box>, ks: seq<string>)
    requires forall k :: k in ks ==> k in ground && k in results
    requires Distinct(ks)
    ensures KeySum(ground, results, ks) == SetSum(ground, results, Elements(ks))
  {
    if |ks| > 0 {
      var front := ks[..|ks| - 1];
      var y := ks[|ks| - 1];
      assert forall k :: k in front ==> k in ks;
      assert Elements(ks) - {y} == Elements(front);
      SetSumRemove(ground, results, Elements(ks), y);
      KeySumIsSetSum(ground, results, front);
    }
  }

  lemma SumSnoc(s: seq<real>, v: real)
    ensures Sum(s + [v]) == Sum(s) + v
  {
    assert (s + [v])[..|s|] == s;
  }

  lemma KeySumSnoc(ground: map<string, Box>, results: map<string, Box>, ks: seq<string>, y: string)
    requires forall k :: k in ks ==> k in ground && k in results
    requires y in ground && y in results
    ensures KeySum(ground, results, ks + [y]) == KeySum(ground, results, ks) + IouValue(ground, results, y)
  {
    assert (ks + [y])[..|ks|] == ks;
  }

  /** A loop that finishes without failure did not fail one key earlier. */
  lemma OkPrefix(ground: map<string, Box>, results: map<string, Box>, ks: seq<string>)
    requires forall k :: k in ks ==> k in results
    requires |ks| > 0
    requires CollectIous(ground, results, ks).Ok?
    ensures CollectIous(ground, results, ks[..|ks| - 1]).Ok?
  {
  }

  /** A key of a prefix is a key of the whole sequence. */
  lemma PrefixKeys(ks: seq<string>, i: nat)
    requires i <= |ks|
    ensures forall k :: k in ks[..i] ==> k in ks
  {
  }

  /** The inductive step of SumOfCollected: one more visited key adds its
      IoU to both sides, or nothing to either. */
  lemma SumOfCollectedStep(ground: map<string, Box>, results: map<string, Box>, ks: seq<string>)
    requires forall k :: k in ks ==> k in results
    requires |ks| > 0
    requires CollectIous(ground, results, ks[..|ks| - 1]).Ok?
    requires CollectIous(ground, results, ks).Ok?
    requires Sum(CollectIous(ground, results, ks[..|ks| - 1]).value)
          == KeySum(ground, results, Matched(ground, ks[..|ks| - 1]))
    ensures Sum(CollectIous(ground, results, ks).value) == KeySum(ground, results, Matched(ground, ks))
  {
    var i := |ks| - 1;
    assert ks[..i + 1] == ks;
    CollectStep(ground, results, ks, i);
    if ks[i] in ground {
      SumOfCollectedMatch(ground, results, ks);
    } else {
      assert Matched(ground, ks) == Matched(ground, ks[..i]);
    }
  }

  /** SumOfCollectedStep when the last visited key is matched. */
  lemma SumOfCollectedMatch(ground: map<string, Box>, results: map<string, Box>, ks: seq<string>)
    requires forall k :: k in ks ==> k in results
    requires |ks| > 0 && ks[|ks| - 1] in ground
    requires CollectIous(ground, results, ks[..|ks| - 1]).Ok?
    requires CollectIous(ground, results, ks).Ok?
    requires Sum(CollectIous(ground, results, ks[..|ks| - 1]).value)
          == KeySum(ground, results, Matched(ground, ks[..|ks| - 1]))
    ensures Sum(CollectIous(ground, results, ks).value) == KeySum(ground, results, Matched(ground, ks))
  {
    var i := |ks| - 1;
    var y := ks[i];
    var prev := CollectIous(ground, results, ks[..i]).value;
    var m := Matched(ground, ks[..i]);
    var v := IouValue(ground, results, y);
    assert CollectIous(ground, results, ks) == Ok(prev + [v]);
    assert Matched(ground, ks) == m + [y];
    SumSnoc(prev, v);
    KeySumSnoc(ground, results, m, y);
  }

  /** `sum(result_IoU)` is the sum of the IoUs of the matched identifiers. */
  lemma {:induction false} SumOfCollected(ground: map<string, Box>, results: map<string, Box>, ks: seq<string>)
    requires forall k :: k in ks ==> k in results
    requires CollectIous(ground, results, ks).Ok?
    ensures Sum(CollectIous(ground, results, ks).value) == KeySum(ground, results, Matched(ground, ks))
  {
    if |ks| > 0 {
      var front := ks[..|ks| - 1];
      PrefixKeys(ks, |ks| - 1);
      OkPrefix(ground, results, ks);
      SumOfCollected(ground, results, front);
      SumOfCollectedStep(ground, results, ks);
    } else {
      assert CollectIous(ground, results, ks) == Ok([]);
      assert Matched(ground, ks) == [];
    }
  }

  /** The accuracy is the arithmetic mean of the IoUs of the matched keys. */
  lemma AccuracyIsMeanIou(ground: map<string, Box>, results: map<string, Box>, keys: seq<string>)
    requires IsKeyOrder(keys, results)
    requires AccuracyOf(ground, results, keys).Ok?
    ensures var m := Matched(ground, Examined(ground, keys));
      |m| > 0 && AccuracyOf(ground, results, keys).value == KeySum(ground, results, m) / |m| as real
  {
    var ex := Examined(ground, keys);
    var c := CollectIous(ground, results, ex);
    assert c.Ok? && |c.value| > 0;
    assert AccuracyOf(ground, results, keys) == Ok(Sum(c.value) / |c.value| as real);
    SumOfCollected(ground, results, ex);
  }

  /** When the result map is no larger than the ground truth, the accuracy
      does not depend on the order in which the result keys are listed. */
  lemma AccuracyIndependentOfKeyOrder(ground: map<string, Box>, results: map<string, Box>,
                                      keys1: seq<string>, keys2: seq<string>)
    requires IsKeyOrder(keys1, results) && IsKeyOrder(keys2, results)
    requires |results| <= |ground|
    ensures AccuracyOf(ground, results, keys1) == AccuracyOf(ground, results, keys2)
  {
    NoTruncationWhenResultsFit(ground, results, keys1);
    NoTruncationWhenResultsFit(ground, results, keys2);
    var c1 := CollectIous(ground, results, keys1);
    var c2 := CollectIous(ground, results, keys2);
    assert c1.Err? <==> c2.Err? by {
      CollectFailsIff(ground, results, keys1);
      CollectFailsIff(ground, results, keys2);
      assert forall k :: k in keys1 <==> k in keys2;
    }
    if c1.Ok? {
      var m1 := Matched(ground, keys1);
      var m2 := Matched(ground, keys2);
      assert Elements(m1) == Elements(m2);
      DistinctElementsCard(m1);
      DistinctElementsCard(m2);
      SumOfCollected(ground, results, keys1);
      SumOfCollected(ground, results, keys2);
      KeySumIsSetSum(ground, results, m1);
      KeySumIsSetSum(ground, results, m2);
    }
  }

  const ExampleGround := map["a" := Box(0, 0, 10, 10), "b" := Box(0, 0, 5, 5)]
  const ExampleResults := map["a" := Box(0, 0, 10, 10), "b" := Box(0, 0, 10, 10)]

  /** A 5x5 box inside a 10x10 box covers 25 of its 100 cells. */
  lemma ContainedBoxExample()
    ensures ComputeIou(Box(0, 0, 5, 5), Box(0, 0, 10, 10)) == Ok(0.25)
  {
  }

  lemma ExampleFirstStep()
    ensures CollectIous(ExampleGround, ExampleResults, ["a", "b"][..1]) == Ok([1.0])
  {
    var ks := ["a", "b"];
    assert ks[0] == "a";
    assert ks[..0] == [];
    SelfIou(Box(0, 0, 10, 10));
    CollectStep(ExampleGround, ExampleResults, ks, 0);
    assert [] + [1.0] == [1.0];
  }

  /** On the worked example the loop collects the IoUs 1 and 0.25, in key order. */
  lemma ExampleCollected()
    ensures CollectIous(ExampleGround, ExampleResults, ["a", "b"]) == Ok([1.0, 0.25])
  {
    var ks := ["a", "b"];
    assert ks[1] == "b";
    ExampleFirstStep();
    ContainedBoxExample();
    CollectStep(ExampleGround, ExampleResults, ks, 1);
    assert ks[..2] == ks;
    assert [1.0] + [0.25] == [1.0, 0.25];
  }

  /** Worked example: identical boxes score 1, a 5x5 box inside a 10x10 box
      scores 0.25, and the accuracy is their mean 0.625. */
  lemma AggregationExample()
    ensures AccuracyOf(ExampleGround, ExampleResults, ["a", "b"]) == Ok(0.625)
  {
    assert IsKeyOrder(["a", "b"], ExampleResults);
    assert Examined(ExampleGround, ["a", "b"]) == ["a", "b"];
    ExampleCollected();
    ExampleSum();
  }

  lemma ExampleSum()
    ensures Sum([1.0, 0.25]) == 1.25
  {
    assert [1.0, 0.25][..1] == [1.0];
    assert [1.0][..0] == [];
  }

}
