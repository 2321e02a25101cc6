/** `MetricsUtil.CalculateMetrics` (AnomalyDetection/MetricsUtil.cs): the
    confusion-matrix counts of a one-class classifier on the samples of
    normal frames and, optionally, of frames holding anomalies; the frames
    with at least one false positive; and per anomaly id whether any of
    its samples was detected. Label 1 means normal rope, 0 anomaly. */
module MetricsUtil {
  import opened Common
  import opened StringOrder

  datatype Outcome = TruePositive | TrueNegative | FalsePositive | FalseNegative | Uncounted

  /** `yAnomaly`, `yAnomalyPredicted`, `anomalyIdToYAnomalyIndices` and
      `yAnomalyUnclearIndices`, which the source uses only when all four
      are non-null. */
  datatype AnomalyInputs = AnomalyInputs(yAnomaly: seq<int>, yAnomalyPredicted: seq<int>,
                                         idToIndices: map<string, set<int>>, unclearIndices: set<int>)

  /** The integer fields of `Metrics`; `-1` and `None` are the defaults of
      the optional constructor arguments. */
  datatype Metrics = Metrics(tp: nat, tn: nat, fp: nat, fn: nat, nFramesWithFps: nat, nFrames: int,
                             tpAnomalyLevel: int, fnAnomalyLevel: int, missedAnomalies: Option<string>)

  /** `nSamplesPerFrame == 0` makes the frame count throw
      `DivideByZeroException`. */
  datatype MetricsError = DivideByZero

  /** `Enumerable.Zip` stops at the shorter sequence. */
  function Pairs(a: AnomalyInputs): nat
  {
    if |a.yAnomaly| <= |a.yAnomalyPredicted| then |a.yAnomaly| else |a.yAnomalyPredicted|
  }

  /** A prediction for a sample of a normal frame. */
  function NormalOutcome(prediction: int): Outcome
  {
    if prediction == 1 then TrueNegative else FalsePositive
  }

  /** A (truth, prediction) pair of a sample of an anomaly frame; a false
      positive on an unclear sample counts as a true negative, and pairs
      outside {0, 1} count nowhere. */
  function PairOutcome(truth: int, predicted: int, unclear: bool): Outcome
  {
    if truth == 1 && predicted == 1 then TrueNegative
    else if truth == 1 && predicted == 0 then (if unclear then TrueNegative else FalsePositive)
    else if truth == 0 && predicted == 0 then TruePositive
    else if truth == 0 && predicted == 1 then FalseNegative
    else Uncounted
  }

  function OutcomeAt(a: AnomalyInputs, j: nat): Outcome
    requires j < Pairs(a)
  {
    PairOutcome(a.yAnomaly[j], a.yAnomalyPredicted[j], j in a.unclearIndices)
  }

  /** The samples among the first `k` normal ones with outcome `o`. */
  function NormalCount(y: seq<int>, k: nat, o: Outcome): (c: nat)
    requires k <= |y|
    ensures c <= k
  {
    if k == 0 then 0 else NormalCount(y, k - 1, o) + (if NormalOutcome(y[k - 1]) == o then 1 else 0)
  }

  /** The samples among the first `k` anomaly pairs with outcome `o`. */
  function AnomalyCount(a: AnomalyInputs, k: nat, o: Outcome): (c: nat)
    requires k <= Pairs(a)
    ensures c <= k
  {
    if k == 0 then 0 else AnomalyCount(a, k - 1, o) + (if OutcomeAt(a, k - 1) == o then 1 else 0)
  }

  /** `fpFramesNormal` after `k` samples. */
  function NormalFpFrames(y: seq<int>, n: int, k: nat): set<int>
    requires k <= |y| && n != 0
  {
    if k == 0 then {}
    else NormalFpFrames(y, n, k - 1) + (if NormalOutcome(y[k - 1]) == FalsePositive then {Quotient(k - 1, n)} else {})
  }

  /** `fpFramesAnomaly` after `k` pairs. */
  function AnomalyFpFrames(a: AnomalyInputs, n: int, k: nat): set<int>
    requires k <= Pairs(a) && n != 0
  {
    if k == 0 then {}
    else AnomalyFpFrames(a, n, k - 1) + (if OutcomeAt(a, k - 1) == FalsePositive then {Quotient(k - 1, n)} else {})
  }

  /** The true positives among the first `k` pairs that belong to `id`. */
  function Hits(a: AnomalyInputs, id: string, k: nat): (c: nat)
    requires k <= Pairs(a) && id in a.idToIndices
    ensures c <= AnomalyCount(a, k, TruePositive)
  {
    if k == 0 then 0
    else Hits(a, id, k - 1) + (if OutcomeAt(a, k - 1) == TruePositive && (k - 1) in a.idToIndices[id] then 1 else 0)
  }

  /** `tpsPerAnomaly` after `k` pairs. */
  function TpsAfter(a: AnomalyInputs, k: nat): (tps: map<string, nat>)
    requires k <= Pairs(a)
    ensures tps.Keys == a.idToIndices.Keys
  {
    map id | id in a.idToIndices :: Hits(a, id, k)
  }

  function HitIds(tps: map<string, nat>): set<string>
  {
    set id | id in tps && tps[id] > 0
  }

  function MissedIds(tps: map<string, nat>): set<string>
  {
    set id | id in tps && tps[id] == 0
  }

  /** What `CalculateMetrics` returns. */
  ghost function Calculate(yNormalPredicted: seq<int>, nSamplesPerFrame: int, anomaly: Option<AnomalyInputs>): Result<Metrics, MetricsError>
  {
    var y, n := yNormalPredicted, nSamplesPerFrame;
    if n == 0 then Err(DivideByZero)
    else
      var tn, fp := NormalCount(y, |y|, TrueNegative), NormalCount(y, |y|, FalsePositive);
      match anomaly
      case None =>
        Ok(Metrics(0, tn, fp, 0, |NormalFpFrames(y, n, |y|)|, Quotient(|y|, n), -1, -1, None))
      case Some(a) =>
        var k := Pairs(a);
        var tps := TpsAfter(a, k);
        Ok(Metrics(AnomalyCount(a, k, TruePositive), tn + AnomalyCount(a, k, TrueNegative),
                   fp + AnomalyCount(a, k, FalsePositive), AnomalyCount(a, k, FalseNegative),
                   |NormalFpFrames(y, n, |y|)| + |AnomalyFpFrames(a, n, k)|,
                   Quotient(|y|, n) + Quotient(|a.yAnomalyPredicted|, n),
                   |HitIds(tps)|, |tps| - |HitIds(tps)|, Some(JoinWith(Sorted(MissedIds(tps)), ", "))))
  }

  // ---------------------------------------------------------------------
  // The loops
  // ---------------------------------------------------------------------

  /** The loop over the normal samples. */
  method CountNormal(y: seq<int>, n: int) returns (tn: nat, fp: nat, fpFrames: set<int>)
    requires n != 0
    ensures tn == NormalCount(y, |y|, TrueNegative) && fp == NormalCount(y, |y|, FalsePositive)
    ensures fpFrames == NormalFpFrames(y, n, |y|)
  {
    tn, fp, fpFrames := 0, 0, {};
    for i := 0 to |y|
      invariant tn == NormalCount(y, i, TrueNegative) && fp == NormalCount(y, i, FalsePositive)
      invariant fpFrames == NormalFpFrames(y, n, i)
    {
      var prediction := y[i];
      if prediction == 1 {
        tn := tn + 1;
      } else {
        fp := fp + 1;
        fpFrames := fpFrames + {Quotient(i, n)};
      }
    }
  }

  /** The inner `foreach` over the anomaly ids for a true positive at `i`:
      every id whose index set holds `i` gains one. */
  method CountHit(a: AnomalyInputs, i: nat, tps: map<string, nat>) returns (next: map<string, nat>)
    requires i < Pairs(a) && OutcomeAt(a, i) == TruePositive && tps == TpsAfter(a, i)
    ensures next == TpsAfter(a, i + 1)
  {
    next := tps;
    var remaining := a.idToIndices.Keys;
    while remaining != {}
      invariant remaining <= a.idToIndices.Keys && next.Keys == a.idToIndices.Keys
      invariant forall id | id in next ::
        next[id] == Hits(a, id, i) + (if id !in remaining && i in a.idToIndices[id] then 1 else 0)
      decreases |remaining|
    {
      var id :| id in remaining;
      if i in a.idToIndices[id] {
        next := next[id := next[id] + 1];
      }
      remaining := remaining - {id};
    }
    assert forall id | id in next :: next[id] == Hits(a, id, i + 1);
  }

  /** The loop over the anomaly pairs. */
  method CountAnomalies(a: AnomalyInputs, n: int) returns (tp: nat, tn: nat, fp: nat, fn: nat, fpFrames: set<int>, tps: map<string, nat>)
    requires n != 0
    ensures tp == AnomalyCount(a, Pairs(a), TruePositive) && tn == AnomalyCount(a, Pairs(a), TrueNegative)
    ensures fp == AnomalyCount(a, Pairs(a), FalsePositive) && fn == AnomalyCount(a, Pairs(a), FalseNegative)
    ensures fpFrames == AnomalyFpFrames(a, n, Pairs(a)) && tps == TpsAfter(a, Pairs(a))
  {
    tp, tn, fp, fn, fpFrames := 0, 0, 0, 0, {};
    tps := map id | id in a.idToIndices :: 0;
    assert tps == TpsAfter(a, 0);
    for i := 0 to Pairs(a)
      invariant tp == AnomalyCount(a, i, TruePositive) && tn == AnomalyCount(a, i, TrueNegative)
      invariant fp == AnomalyCount(a, i, FalsePositive) && fn == AnomalyCount(a, i, FalseNegative)
      invariant fpFrames == AnomalyFpFrames(a, n, i) && tps == TpsAfter(a, i)
    {
      var truth, predicted := a.yAnomaly[i], a.yAnomalyPredicted[i];
      if truth == 1 && predicted == 1 {
        tn := tn + 1;
      } else if truth == 1 && predicted == 0 {
        if i !in a.unclearIndices {
          fp := fp + 1;
          fpFrames := fpFrames + {Quotient(i, n)};
        } else {
          tn := tn + 1;
        }
      } else if truth == 0 && predicted == 0 {
        tp := tp + 1;
        tps := CountHit(a, i, tps);
      } else if truth == 0 && predicted == 1 {
        fn := fn + 1;
      }
      if OutcomeAt(a, i) != TruePositive {
        TalliesKept(a, i);
      }
    }
  }

  /** A pair that is not a true positive leaves every tally as it was. */
  lemma TalliesKept(a: AnomalyInputs, i: nat)
    requires i < Pairs(a) && OutcomeAt(a, i) != TruePositive
    ensures TpsAfter(a, i + 1) == TpsAfter(a, i)
  {
    forall id | id in a.idToIndices
      ensures Hits(a, id, i + 1) == Hits(a, id, i)
    {
    }
  }

  /** Lists the missed ids in ascending order, as `OrderBy` does. */
  method SortMissed(tps: map<string, nat>) returns (ids: seq<string>)
    ensures ids == Sorted(MissedIds(tps))
  {
    ids := [];
    var remaining := MissedIds(tps);
    while remaining != {}
      invariant remaining <= MissedIds(tps) && Ascending(ids)
      invariant forall k :: k in ids <==> k in MissedIds(tps) && k !in remaining
      decreases |remaining|
    {
      var id :| id in remaining;
      ids := Insert(id, ids);
      remaining := remaining - {id};
    }
    AscendingUnique(ids, Sorted(MissedIds(tps)));
  }

  /** `CalculateMetrics`. */
  method CalculateMetrics(yNormalPredicted: seq<int>, nSamplesPerFrame: int, anomaly: Option<AnomalyInputs>)
    returns (r: Result<Metrics, MetricsError>)
    ensures r == Calculate(yNormalPredicted, nSamplesPerFrame, anomaly)
  {
    if nSamplesPerFrame == 0 {
      return Err(DivideByZero);
    }
    var tn, fp, fpFramesNormal := CountNormal(yNormalPredicted, nSamplesPerFrame);
    var nFrames := Quotient(|yNormalPredicted|, nSamplesPerFrame);
    if anomaly.None? {
      return Ok(Metrics(0, tn, fp, 0, |fpFramesNormal|, nFrames, -1, -1, None));
    }
    var a := anomaly.value;
    var tpA, tnA, fpA, fnA, fpFramesAnomaly, tps := CountAnomalies(a, nSamplesPerFrame);
    var hit := |HitIds(tps)|;
    var missed := SortMissed(tps);
    r := Ok(Metrics(tpA, tn + tnA, fp + fpA, fnA, |fpFramesNormal| + |fpFramesAnomaly|,
                    nFrames + Quotient(|a.yAnomalyPredicted|, nSamplesPerFrame),
                    hit, |tps| - hit, Some(JoinWith(missed, ", "))));
    CalculateWithAnomalies(yNormalPredicted, nSamplesPerFrame, a);
  }

  /** `Calculate` with anomaly inputs, field by field. */
  lemma CalculateWithAnomalies(y: seq<int>, n: int, a: AnomalyInputs)
    requires n != 0
    ensures Calculate(y, n, Some(a)).Ok?
    ensures var m, k := Calculate(y, n, Some(a)).value, Pairs(a); var tps := TpsAfter(a, k);
      && m.tp == AnomalyCount(a, k, TruePositive)
      && m.tn == NormalCount(y, |y|, TrueNegative) + AnomalyCount(a, k, TrueNegative)
      && m.fp == NormalCount(y, |y|, FalsePositive) + AnomalyCount(a, k, FalsePositive)
      && m.fn == AnomalyCount(a, k, FalseNegative)
      && m.nFramesWithFps == |NormalFpFrames(y, n, |y|)| + |AnomalyFpFrames(a, n, k)|
      && m.nFrames == Quotient(|y|, n) + Quotient(|a.yAnomalyPredicted|, n)
      && m.tpAnomalyLevel == |HitIds(tps)| && m.fnAnomalyLevel == |tps| - |HitIds(tps)|
      && m.missedAnomalies == Some(JoinWith(Sorted(MissedIds(tps)), ", "))
  {
  }

  // ---------------------------------------------------------------------
  // What the counts mean
  // ---------------------------------------------------------------------

  /** The true negatives among the normal samples are the predictions equal
      to 1, and every other prediction is a false positive. */
  lemma {:induction false} NormalCountsAreMultiplicities(y: seq<int>, k: nat)
    requires k <= |y|
    ensures NormalCount(y, k, TrueNegative) == multiset(y[..k])[1]
    ensures NormalCount(y, k, FalsePositive) == k - multiset(y[..k])[1]
  {
    if k > 0 {
      NormalCountsAreMultiplicities(y, k - 1);
      assert y[..k] == y[..k - 1] + [y[k - 1]];
    }
  }

  /** Every anomaly pair lands in exactly one of the five outcomes. */
  lemma {:induction false} AnomalyTotal(a: AnomalyInputs, k: nat)
    requires k <= Pairs(a)
    ensures AnomalyCount(a, k, TruePositive) + AnomalyCount(a, k, TrueNegative) + AnomalyCount(a, k, FalsePositive)
            + AnomalyCount(a, k, FalseNegative) + AnomalyCount(a, k, Uncounted) == k
  {
    if k > 0 {
      AnomalyTotal(a, k - 1);
    }
  }

  /** Pairs outside {0, 1} are the only ones counted nowhere. */
  lemma UncountedIffInvalid(truth: int, predicted: int, unclear: bool)
    ensures PairOutcome(truth, predicted, unclear) == Uncounted <==> !(truth in {0, 1} && predicted in {0, 1})
  {
  }

  /** An id's count is positive exactly when one of its indices, among the
      zipped pairs, is a true positive. */
  lemma {:induction false} HitsPositiveIff(a: AnomalyInputs, id: string, k: nat)
    requires k <= Pairs(a) && id in a.idToIndices
    ensures Hits(a, id, k) > 0 <==> exists j :: 0 <= j < k && j in a.idToIndices[id] && OutcomeAt(a, j) == TruePositive
  {
    if k > 0 {
      HitsPositiveIff(a, id, k - 1);
    }
  }

  /** `id` is one of the missed anomalies: none of its indices was detected. */
  ghost predicate Missed(a: AnomalyInputs, id: string)
  {
    id in a.idToIndices && forall j :: 0 <= j < Pairs(a) && j in a.idToIndices[id] ==> OutcomeAt(a, j) != TruePositive
  }

  lemma HitMissPartition(tps: map<string, nat>)
    ensures |HitIds(tps)| + |MissedIds(tps)| == |tps|
  {
    assert HitIds(tps) + MissedIds(tps) == tps.Keys;
    assert HitIds(tps) * MissedIds(tps) == {};
  }

  /** With anomaly inputs, the detected and the missed anomalies add up to
      all ids, and the missed ones are listed in ascending order, joined by
      ", ". */
  lemma AnomalyLevels(y: seq<int>, n: int, a: AnomalyInputs)
    requires n != 0
    ensures Calculate(y, n, Some(a)).Ok?
    ensures var m := Calculate(y, n, Some(a)).value;
      && m.tpAnomalyLevel + m.fnAnomalyLevel == |a.idToIndices|
      && m.tpAnomalyLevel >= 0 && m.fnAnomalyLevel >= 0
      && exists ids :: m.missedAnomalies == Some(JoinWith(ids, ", ")) && Ascending(ids) && |ids| == m.fnAnomalyLevel
                       && forall id :: id in ids <==> Missed(a, id)
  {
    var tps := TpsAfter(a, Pairs(a));
    HitMissPartition(tps);
    assert |tps| == |a.idToIndices| by {
      assert tps.Keys == a.idToIndices.Keys;
    }
    var ids := Sorted(MissedIds(tps));
    forall id
      ensures id in ids <==> Missed(a, id)
    {
      if id in a.idToIndices {
        HitsPositiveIff(a, id, Pairs(a));
      }
    }
  }

  /** Without anomaly inputs nothing is positive and the anomaly levels keep
      their defaults. */
  lemma NoAnomalyInputs(y: seq<int>, n: int)
    requires n != 0
    ensures Calculate(y, n, None).Ok?
    ensures var m := Calculate(y, n, None).value;
      && m.tp == 0 && m.fn == 0 && m.tn + m.fp == |y| && m.tn == multiset(y)[1]
      && m.tpAnomalyLevel == -1 && m.fnAnomalyLevel == -1 && m.missedAnomalies.None?
  {
    NormalCountsAreMultiplicities(y, |y|);
    assert y[..|y|] == y;
  }

  /** A set of integers inside [0, m) has at most m elements. */
  lemma {:induction false} BoundedSetSize(s: set<int>, m: nat)
    requires forall f | f in s :: 0 <= f < m
    ensures |s| <= m
  {
    if m > 0 {
      BoundedSetSize(s - {m - 1}, m - 1);
    } else {
      assert forall f :: f !in s;
      assert s == {};
    }
  }

  lemma ProductBelow(f: int, n: int, m: int)
    requires n > 0 && f * n < m * n
    ensures f < m
  {
    assert (m - f) * n == m * n - f * n;
    MulSign(m - f, n);
  }

  /** The frame of sample `j`, for `n` samples per frame, is below `q` when
      `q` frames cover more than `j` samples. */
  lemma {:induction false} NormalFpFramesBelow(y: seq<int>, n: int, k: nat)
    requires n > 0 && k <= |y|
    ensures forall f | f in NormalFpFrames(y, n, k) :: 0 <= f && f * n < k
  {
    if k > 0 {
      NormalFpFramesBelow(y, n, k - 1);
    }
  }

  lemma {:induction false} AnomalyFpFramesBelow(a: AnomalyInputs, n: int, k: nat)
    requires n > 0 && k <= Pairs(a)
    ensures forall f | f in AnomalyFpFrames(a, n, k) :: 0 <= f && f * n < k
  {
    if k > 0 {
      AnomalyFpFramesBelow(a, n, k - 1);
    }
  }

  /** When `n` divides `count`, C#'s `count / n` is the exact quotient. */
  lemma ExactQuotient(count: nat, n: int)
    requires n > 0 && count % n == 0
    ensures Quotient(count, n) * n == count
  {
    var q := Quotient(count, n);
    var e := count / n;
    assert e * n == count;
    assert (e - q) * n == e * n - q * n;
    MulSign(e - q, n);
  }

  /** Frames made of whole groups of `n` samples: no more frames hold a false
      positive than there are frames. */
  lemma FpFramesWithinFrames(y: seq<int>, n: int, s: set<int>, count: nat, k: nat)
    requires n > 0 && count % n == 0 && k <= count
    requires forall f | f in s :: 0 <= f && f * n < k
    ensures |s| <= Quotient(count, n)
  {
    var q := Quotient(count, n);
    ExactQuotient(count, n);
    forall f | f in s
      ensures f < q
    {
      ProductBelow(f, n, q);
    }
    BoundedSetSize(s, q);
  }

  /** When every frame has `nSamplesPerFrame` samples, the frames with a
      false positive are at most all frames. */
  lemma FramesWithFpsBounded(y: seq<int>, n: int, anomaly: Option<AnomalyInputs>)
    requires n > 0 && |y| % n == 0
    requires anomaly.Some? ==> |anomaly.value.yAnomalyPredicted| % n == 0
    ensures Calculate(y, n, anomaly).Ok?
    ensures Calculate(y, n, anomaly).value.nFramesWithFps <= Calculate(y, n, anomaly).value.nFrames
  {
    NormalFpFramesBelow(y, n, |y|);
    FpFramesWithinFrames(y, n, NormalFpFrames(y, n, |y|), |y|, |y|);
    if anomaly.Some? {
      var a := anomaly.value;
      AnomalyFpFramesBelow(a, n, Pairs(a));
      FpFramesWithinFrames(y, n, AnomalyFpFrames(a, n, Pairs(a)), |a.yAnomalyPredicted|, Pairs(a));
    }
  }

  /** A zero sample count per frame is the only error. */
  lemma ErrorIffNoSamplesPerFrame(y: seq<int>, n: int, anomaly: Option<AnomalyInputs>)
    ensures Calculate(y, n, anomaly).Err? <==> n == 0
  {
  }
}

