/** `Metrics.PrintMetrics` (AnomalyDetection/Metrics.cs): the older
    sample-level report. It counts like `MetricsUtil.CalculateMetrics` but
    knows no unclear samples and no frames, and prints instead of
    returning; the model returns what it prints. */
module Metrics {
  import opened Common
  import opened StringOrder
  import opened MetricsUtil

  /** The line `TP=…, FN=…, FP (on sample level)=…` and the missed ids. */
  datatype PerAnomaly = PerAnomaly(tp: nat, fn: int, fpSampleLevel: nat, missed: string)

  /** The per-sample counts, and the per-anomaly report when all three
      anomaly arguments are given. */
  datatype Report = Report(tp: nat, tn: nat, fp: nat, fn: nat, perAnomaly: Option<PerAnomaly>)

  /** The anomaly arguments of `PrintMetrics`, with no unclear samples. */
  function Inputs(yAnomaly: seq<int>, yAnomalyPredicted: seq<int>, idToIndices: map<string, set<int>>): (a: AnomalyInputs)
    ensures a.unclearIndices == {}
  {
    AnomalyInputs(yAnomaly, yAnomalyPredicted, idToIndices, {})
  }

  /** `PrintPerAnomalyMetrics`. */
  ghost function PerAnomalyOf(tps: map<string, nat>, fpSampleLevel: nat): PerAnomaly
  {
    PerAnomaly(|HitIds(tps)|, |tps| - |HitIds(tps)|, fpSampleLevel, JoinWith(Sorted(MissedIds(tps)), ", "))
  }

  /** What `PrintMetrics` prints. */
  ghost function ReportOf(yNormalPredicted: seq<int>, anomaly: Option<AnomalyInputs>): Report
    requires anomaly.Some? ==> anomaly.value.unclearIndices == {}
  {
    var y := yNormalPredicted;
    var tn, fp := NormalCount(y, |y|, TrueNegative), NormalCount(y, |y|, FalsePositive);
    match anomaly
    case None => Report(0, tn, fp, 0, None)
    case Some(a) =>
      var k := Pairs(a);
      var fpAll := fp + AnomalyCount(a, k, FalsePositive);
      Report(AnomalyCount(a, k, TruePositive), tn + AnomalyCount(a, k, TrueNegative), fpAll,
             AnomalyCount(a, k, FalseNegative), Some(PerAnomalyOf(TpsAfter(a, k), fpAll)))
  }

  /** `PrintMetrics`; `anomaly` is `None` when any of the three anomaly
      arguments is null. */
  method PrintMetrics(yNormalPredicted: seq<int>, anomaly: Option<AnomalyInputs>) returns (r: Report)
    requires anomaly.Some? ==> anomaly.value.unclearIndices == {}
    ensures r == ReportOf(yNormalPredicted, anomaly)
  {
    var tn, fp := CountNormal(yNormalPredicted);
    if anomaly.None? {
      return Report(0, tn, fp, 0, None);
    }
    var a := anomaly.value;
    var tp, tnA, fpA, fn, tps := CountAnomalyPairs(a);
    var hit := |HitIds(tps)|;
    var missed := SortMissed(tps);
    r := Report(tp, tn + tnA, fp + fpA, fn, Some(PerAnomaly(hit, |tps| - hit, fp + fpA, JoinWith(missed, ", "))));
  }

  /** The first loop of `PrintMetrics`: the samples of normal frames
      predicted normal (true negatives) and anomalous (false positives). */
  method CountNormal(y: seq<int>) returns (tn: nat, fp: nat)
    ensures tn == NormalCount(y, |y|, TrueNegative) && fp == NormalCount(y, |y|, FalsePositive)
  {
    tn, fp := 0, 0;
    for i := 0 to |y|
      invariant tn == NormalCount(y, i, TrueNegative) && fp == NormalCount(y, i, FalsePositive)
    {
      if y[i] == 1 {
        tn := tn + 1;
      } else {
        fp := fp + 1;
      }
    }
  }

  /** The second loop of `PrintMetrics`: the outcomes of the anomaly pairs
      and the true positives of each anomaly. */
  method CountAnomalyPairs(a: AnomalyInputs) returns (tp: nat, tn: nat, fp: nat, fn: nat, tps: map<string, nat>)
    requires a.unclearIndices == {}
    ensures tp == AnomalyCount(a, Pairs(a), TruePositive) && tn == AnomalyCount(a, Pairs(a), TrueNegative)
    ensures fp == AnomalyCount(a, Pairs(a), FalsePositive) && fn == AnomalyCount(a, Pairs(a), FalseNegative)
    ensures tps == TpsAfter(a, Pairs(a))
  {
    tp, tn, fp, fn := 0, 0, 0, 0;
    tps := map id | id in a.idToIndices :: 0;
    assert tps == TpsAfter(a, 0);
    for i := 0 to Pairs(a)
      invariant tp == AnomalyCount(a, i, TruePositive) && tn == AnomalyCount(a, i, TrueNegative)
      invariant fp == AnomalyCount(a, i, FalsePositive) && fn == AnomalyCount(a, i, FalseNegative)
      invariant tps == TpsAfter(a, i)
    {
      var truth, predicted := a.yAnomaly[i], a.yAnomalyPredicted[i];
      if truth == 1 && predicted == 1 {
        tn := tn + 1;
      } else if truth == 1 && predicted == 0 {
        fp := fp + 1;
      } else if truth == 0 && predicted == 0 {
        tp := tp + 1;
        tps := CountHit(a, i, tps);
      } else if truth == 0 && predicted == 1 {
        fn := fn + 1;
      }
      if OutcomeAt(a, i) != TruePositive {
        TalliesKept(a, i);
      }
    }
  }

  // ---------------------------------------------------------------------
  // The two reports side by side
  // ---------------------------------------------------------------------

  /** The samples among the first `k` pairs that are labelled normal,
      predicted anomalous and marked unclear. */
  function Exempt(a: AnomalyInputs, k: nat): (c: nat)
    requires k <= Pairs(a)
    ensures c <= k
  {
    if k == 0 then 0
    else Exempt(a, k - 1) + (if a.yAnomaly[k - 1] == 1 && a.yAnomalyPredicted[k - 1] == 0 && (k - 1) in a.unclearIndices then 1 else 0)
  }

  /** Forgetting the unclear samples turns exactly the exempt true negatives
      back into false positives, and changes nothing else. */
  lemma {:induction false} ForgetUnclear(a: AnomalyInputs, k: nat)
    requires k <= Pairs(a)
    ensures var plain := a.(unclearIndices := {});
      && AnomalyCount(plain, k, FalsePositive) == AnomalyCount(a, k, FalsePositive) + Exempt(a, k)
      && AnomalyCount(plain, k, TrueNegative) + Exempt(a, k) == AnomalyCount(a, k, TrueNegative)
  {
    if k > 0 {
      ForgetUnclear(a, k - 1);
    }
  }

  /** Forgetting the unclear samples changes no true positive and no false
      negative. */
  lemma {:induction false} ForgetUnclearKeeps(a: AnomalyInputs, k: nat)
    requires k <= Pairs(a)
    ensures var plain := a.(unclearIndices := {});
      && AnomalyCount(plain, k, TruePositive) == AnomalyCount(a, k, TruePositive)
      && AnomalyCount(plain, k, FalseNegative) == AnomalyCount(a, k, FalseNegative)
  {
    if k > 0 {
      ForgetUnclearKeeps(a, k - 1);
    }
  }

  /** Forgetting the unclear samples leaves every anomaly's tally as it
      was. */
  lemma {:induction false} HitsAgree(a: AnomalyInputs, k: nat)
    requires k <= Pairs(a)
    ensures TpsAfter(a.(unclearIndices := {}), k) == TpsAfter(a, k)
  {
    var plain := a.(unclearIndices := {});
    forall id | id in a.idToIndices
      ensures Hits(plain, id, k) == Hits(a, id, k)
    {
      HitsIgnoreUnclear(a, id, k);
    }
  }

  /** Only true positives count towards an anomaly, and the unclear marks
      never create or remove one. */
  lemma {:induction false} HitsIgnoreUnclear(a: AnomalyInputs, id: string, k: nat)
    requires k <= Pairs(a) && id in a.idToIndices
    ensures Hits(a.(unclearIndices := {}), id, k) == Hits(a, id, k)
  {
    if k > 0 {
      HitsIgnoreUnclear(a, id, k - 1);
    }
  }

  /** Given the same inputs, the old report and `CalculateMetrics` agree on
      everything except that the unclear false positives of the latter are
      true negatives. */
  lemma ReportAgainstCalculate(y: seq<int>, n: int, a: AnomalyInputs)
    requires n != 0
    ensures var plain := a.(unclearIndices := {});
      var rep := ReportOf(y, Some(plain));
      var m := Calculate(y, n, Some(a)).value;
      && rep.tp == m.tp && rep.fn == m.fn
      && rep.fp == m.fp + Exempt(a, Pairs(a)) && rep.tn + Exempt(a, Pairs(a)) == m.tn
      && rep.perAnomaly.value.tp == m.tpAnomalyLevel && rep.perAnomaly.value.fn == m.fnAnomalyLevel
      && m.missedAnomalies == Some(rep.perAnomaly.value.missed)
  {
    ForgetUnclear(a, Pairs(a));
    ForgetUnclearKeeps(a, Pairs(a));
    HitsAgree(a, Pairs(a));
  }
}
