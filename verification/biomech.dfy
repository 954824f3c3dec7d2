/** Rule-based biomechanical flagging (src/biomech/risk.py).

    Three threshold comparisons give three flags; the risk score is the
    fraction of flags raised. A comparison against a missing cell is false,
    which is how the source's comparison of a column holding the missing
    marker resolves. */
module Biomech {
  import opened Wrappers
  import opened Features

  /** The source raises `KeyError` for an absent column or threshold key. */
  datatype BiomechError =
    | MissingColumn(column: Column)
    | MissingThreshold(key: string)

  const AcuteChronicRatioKey: string := "acute_chronic_ratio_threshold"
  const WorkloadSpikeKey: string := "workload_spike_threshold"
  const FatigueKey: string := "fatigue_threshold"

  datatype Thresholds = Thresholds(acuteChronicRatio: real, workloadSpike: real, fatigue: real)

  datatype Flags = Flags(acuteChronic: bool, workloadSpike: bool, fatigue: bool)

  /** An input row together with the four columns the scorer adds. */
  datatype ScoredRow = ScoredRow(row: Row, flags: Flags, biomechRiskScore: real)

  /** `column >= threshold` for one cell; a missing cell compares false. */
  function AtLeast(c: Cell, t: real): bool
  {
    match c
    case None => false
    case Some(v) => v >= t
  }

  /** The three flags of one row, from the ratio cell, the two distances
      and the fatigue cell. The sprint share is divided through the same
      zero-to-missing replacement as the feature ratios. */
  function FlagsOf(ratio: Cell, sprintKm: real, totalKm: real, fatigue: Cell, t: Thresholds): (f: Flags)
    ensures f.acuteChronic <==> ratio.Some? && ratio.value >= t.acuteChronicRatio
    ensures f.workloadSpike <==> totalKm != 0.0 && sprintKm / totalKm >= t.workloadSpike
    ensures f.fatigue <==> fatigue.Some? && fatigue.value >= t.fatigue
  {
    Flags(
      AtLeast(ratio, t.acuteChronicRatio),
      AtLeast(SafeDivide(sprintKm, totalKm), t.workloadSpike),
      AtLeast(fatigue, t.fatigue))
  }

  /** Number of raised flags. */
  function Count(f: Flags): nat
  {
    (if f.acuteChronic then 1 else 0)
    + (if f.workloadSpike then 1 else 0)
    + (if f.fatigue then 1 else 0)
  }

  /** Count of raised flags over three: one of four values in [0, 1],
      zero exactly when no flag is raised, a third or two thirds exactly
      when one or two are, and one exactly when all are. */
  function RiskScore(f: Flags): (s: real)
    ensures s == 0.0 || s == 1.0 / 3.0 || s == 2.0 / 3.0 || s == 1.0
    ensures 0.0 <= s <= 1.0
    ensures s == 0.0 <==> !f.acuteChronic && !f.workloadSpike && !f.fatigue
    ensures s == 1.0 / 3.0 <==> Count(f) == 1
    ensures s == 2.0 / 3.0 <==> Count(f) == 2
    ensures s == 1.0 <==> f.acuteChronic && f.workloadSpike && f.fatigue
  {
    (Count(f) as real) / 3.0
  }

  /** Every row of the frame carries column `c`. */
  predicate HasColumn(rows: seq<Row>, c: Column)
  {
    forall i :: 0 <= i < |rows| ==> c in rows[i].cells
  }

  /** Flags and score for one row. */
  function ScoreRow(r: Row, t: Thresholds): ScoredRow
    requires AcuteChronicRatio in r.cells && FatigueScore in r.cells
  {
    var f := FlagsOf(r.cells[AcuteChronicRatio], r.base.sprintDistanceKm,
                     r.base.totalDistanceKm, r.cells[FatigueScore], t);
    ScoredRow(r, f, RiskScore(f))
  }

  /** `compute_biomech_flags`. Lookups fail in the order the source makes
      them: the ratio column, its threshold, the spike threshold, the
      fatigue column, its threshold. On success every input row is kept
      unchanged, in order, and gains its three flags and its score. */
  function ComputeBiomechFlags(rows: seq<Row>, config: map<string, real>)
    : (r: Result<seq<ScoredRow>, BiomechError>)
    ensures r.Success? <==>
              && HasColumn(rows, AcuteChronicRatio) && HasColumn(rows, FatigueScore)
              && AcuteChronicRatioKey in config && WorkloadSpikeKey in config && FatigueKey in config
    ensures !HasColumn(rows, AcuteChronicRatio) ==> r == Failure(MissingColumn(AcuteChronicRatio))
    ensures HasColumn(rows, AcuteChronicRatio) && AcuteChronicRatioKey !in config
            ==> r == Failure(MissingThreshold(AcuteChronicRatioKey))
    ensures HasColumn(rows, AcuteChronicRatio) && AcuteChronicRatioKey in config
            && WorkloadSpikeKey !in config
            ==> r == Failure(MissingThreshold(WorkloadSpikeKey))
    ensures HasColumn(rows, AcuteChronicRatio) && AcuteChronicRatioKey in config
            && WorkloadSpikeKey in config && !HasColumn(rows, FatigueScore)
            ==> r == Failure(MissingColumn(FatigueScore))
    ensures HasColumn(rows, AcuteChronicRatio) && AcuteChronicRatioKey in config
            && WorkloadSpikeKey in config && HasColumn(rows, FatigueScore) && FatigueKey !in config
            ==> r == Failure(MissingThreshold(FatigueKey))
    ensures r.Success? ==> |r.value| == |rows|
    ensures r.Success? ==> forall i :: 0 <= i < |rows| ==> r.value[i].row == rows[i]
    ensures r.Success? ==> forall i :: 0 <= i < |rows| ==>
              var ratio := rows[i].cells[AcuteChronicRatio];
              (r.value[i].flags.acuteChronic <==>
                 ratio.Some? && ratio.value >= config[AcuteChronicRatioKey])
    ensures r.Success? ==> forall i :: 0 <= i < |rows| ==>
              var p := rows[i].base;
              (r.value[i].flags.workloadSpike <==>
                 p.totalDistanceKm != 0.0 && p.sprintDistanceKm / p.totalDistanceKm >= config[WorkloadSpikeKey])
    ensures r.Success? ==> forall i :: 0 <= i < |rows| ==>
              var fatigue := rows[i].cells[FatigueScore];
              (r.value[i].flags.fatigue <==>
                 fatigue.Some? && fatigue.value >= config[FatigueKey])
    ensures r.Success? ==> forall i :: 0 <= i < |rows| ==>
              r.value[i].biomechRiskScore == (Count(r.value[i].flags) as real) / 3.0
              && 0.0 <= r.value[i].biomechRiskScore <= 1.0
  {
    if !HasColumn(rows, AcuteChronicRatio) then Failure(MissingColumn(AcuteChronicRatio))
    else if AcuteChronicRatioKey !in config then Failure(MissingThreshold(AcuteChronicRatioKey))
    else if WorkloadSpikeKey !in config then Failure(MissingThreshold(WorkloadSpikeKey))
    else if !HasColumn(rows, FatigueScore) then Failure(MissingColumn(FatigueScore))
    else if FatigueKey !in config then Failure(MissingThreshold(FatigueKey))
    else
      var t := Thresholds(config[AcuteChronicRatioKey], config[WorkloadSpikeKey], config[FatigueKey]);
      Success(seq(|rows|, i requires 0 <= i < |rows| => ScoreRow(rows[i], t)))
  }

  // ---------------------------------------------------------------------
  // Properties
  // ---------------------------------------------------------------------

  /** Raising thresholds never raises a flag that was down, so the score
      cannot go up. */
  lemma RaisingThresholdsLowersScore(ratio: Cell, sprintKm: real, totalKm: real, fatigue: Cell,
                                     lo: Thresholds, hi: Thresholds)
    requires lo.acuteChronicRatio <= hi.acuteChronicRatio
    requires lo.workloadSpike <= hi.workloadSpike
    requires lo.fatigue <= hi.fatigue
    ensures FlagsOf(ratio, sprintKm, totalKm, fatigue, hi).acuteChronic
            ==> FlagsOf(ratio, sprintKm, totalKm, fatigue, lo).acuteChronic
    ensures FlagsOf(ratio, sprintKm, totalKm, fatigue, hi).workloadSpike
            ==> FlagsOf(ratio, sprintKm, totalKm, fatigue, lo).workloadSpike
    ensures FlagsOf(ratio, sprintKm, totalKm, fatigue, hi).fatigue
            ==> FlagsOf(ratio, sprintKm, totalKm, fatigue, lo).fatigue
    ensures RiskScore(FlagsOf(ratio, sprintKm, totalKm, fatigue, hi))
            <= RiskScore(FlagsOf(ratio, sprintKm, totalKm, fatigue, lo))
  {
  }

  /** Scoring a frame built by the feature derivation never fails for lack
      of a column: only a missing threshold key can make it fail. */
  lemma DerivedFramesHaveScoredColumns(f: seq<Row>, config: map<string, real>)
    requires AcuteChronicRatioKey in config && WorkloadSpikeKey in config && FatigueKey in config
    ensures ComputeBiomechFlags(BuildFeaturesFrame(f), config).Success?
  {
  }

  /** A player with no matches still gets a workload-spike flag from the
      distance columns: the per-match features go missing, the spike test
      does not look at them. */
  lemma ZeroMatchesDoesNotSuppressSpike(p: PlayerRecord, t: Thresholds)
    requires p.matchesLast30d == 0.0
    requires p.totalDistanceKm != 0.0
    requires p.sprintDistanceKm / p.totalDistanceKm >= t.workloadSpike
    ensures Derive(p).matchIntensity.None? && Derive(p).travelBurden.None?
    ensures FlagsOf(Derive(p).acuteChronicRatio, p.sprintDistanceKm, p.totalDistanceKm,
                    Some(Derive(p).fatigueScore), t).workloadSpike
  {
  }
}
