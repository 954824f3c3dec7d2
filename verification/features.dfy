/** Feature derivation (src/features/engineering.py).

    A frame is a sequence of rows. Each row carries the raw player record
    (`base`, never written by any step) and the derived columns the frame
    already has (`cells`). A derived cell is `None` when it holds the
    missing marker that a zero denominator produces.

    All arithmetic is exact `real` arithmetic. The source computes in IEEE
    doubles, so a fact such as "the acute/chronic ratio is exactly 3" holds
    here and may be off by one unit in the last place there. */
module Features {
  import opened Wrappers

  /** One row of raw player data, one field per base column. The label
      `injuryNext30d` is present only in training data. */
  datatype PlayerRecord = PlayerRecord(
    playerId: int,
    name: string,
    team: string,
    position: string,
    dominantFoot: string,
    age: real,
    heightCm: real,
    weightKg: real,
    minutesLast30d: real,
    matchesLast30d: real,
    sprintDistanceKm: real,
    totalDistanceKm: real,
    travelKmLast30d: real,
    previousInjuries: real,
    daysSinceLastInjury: real,
    muscleFatigueIndex: real,
    sleepQuality: real,
    injuryNext30d: Option<bool>)

  /** The six columns the feature steps add to a frame. */
  datatype Column =
    | AcuteLoad
    | ChronicLoad
    | AcuteChronicRatio
    | MatchIntensity
    | TravelBurden
    | FatigueScore

  /** A derived cell; `None` is the missing marker. */
  type Cell = Option<real>

  /** A frame row: the raw record and the derived columns present so far. */
  datatype Row = Row(base: PlayerRecord, cells: map<Column, Cell>)

  /** The derived values of one record, as a typed record. */
  datatype Derived = Derived(
    acuteLoad: real,
    chronicLoad: real,
    acuteChronicRatio: Option<real>,
    matchIntensity: Option<real>,
    travelBurden: Option<real>,
    fatigueScore: real)

  /** The two records agree on every base column the derivation reads. */
  predicate SameWorkload(p: PlayerRecord, q: PlayerRecord)
  {
    && p.minutesLast30d == q.minutesLast30d
    && p.matchesLast30d == q.matchesLast30d
    && p.travelKmLast30d == q.travelKmLast30d
    && p.muscleFatigueIndex == q.muscleFatigueIndex
    && p.sleepQuality == q.sleepQuality
  }

  // ---------------------------------------------------------------------
  // Per-record values
  // ---------------------------------------------------------------------

  /** `num / den.replace(0, pd.NA)`: the zero denominator is first turned
      into the missing marker, so the quotient is missing rather than an
      error. */
  function SafeDivide(num: real, den: real): (q: Option<real>)
    ensures q.None? <==> den == 0.0
    ensures q.Some? ==> q.value * den == num
  {
    if den == 0.0 then None else Some(num / den)
  }

  /** Average daily minutes over the 30-day window. */
  function AcuteLoadOf(p: PlayerRecord): (a: real)
    ensures a * 30.0 == p.minutesLast30d
  {
    p.minutesLast30d / 30.0
  }

  /** The same minutes spread over a 90-day baseline. */
  function ChronicLoadOf(p: PlayerRecord): (c: real)
    ensures c * 90.0 == p.minutesLast30d
    ensures c == 0.0 <==> p.minutesLast30d == 0.0
    ensures AcuteLoadOf(p) == 3.0 * c
  {
    p.minutesLast30d / 90.0
  }

  /** Acute load over chronic load. Both are computed from the same
      minutes, so the ratio is missing exactly when the minutes are zero
      and is 3 otherwise. */
  function AcuteChronicRatioOf(p: PlayerRecord): (r: Option<real>)
    ensures r.None? <==> p.minutesLast30d == 0.0
    ensures r.Some? ==> r.value == 3.0
  {
    var a := AcuteLoadOf(p);
    var c := ChronicLoadOf(p);
    var q := SafeDivide(a, c);
    assert q.Some? ==> q.value * c == 3.0 * c;
    q
  }

  /** Minutes per match; missing for a player with no matches. */
  function MatchIntensityOf(p: PlayerRecord): (r: Option<real>)
    ensures r.None? <==> p.matchesLast30d == 0.0
    ensures r.Some? ==> r.value * p.matchesLast30d == p.minutesLast30d
  {
    SafeDivide(p.minutesLast30d, p.matchesLast30d)
  }

  /** Travel kilometres per match; missing for a player with no matches. */
  function TravelBurdenOf(p: PlayerRecord): (r: Option<real>)
    ensures r.None? <==> p.matchesLast30d == 0.0
    ensures r.Some? ==> r.value * p.matchesLast30d == p.travelKmLast30d
  {
    SafeDivide(p.travelKmLast30d, p.matchesLast30d)
  }

  /** Weighted mix of muscle fatigue and sleep deficit. It has no
      denominator, so it is never missing; for inputs on their documented
      scales it stays within [0, 1]. */
  function FatigueScoreOf(p: PlayerRecord): (s: real)
    ensures 0.0 <= p.muscleFatigueIndex <= 1.0 && 0.0 <= p.sleepQuality <= 10.0
            ==> 0.0 <= s <= 1.0
  {
    p.muscleFatigueIndex * 0.6 + (10.0 - p.sleepQuality) * 0.4 / 10.0
  }

  /** All six derived values of one record. */
  function Derive(p: PlayerRecord): Derived
  {
    Derived(
      AcuteLoadOf(p),
      ChronicLoadOf(p),
      AcuteChronicRatioOf(p),
      MatchIntensityOf(p),
      TravelBurdenOf(p),
      FatigueScoreOf(p))
  }

  /** The cell a derived record puts into column `c`. */
  function CellOf(d: Derived, c: Column): Cell
  {
    match c
    case AcuteLoad => Some(d.acuteLoad)
    case ChronicLoad => Some(d.chronicLoad)
    case AcuteChronicRatio => d.acuteChronicRatio
    case MatchIntensity => d.matchIntensity
    case TravelBurden => d.travelBurden
    case FatigueScore => Some(d.fatigueScore)
  }

  /** The derived record laid out as the six columns of a row. */
  function Cells(d: Derived): (m: map<Column, Cell>)
  {
    map c | c in AllColumns :: CellOf(d, c)
  }

  // ---------------------------------------------------------------------
  // Frame steps
  // ---------------------------------------------------------------------

  const WorkloadColumns: set<Column> := {AcuteLoad, ChronicLoad, AcuteChronicRatio, MatchIntensity}
  const TravelColumns: set<Column> := {TravelBurden}
  const FatigueColumns: set<Column> := {FatigueScore}
  const AllColumns: set<Column> := WorkloadColumns + TravelColumns + FatigueColumns

  /** `r'` is a copy of `r` in which exactly the columns `cols` are (re)written
      with the record's derived values: the base record and every other
      column are as they were. */
  ghost predicate WritesOnly(r: Row, r': Row, cols: set<Column>)
  {
    && r'.base == r.base
    && r'.cells.Keys == r.cells.Keys + cols
    && (forall c :: c in cols ==> r'.cells[c] == CellOf(Derive(r.base), c))
    && (forall c :: c in r.cells && c !in cols ==> r'.cells[c] == r.cells[c])
  }

  /** Adds acute load, chronic load, their ratio and match intensity. */
  function AddWorkloadRatios(r: Row): (r': Row)
    ensures WritesOnly(r, r', WorkloadColumns)
  {
    var p := r.base;
    Row(p, r.cells[AcuteLoad := Some(AcuteLoadOf(p))]
                  [ChronicLoad := Some(ChronicLoadOf(p))]
                  [AcuteChronicRatio := AcuteChronicRatioOf(p)]
                  [MatchIntensity := MatchIntensityOf(p)])
  }

  /** Adds travel burden. */
  function AddTravelBurden(r: Row): (r': Row)
    ensures WritesOnly(r, r', TravelColumns)
  {
    Row(r.base, r.cells[TravelBurden := TravelBurdenOf(r.base)])
  }

  /** Adds the fatigue score. */
  function AddFatigueScore(r: Row): (r': Row)
    ensures WritesOnly(r, r', FatigueColumns)
  {
    Row(r.base, r.cells[FatigueScore := Some(FatigueScoreOf(r.base))])
  }

  /** Between them the three steps write every column. */
  lemma EveryColumnIsWritten()
    ensures forall c: Column :: c in AllColumns
  {
    forall c: Column ensures c in AllColumns {
      match c
      case AcuteLoad =>
      case ChronicLoad =>
      case AcuteChronicRatio =>
      case MatchIntensity =>
      case TravelBurden =>
      case FatigueScore =>
    }
  }

  /** The three steps in the source's order. Whatever derived columns the
      row held before (none, some, or stale ones) are replaced: the result
      holds exactly the six columns of the typed derivation of the base
      record, and the base record is untouched. */
  function BuildFeatures(r: Row): (r': Row)
    ensures r'.base == r.base
    ensures r'.cells == Cells(Derive(r.base))
  {
    var r' := AddFatigueScore(AddTravelBurden(AddWorkloadRatios(r)));
    EveryColumnIsWritten();
    r'
  }

  /** `build_features` over a whole frame: same length, same order, each
      row's base unchanged, each row's derived columns a function of its
      base record alone. */
  function BuildFeaturesFrame(f: seq<Row>): (g: seq<Row>)
    ensures |g| == |f|
    ensures forall i :: 0 <= i < |f| ==> g[i].base == f[i].base
    ensures forall i :: 0 <= i < |f| ==> g[i].cells == Cells(Derive(f[i].base))
  {
    seq(|f|, i requires 0 <= i < |f| => BuildFeatures(f[i]))
  }

  // ---------------------------------------------------------------------
  // Properties
  // ---------------------------------------------------------------------

  /** Running the derivation on its own output reproduces it: the second
      pass reads only the base columns, which the first pass left alone. */
  lemma BuildFeaturesIdempotent(f: seq<Row>)
    ensures BuildFeaturesFrame(BuildFeaturesFrame(f)) == BuildFeaturesFrame(f)
  {
  }

  /** The derived values depend on nothing but the five base columns the
      formulas read: not on identity, position, the label, or any derived
      column already present. */
  lemma DeriveReadsOnlyWorkload(p: PlayerRecord, q: PlayerRecord)
    requires SameWorkload(p, q)
    ensures Derive(p) == Derive(q)
  {
  }

  /** Training and prediction both call the same derivation; two frames
      whose rows agree on the workload columns (a labelled training frame
      and an unlabelled scoring frame, say) receive identical derived
      columns, row by row. */
  lemma TrainingAndPredictionAgree(train: seq<Row>, score: seq<Row>)
    requires |train| == |score|
    requires forall i :: 0 <= i < |train| ==> SameWorkload(train[i].base, score[i].base)
    ensures forall i :: 0 <= i < |train| ==>
              BuildFeaturesFrame(train)[i].cells == BuildFeaturesFrame(score)[i].cells
  {
  }

  /** More muscle fatigue or less sleep never lowers the fatigue score. */
  lemma FatigueScoreMonotone(p: PlayerRecord, q: PlayerRecord)
    requires p.muscleFatigueIndex <= q.muscleFatigueIndex
    requires q.sleepQuality <= p.sleepQuality
    ensures FatigueScoreOf(p) <= FatigueScoreOf(q)
  {
  }

  /** A player with no matches gets missing match intensity and travel
      burden, and every other derived column is still present and defined
      where its own denominator allows. */
  lemma ZeroMatchesGivesMissingPerMatchValues(r: Row)
    requires r.base.matchesLast30d == 0.0
    ensures BuildFeatures(r).cells[MatchIntensity].None?
    ensures BuildFeatures(r).cells[TravelBurden].None?
    ensures BuildFeatures(r).cells[FatigueScore].Some?
    ensures BuildFeatures(r).cells[AcuteChronicRatio].Some? <==> r.base.minutesLast30d != 0.0
  {
  }
}
