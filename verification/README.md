# Football injury analytics: feature derivation, biomechanical flags, source combination

This project is a Dafny model of three pure stages of a football
injury-risk tool:

- **Feature derivation** (`src/features/engineering.py`). From a player's
  raw workload metrics it derives acute load, chronic load, the
  acute/chronic ratio, match intensity, travel burden and a fatigue score.
  A ratio whose denominator is zero holds the missing marker, not an error.
- **Biomechanical flagging** (`src/biomech/risk.py`). It compares the
  ratio, the sprint share of total distance and the fatigue score against
  configured thresholds. That gives three flags, and the risk score is the
  fraction of flags raised.
- **Source combination** (`src/data/sources.py`). It fetches a list of data
  sources in order, skips the empty frames, and concatenates the rest
  under a fresh index `0 .. n-1`.

Files:

- `wrappers.dfy`: `Option` (a cell that may be missing) and `Result` (an
  operation that may raise).
- `features.dfy`: module `Features`. A frame is a `seq<Row>`, and each
  `Row` holds the raw `PlayerRecord` and a map from derived `Column` to
  `Option<real>` cell. A typed `Derived` record is the reference for what
  the three frame steps write.
- `biomech.dfy`: module `Biomech`. Thresholds come from a configuration
  map. A missing column or threshold key is a `Failure`, as the source's
  `KeyError` is.
- `sources.dfy`: module `Sources`. A frame is an index and a sequence of
  rows of an opaque row type. `combine_sources` is a method whose loop
  follows the source's loop.

All arithmetic is exact `real` arithmetic in place of IEEE doubles.

The training path (`src/models/train.py:24`) and the prediction path
(`src/models/predict.py:10`) both call `build_features`.
`Features.TrainingAndPredictionAgree` states that they see identical
derived columns for rows that agree on the workload fields.

A scenario written for this system says that a record with
`matches_last_30d = 0` has `flag_workload_spike` false. The code computes
that flag from `sprint_distance_km / total_distance_km` and never looks at
the match count. So a player with no matches but a positive total distance
can still be flagged. The model follows the code, and
`Biomech.ZeroMatchesDoesNotSuppressSpike` states when the flag is raised.

## Model

| member | source | states |
|---|---|---|
| `Features.SafeDivide` | src/features/engineering.py:12 | dividing by a column after `replace(0, pd.NA)` yields missing exactly when the denominator is zero; otherwise the quotient times the denominator gives back the numerator |
| `Features.AcuteLoadOf` | src/features/engineering.py:9 | acute load is the 30-day minutes spread over 30 days: times 30 it gives back the minutes |
| `Features.ChronicLoadOf` | src/features/engineering.py:10 | chronic load times 90 gives back the minutes; it is zero exactly when the minutes are zero, and acute load is three times it |
| `Features.AcuteChronicRatioOf` | src/features/engineering.py:11 | the ratio is missing if and only if the minutes are zero, and is exactly 3 otherwise; a zero denominator never raises |
| `Features.MatchIntensityOf` | src/features/engineering.py:12 | match intensity is missing if and only if there were no matches; otherwise it times the match count gives the minutes |
| `Features.TravelBurdenOf` | src/features/engineering.py:18 | travel burden is missing if and only if there were no matches; otherwise it times the match count gives the travel kilometres |
| `Features.FatigueScoreOf` | src/features/engineering.py:24-26 | the fatigue score is never missing, and lies in [0, 1] when the fatigue index is in [0, 1] and sleep quality is in [0, 10] |
| `Features.AddWorkloadRatios` | src/features/engineering.py:7-13 | the step works on a copy: it writes exactly the acute load, chronic load, ratio and match intensity columns with the record's derived values, and leaves the base record and every other column unchanged |
| `Features.AddTravelBurden` | src/features/engineering.py:16-19 | writes only the travel burden column; the base record and every other column are unchanged |
| `Features.AddFatigueScore` | src/features/engineering.py:22-27 | writes only the fatigue score column; the base record and every other column are unchanged |
| `Features.BuildFeatures` | src/features/engineering.py:30-34 | the three steps in order never fail and leave the base record unchanged; whatever derived columns the row held before, the result holds exactly the six columns of the typed derivation of its base record |
| `Features.BuildFeaturesFrame` | src/features/engineering.py:30-34 | over a whole frame, length and order are kept, every base record is unchanged, and every row's derived columns depend on its base record alone |
| `Features.BuildFeaturesIdempotent` | src/features/engineering.py:30-34 | deriving features from an already derived frame reproduces that frame |
| `Features.DeriveReadsOnlyWorkload` | src/features/engineering.py:9-26 | two records that agree on minutes, matches, travel, fatigue index and sleep quality get identical derived values, whatever their identity, position or label |
| `Features.TrainingAndPredictionAgree` | src/models/train.py:24 | a training frame and a prediction frame whose rows agree on the workload fields get identical derived columns, row by row |
| `Features.FatigueScoreMonotone` | src/features/engineering.py:24-26 | the fatigue score does not decrease as the fatigue index rises and does not increase as sleep quality rises |
| `Features.ZeroMatchesGivesMissingPerMatchValues` | src/features/engineering.py:11-18 | with zero matches, match intensity and travel burden are missing and the fatigue score is present; the ratio is present exactly when the minutes are non-zero |
| `Biomech.FlagsOf` | src/biomech/risk.py:9-13 | the acute/chronic flag is raised if and only if the ratio is present and at least its threshold; the spike flag if and only if total distance is non-zero and the sprint share is at least its threshold; the fatigue flag if and only if the score is present and at least its threshold |
| `Biomech.RiskScore` | src/biomech/risk.py:14-16 | the score is one of 0, 1/3, 2/3 and 1, so it lies in [0, 1]; it is 0 exactly when no flag is raised, 1/3 exactly when one is, 2/3 exactly when two are, and 1 exactly when all three are |
| `Biomech.ComputeBiomechFlags` | src/biomech/risk.py:7-17 | it succeeds if and only if every row has the ratio and fatigue columns and all three threshold keys are present, and it reports the first lookup that fails in the source's order; on success every input row is kept unchanged and in order, and gains flags that mean what the thresholds say and a score equal to the flag count over three |
| `Biomech.RaisingThresholdsLowersScore` | src/biomech/risk.py:9-16 | raising any threshold never turns a flag from false to true, so the score never goes up |
| `Biomech.DerivedFramesHaveScoredColumns` | src/biomech/risk.py:9-13 | a frame produced by the feature derivation always has the columns the scorer reads, so scoring it fails only for a missing threshold key |
| `Biomech.ZeroMatchesDoesNotSuppressSpike` | src/biomech/risk.py:10-12 | a player with no matches has missing per-match features but still gets the spike flag when the sprint share reaches its threshold |
| `Sources.Fetch` | src/data/sources.py:16-53 | the base source, and only the base source, raises `NotImplementedError`; the three stubs yield an empty frame; a local CSV source succeeds exactly when reading its file does |
| `Sources.AllRowsLength` | src/data/sources.py:64 | the concatenated rows number as many as the frames' row counts added up |
| `Sources.NonEmptyKeepsRows` | src/data/sources.py:60-61 | skipping empty frames changes neither the concatenated rows nor their order |
| `Sources.NonEmptySnoc` | src/data/sources.py:58-61 | each loop step appends the fetched frame to the kept list exactly when the frame has rows |
| `Sources.NonEmptyOfEmpties` | src/data/sources.py:62-63 | no frame is kept exactly when no fetched frame has a row |
| `Sources.AllRowsSlice` | src/data/sources.py:64 | in the concatenation, the rows of frame `k` form one contiguous slice that starts after all rows of the frames before it |
| `Sources.Concat` | src/data/sources.py:64 | concatenation with `ignore_index=True` has as many rows as the frames together; each frame's rows appear, in their own order, as one slice placed after the rows of the frames before it; the index is `0 .. n-1` |
| `Sources.CombineFrames` | src/data/sources.py:57-64 | combining fetched frames gives their rows in order with empty frames skipped, a row count equal to the sum of their counts, and the index `0 .. n-1`; with no rows anywhere the result is the empty frame |
| `Sources.CombineSources` | src/data/sources.py:56-64 | fetching in order, the call succeeds if and only if every fetch does; otherwise it fails with the error of the first source whose fetch raises; on success it returns the combination of the fetched frames |
| `Sources.StubSourcesCombineToEmpty` | src/data/sources.py:36-53 | a list made only of stub sources fetches without error and combines to an empty frame |

## Left out

- `app/main.py`: the Streamlit dashboard, widget flow and YAML configuration loading are UI and I/O.
- `src/models/train.py` and `src/models/predict.py`: the split, scaling, one-hot encoding, gradient boosting and metrics are scikit-learn calls on floats. Only their shared call to `build_features` is modelled, through `Features.TrainingAndPredictionAgree`.
- `src/data/synthetic.py`: random generation and float numerics.
- `src/data/loader.py` and the body of `LocalCSVSource.fetch`: reading a CSV file is I/O. It is the `readCsv` parameter of `Sources.Fetch`, and its failures are a `ReadFailed` error.
- IEEE doubles: every quantity is an exact `real`. In doubles the acute/chronic ratio can differ from 3 in the last place, and a tiny non-zero minute count can make chronic load underflow to zero. NaN inputs are not modelled.
- Base columns: `PlayerRecord` is a typed record, so the `KeyError` for an absent base column (for example `minutes_last_30d`) cannot arise in the model.
- Biomech.ComputeBiomechFlags: derived columns are tracked per row, not per frame. An empty frame that lacks the ratio or fatigue column is a success with no rows in the model. pandas would raise `KeyError` for it.
- Biomech.ComputeBiomechFlags: flag columns already present in the input frame are not modelled. The scored row keeps the input row and carries the new flags and score beside it.
- Threshold values are reals. A non-numeric threshold in the configuration is not modelled.
- Sources.CombineFrames: a frame counts as empty when it has no rows. A pandas frame with rows but no columns is also empty, and column alignment in `pd.concat` (filling missing columns with NaN) is not modelled, because rows are opaque.
