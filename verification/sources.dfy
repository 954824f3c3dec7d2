/** Data sources and their combination (src/data/sources.py).

    A frame is an index and a sequence of rows of an opaque row type `R`;
    a frame is empty when it has no rows. Reading a CSV file is I/O and is
    passed in as the function `readCsv`. */
module Sources {
  import opened Wrappers

  datatype Frame<R> = Frame(index: seq<int>, rows: seq<R>)

  /** `pd.DataFrame()`: no index entries, no rows. */
  function EmptyFrame<R>(): Frame<R>
  {
    Frame([], [])
  }

  /** The exceptions a fetch can raise. */
  datatype FetchError =
    | NotImplemented
    | ReadFailed(path: string, reason: string)

  /** Which kind of source a `DataSource` is; `Base` is the abstract class itself. */
  datatype SourceKind =
    | Base
    | LocalCsv(path: string)
    | TransfermarktStub
    | UefaStub
    | ClubMedicalStub
  {
    /** The three placeholder sources. */
    predicate IsStub() {
      TransfermarktStub? || UefaStub? || ClubMedicalStub?
    }
  }

  datatype DataSource = DataSource(name: string, description: string, kind: SourceKind)

  /** `source.fetch()`. The base class raises `NotImplementedError`, the
      stubs yield an empty frame, a local CSV source yields what reading its
      file yields. */
  function Fetch<R>(s: DataSource, readCsv: string -> Result<Frame<R>, string>)
    : (r: Result<Frame<R>, FetchError>)
    ensures r == Failure(NotImplemented) <==> s.kind.Base?
    ensures s.kind.IsStub() ==> r == Success(EmptyFrame())
    ensures s.kind.LocalCsv? ==> (r.Success? <==> readCsv(s.kind.path).Success?)
  {
    match s.kind
    case Base => Failure(NotImplemented)
    case LocalCsv(path) =>
      (match readCsv(path)
       case Success(f) => Success(f)
       case Failure(reason) => Failure(ReadFailed(path, reason)))
    case _ => Success(EmptyFrame())
  }

  // ---------------------------------------------------------------------
  // Reference definitions
  // ---------------------------------------------------------------------

  /** The rows of all frames, frame after frame, each in its own order. */
  function AllRows<R>(frames: seq<Frame<R>>): seq<R>
  {
    if |frames| == 0 then [] else frames[0].rows + AllRows(frames[1..])
  }

  /** The sum of the frames' row counts. */
  function TotalRows<R>(frames: seq<Frame<R>>): nat
  {
    if |frames| == 0 then 0 else |frames[0].rows| + TotalRows(frames[1..])
  }

  /** The frames that have at least one row, in their original order. */
  function NonEmpty<R>(frames: seq<Frame<R>>): seq<Frame<R>>
  {
    if |frames| == 0 then []
    else (if |frames[0].rows| == 0 then [] else [frames[0]]) + NonEmpty(frames[1..])
  }

  /** `0, 1, ..., n - 1`. */
  function Range(n: nat): seq<int>
  {
    seq(n, i requires 0 <= i < n => i)
  }

  /** The index is exactly `0 .. n - 1` for the frame's `n` rows. */
  predicate FreshIndex<R>(f: Frame<R>)
  {
    |f.index| == |f.rows| && forall i :: 0 <= i < |f.index| ==> f.index[i] == i
  }

  // ---------------------------------------------------------------------
  // Lemmas about the reference definitions
  // ---------------------------------------------------------------------

  lemma {:induction false} AllRowsLength<R>(frames: seq<Frame<R>>)
    ensures |AllRows(frames)| == TotalRows(frames)
  {
    if |frames| > 0 {
      AllRowsLength(frames[1..]);
    }
  }

  /** Dropping empty frames changes neither the rows nor their order. */
  lemma {:induction false} NonEmptyKeepsRows<R>(frames: seq<Frame<R>>)
    ensures AllRows(NonEmpty(frames)) == AllRows(frames)
  {
    if |frames| > 0 {
      NonEmptyKeepsRows(frames[1..]);
      var rest := NonEmpty(frames[1..]);
      if |frames[0].rows| != 0 {
        assert NonEmpty(frames) == [frames[0]] + rest;
        assert ([frames[0]] + rest)[1..] == rest;
      } else {
        assert NonEmpty(frames) == rest;
      }
    }
  }

  /** Filtering a sequence extended by one frame extends the filtered
      sequence by that frame, unless it is empty. */
  lemma {:induction false} NonEmptySnoc<R>(frames: seq<Frame<R>>, f: Frame<R>)
    ensures NonEmpty(frames + [f]) == NonEmpty(frames) + (if |f.rows| == 0 then [] else [f])
  {
    if |frames| == 0 {
      assert frames + [f] == [f];
      assert [f][1..] == [];
    } else {
      assert (frames + [f])[0] == frames[0];
      assert (frames + [f])[1..] == frames[1..] + [f];
      NonEmptySnoc(frames[1..], f);
    }
  }

  /** Nothing survives the filter exactly when no frame has a row. */
  lemma {:induction false} NonEmptyOfEmpties<R>(frames: seq<Frame<R>>)
    ensures (forall i :: 0 <= i < |frames| ==> |frames[i].rows| == 0) <==> NonEmpty(frames) == []
  {
    if |frames| > 0 {
      assert forall j :: 0 <= j < |frames| - 1 ==> frames[1..][j] == frames[j + 1];
      NonEmptyOfEmpties(frames[1..]);
    }
  }

  // ---------------------------------------------------------------------
  // Combination
  // ---------------------------------------------------------------------

  /** Where frame `k`'s rows start in the concatenation: after all rows of
      the frames before it. */
  function Offset<R>(frames: seq<Frame<R>>, k: nat): nat
    requires k <= |frames|
  {
    TotalRows(frames[..k])
  }

  /** The rows of frame `k` sit in the concatenation as one contiguous
      slice starting at its offset. */
  lemma {:induction false} AllRowsSlice<R>(frames: seq<Frame<R>>, k: nat)
    requires k < |frames|
    ensures Offset(frames, k) + |frames[k].rows| <= |AllRows(frames)|
    ensures AllRows(frames)[Offset(frames, k)..Offset(frames, k) + |frames[k].rows|] == frames[k].rows
  {
    AllRowsLength(frames);
    AllRowsLength(frames[1..]);
    if k == 0 {
      assert frames[..0] == [];
    } else {
      assert frames[..k][1..] == frames[1..][..k - 1];
      assert frames[..k][0] == frames[0];
      AllRowsSlice(frames[1..], k - 1);
    }
  }

  /** `pd.concat(frames, ignore_index=True)`: as many rows as the frames
      hold together, each frame's rows as one slice placed after the rows
      of the frames before it, under a fresh index. */
  function Concat<R>(frames: seq<Frame<R>>): (r: Frame<R>)
    ensures |r.rows| == TotalRows(frames)
    ensures forall k :: 0 <= k < |frames| ==>
              Offset(frames, k) + |frames[k].rows| <= |r.rows|
              && r.rows[Offset(frames, k)..Offset(frames, k) + |frames[k].rows|] == frames[k].rows
    ensures FreshIndex(r)
  {
    AllRowsLength(frames);
    forall k | 0 <= k < |frames|
      ensures Offset(frames, k) + |frames[k].rows| <= |AllRows(frames)|
              && AllRows(frames)[Offset(frames, k)..Offset(frames, k) + |frames[k].rows|] == frames[k].rows
    {
      AllRowsSlice(frames, k);
    }
    var rows := AllRows(frames);
    Frame(Range(|rows|), rows)
  }

  /** Lines 57-64 applied to frames already fetched: empty frames are
      skipped, the rest are concatenated in order under a fresh index,
      and with nothing left the result is an empty frame. */
  function CombineFrames<R>(frames: seq<Frame<R>>): (r: Frame<R>)
    ensures r.rows == AllRows(frames)
    ensures |r.rows| == TotalRows(frames)
    ensures FreshIndex(r)
    ensures (forall i :: 0 <= i < |frames| ==> |frames[i].rows| == 0) ==> r == EmptyFrame()
  {
    NonEmptyKeepsRows(frames);
    AllRowsLength(frames);
    NonEmptyOfEmpties(frames);
    var kept := NonEmpty(frames);
    if |kept| == 0 then EmptyFrame() else Concat(kept)
  }

  /** Every source fetches without raising. */
  predicate AllFetch<R>(sources: seq<DataSource>, readCsv: string -> Result<Frame<R>, string>)
  {
    forall i :: 0 <= i < |sources| ==> Fetch(sources[i], readCsv).Success?
  }

  /** Source `i` is the first whose fetch raises. */
  predicate FirstFailure<R>(sources: seq<DataSource>, readCsv: string -> Result<Frame<R>, string>, i: int)
  {
    && 0 <= i < |sources|
    && Fetch(sources[i], readCsv).Failure?
    && forall j :: 0 <= j < i ==> Fetch(sources[j], readCsv).Success?
  }

  /** The frames the sources fetch, one per source, in order (an empty frame
      stands in for a fetch that raised). */
  function FetchedFrames<R>(sources: seq<DataSource>, readCsv: string -> Result<Frame<R>, string>)
    : (fs: seq<Frame<R>>)
    ensures |fs| == |sources|
  {
    seq(|sources|, i requires 0 <= i < |sources| =>
      match Fetch(sources[i], readCsv)
      case Success(f) => f
      case Failure(_) => EmptyFrame())
  }

  /** `combine_sources`. Fetches the sources in order; the first fetch that
      raises ends the call with its error. Otherwise the result is the
      combination of the fetched frames: their rows in order with empty
      frames skipped, as many rows as all frames together, a fresh index,
      and an empty frame when no source yields a row. */
  method CombineSources<R>(sources: seq<DataSource>, readCsv: string -> Result<Frame<R>, string>)
    returns (r: Result<Frame<R>, FetchError>)
    ensures r.Success? <==> AllFetch(sources, readCsv)
    ensures r.Failure? ==>
              exists i :: FirstFailure(sources, readCsv, i) && r.error == Fetch(sources[i], readCsv).error
    ensures r.Success? ==> r.value == CombineFrames(FetchedFrames(sources, readCsv))
  {
    var frames: seq<Frame<R>> := [];
    var k := 0;
    while k < |sources|
      invariant 0 <= k <= |sources|
      invariant AllFetch(sources[..k], readCsv)
      invariant frames == NonEmpty(FetchedFrames(sources[..k], readCsv))
    {
      var fetched := Fetch(sources[k], readCsv);
      if fetched.Failure? {
        assert FirstFailure(sources, readCsv, k);
        return Failure(fetched.error);
      }
      var frame := fetched.value;
      assert FetchedFrames(sources[..k + 1], readCsv) == FetchedFrames(sources[..k], readCsv) + [frame];
      NonEmptySnoc(FetchedFrames(sources[..k], readCsv), frame);
      if |frame.rows| != 0 {
        frames := frames + [frame];
      }
      k := k + 1;
    }
    assert sources[..k] == sources;
    if |frames| == 0 {
      return Success(EmptyFrame());
    }
    return Success(Concat(frames));
  }

  /** Sources that are all stubs fetch without raising and combine to an
      empty frame. */
  lemma StubSourcesCombineToEmpty<R>(sources: seq<DataSource>, readCsv: string -> Result<Frame<R>, string>)
    requires forall i :: 0 <= i < |sources| ==> sources[i].kind.IsStub()
    ensures AllFetch(sources, readCsv)
    ensures CombineFrames(FetchedFrames(sources, readCsv)) == EmptyFrame()
  {
  }
}
