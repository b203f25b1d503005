/**
 The batched utility cache of engine/capital_rotation.py (_precompute_model_utilities) against the
 per-date utility function (_model_utilities).

 Main result: for row-wise predictors and frames with unique dates, every cached row is the row the
 per-date function computes, so answering from the cache and answering without it are the same
 (CachedAnswer), and the only difference is a symbol without a frame, which the batch leaves out and
 the per-date function refuses.
 */
module UtilityCache {
  import opened Common
  import opened RotationPolicy

  /** One session's row of a frame: the feature vector, unless a feature is missing, and prices
      unless they are not finite numbers. */
  datatype Bar = Bar(features: Option<seq<real>>, open: Option<real>, close: Option<real>)

  datatype Frame = Frame(index: seq<int>, bars: seq<Bar>)

  /** A fitted model predicts a batch of feature rows. */
  type Model = seq<seq<real>> -> seq<real>

  ghost predicate Unique(s: seq<int>) {
    forall i, j :: 0 <= i < j < |s| ==> s[i] != s[j]
  }

  ghost predicate ValidFrame(f: Frame) { |f.index| == |f.bars| && Unique(f.index) }

  /** The prediction for one row on its own. */
  function Predict(m: Model, row: seq<real>): real {
    var answer := m([row]);
    if |answer| == 1 then answer[0] else 0.0
  }

  ghost predicate PerRow(m: Model, batch: seq<seq<real>>) {
    |m(batch)| == |batch| && forall i :: 0 <= i < |batch| ==> m(batch)[i] == Predict(m, batch[i])
  }

  /** A prediction for a row does not depend on the rows it is batched with. */
  ghost predicate RowWise(m: Model) {
    forall batch: seq<seq<real>> :: PerRow(m, batch)
  }

  ghost predicate Valid(models: map<string, Model>, frames: map<string, Frame>) {
    && (forall s :: s in frames ==> ValidFrame(frames[s]))
    && (forall s :: s in models ==> RowWise(models[s]))
  }

  predicate Positive(price: Option<real>) { price.Some? && price.value > 0.0 }

  /** The session after row k can be traded. */
  predicate MarketOk(f: Frame, k: nat)
    requires k + 1 < |f.bars|
  {
    Positive(f.bars[k + 1].open) && Positive(f.bars[k + 1].close)
  }

  /** The row a date has a usable prediction from. */
  predicate Usable(f: Frame, date: int, k: nat) {
    k + 1 < |f.index| && |f.index| == |f.bars| && f.index[k] == date && f.bars[k].features.Some? && MarketOk(f, k)
  }

  /** What a model's utility on a date should be. */
  ghost function RowUtility(m: Model, f: Frame, date: int): Utility {
    if exists k: nat :: Usable(f, date, k) then
      var k: nat :| Usable(f, date, k);
      Fin(Predict(m, f.bars[k].features.value))
    else NegInf
  }

  lemma RowUtilityAt(m: Model, f: Frame, date: int, k: nat)
    requires ValidFrame(f) && k < |f.index| && f.index[k] == date
    ensures RowUtility(m, f, date) == if Usable(f, date, k) then Fin(Predict(m, f.bars[k].features.value)) else NegInf
    ensures RowUtility(m, f, date).Fin? <==>
              && f.bars[k].features.Some? && k + 1 < |f.bars|
              && f.bars[k + 1].open.Some? && f.bars[k + 1].open.value > 0.0
              && f.bars[k + 1].close.Some? && f.bars[k + 1].close.value > 0.0
  {
    hide Predict;
    assert forall other: nat :: Usable(f, date, other) ==> other == k;
  }

  lemma NoUsableRow(m: Model, f: Frame, date: int)
    requires forall k: nat :: !Usable(f, date, k)
    ensures RowUtility(m, f, date) == NegInf
  {
  }

  /** One entry of the utility vector; minus infinity without a model or a frame. */
  ghost function Cell(models: map<string, Model>, frames: map<string, Frame>, symbol: string, date: int): Utility {
    if symbol in models && symbol in frames then RowUtility(models[symbol], frames[symbol], date) else NegInf
  }

  /** row is the utility vector of the date: cash, then the symbols in order. */
  ghost predicate IsUtilities(models: map<string, Model>, frames: map<string, Frame>, symbols: seq<string>, date: int,
                              row: seq<Utility>)
  {
    |row| == |symbols| + 1 && row[0] == Fin(0.0)
    && forall c :: 1 <= c < |row| ==> row[c] == Cell(models, frames, symbols[c - 1], date)
  }

  // ---------------------------------------------------------------- the per-date function

  function Locate(index: seq<int>, date: int): (location: int)
    ensures -1 <= location < |index|
    ensures location >= 0 ==> index[location] == date
    ensures location < 0 ==> date !in index
  {
    if index == [] then -1
    else if index[|index| - 1] == date then |index| - 1
    else Locate(index[..|index| - 1], date)
  }

  datatype Error = NoFrame

  ghost predicate Complete(symbols: seq<string>, frames: map<string, Frame>) {
    forall c :: 0 <= c < |symbols| ==> symbols[c] in frames
  }

  /** _model_utilities without a cache. */
  method PerDate(models: map<string, Model>, frames: map<string, Frame>, symbols: seq<string>, date: int)
    returns (row: Result<seq<Utility>, Error>)
    requires Valid(models, frames)
    ensures row.Err? <==> !Complete(symbols, frames)
    ensures row.Ok? ==> IsUtilities(models, frames, symbols, date, row.value)
  {
    var values := [Fin(0.0)];
    for c := 0 to |symbols|
      invariant |values| == c + 1 && values[0] == Fin(0.0)
      invariant forall i :: 0 <= i < c ==> symbols[i] in frames
      invariant forall i :: 1 <= i <= c ==> values[i] == Cell(models, frames, symbols[i - 1], date)
    {
      var symbol := symbols[c];
      if symbol !in frames {
        return Err(NoFrame);
      }
      var value := NegInf;
      var frame := frames[symbol];
      assert ValidFrame(frame);
      var location := Locate(frame.index, date);
      if symbol in models && location >= 0 {
        RowUtilityAt(models[symbol], frame, date, location);
        if frame.bars[location].features.Some? && location + 1 < |frame.index| && MarketOk(frame, location) {
          var batch := [frame.bars[location].features.value];
          var prediction := models[symbol](batch);
          assert RowWise(models[symbol]) && PerRow(models[symbol], batch);
          value := Fin(prediction[0]);
        }
      }
      values := values + [value];
    }
    return Ok(values);
  }

  // ---------------------------------------------------------------- masks and index lists

  /** The positions where the mask is set, in order. */
  function FlatNonZero(mask: seq<bool>): (rows: seq<nat>)
    ensures forall r: nat :: r in rows <==> r < |mask| && mask[r]
    ensures forall i, j :: 0 <= i < j < |rows| ==> rows[i] < rows[j]
    ensures forall i :: 0 <= i < |rows| ==> rows[i] < |mask|
  {
    if mask == [] then []
    else
      var last := |mask| - 1;
      var before := FlatNonZero(mask[..last]);
      if mask[last] then before + [last] else before
  }

  function Gather<T>(values: seq<T>, rows: seq<nat>): (picked: seq<T>)
    requires forall i :: 0 <= i < |rows| ==> rows[i] < |values|
    ensures |picked| == |rows| && forall i :: 0 <= i < |rows| ==> picked[i] == values[rows[i]]
  {
    if rows == [] then [] else [values[rows[0]]] + Gather(values, rows[1..])
  }

  /** The row of each date, or -1. */
  function GetIndexer(index: seq<int>, dates: seq<int>): (locations: seq<int>)
    ensures |locations| == |dates| && forall r :: 0 <= r < |dates| ==> locations[r] == Locate(index, dates[r])
  {
    if dates == [] then [] else [Locate(index, dates[0])] + GetIndexer(index, dates[1..])
  }

  /** Dates with a row that is not the last. */
  function CandidateMask(locations: seq<int>, n: nat): (mask: seq<bool>)
    ensures |mask| == |locations|
    ensures forall r :: 0 <= r < |mask| ==> (mask[r] <==> 0 <= locations[r] && locations[r] + 1 < n)
  {
    if locations == [] then []
    else [0 <= locations[0] && locations[0] + 1 < n] + CandidateMask(locations[1..], n)
  }

  /** Rows with all features and a tradable next session. */
  function ValidMask(f: Frame, positions: seq<int>): (mask: seq<bool>)
    requires forall i :: 0 <= i < |positions| ==> 0 <= positions[i] && positions[i] + 1 < |f.bars|
    ensures |mask| == |positions|
    ensures forall i :: 0 <= i < |mask| ==>
              (mask[i] <==> f.bars[positions[i]].features.Some? && MarketOk(f, positions[i]))
  {
    if positions == [] then []
    else [f.bars[positions[0]].features.Some? && MarketOk(f, positions[0])] + ValidMask(f, positions[1..])
  }

  function FeatureRows(f: Frame, positions: seq<int>): (batch: seq<seq<real>>)
    requires forall i :: 0 <= i < |positions| ==> 0 <= positions[i] < |f.bars| && f.bars[positions[i]].features.Some?
    ensures |batch| == |positions|
    ensures forall i :: 0 <= i < |batch| ==> batch[i] == f.bars[positions[i]].features.value
  {
    if positions == [] then [] else [f.bars[positions[0]].features.value] + FeatureRows(f, positions[1..])
  }

  /** Indexing by a mask keeps exactly the entries where it is set, in order. */
  lemma PickedWhereSet(candidates: seq<nat>, mask: seq<bool>)
    requires |mask| == |candidates|
    requires forall i, j :: 0 <= i < j < |candidates| ==> candidates[i] < candidates[j]
    ensures forall i :: 0 <= i < |mask| && mask[i] ==> candidates[i] in Gather(candidates, FlatNonZero(mask))
    ensures forall r :: r in Gather(candidates, FlatNonZero(mask)) ==>
              exists i :: 0 <= i < |mask| && mask[i] && candidates[i] == r
    ensures var rows := Gather(candidates, FlatNonZero(mask)); forall i, j :: 0 <= i < j < |rows| ==> rows[i] < rows[j]
  {
    hide FlatNonZero, Gather;
    var chosen := FlatNonZero(mask);
    var rows := Gather(candidates, chosen);
    forall i | 0 <= i < |mask| && mask[i]
      ensures candidates[i] in rows
    {
      assert i in chosen;
      var j :| 0 <= j < |chosen| && chosen[j] == i;
      assert rows[j] == candidates[i];
    }
    forall r | r in rows
      ensures exists i :: 0 <= i < |mask| && mask[i] && candidates[i] == r
    {
      var j :| 0 <= j < |rows| && rows[j] == r;
      assert chosen[j] in chosen;
      assert mask[chosen[j]] && candidates[chosen[j]] == rows[j];
    }
    forall i, j | 0 <= i < j < |rows|
      ensures rows[i] < rows[j]
    {
      assert chosen[i] in chosen && chosen[j] in chosen;
      assert candidates[chosen[i]] < candidates[chosen[j]];
    }
  }

  lemma LocateUsable(f: Frame, date: int)
    requires ValidFrame(f)
    ensures var l := Locate(f.index, date);
            && (forall k: nat :: Usable(f, date, k) ==> k == l)
            && (l >= 0 && l + 1 < |f.index| && f.bars[l].features.Some? && MarketOk(f, l) ==> Usable(f, date, l))
  {
    hide Locate, MarketOk;
  }

  // ---------------------------------------------------------------- the batched cache

  /** The rows of the matrix whose date has a row with a successor. */
  function CandidateRows(f: Frame, dates: seq<int>): (rows: seq<nat>)
    ensures forall r: nat :: r in rows <==>
              r < |dates| && 0 <= Locate(f.index, dates[r]) && Locate(f.index, dates[r]) + 1 < |f.index|
    ensures forall i, j :: 0 <= i < j < |rows| ==> rows[i] < rows[j]
    ensures forall i :: 0 <= i < |rows| ==> rows[i] in rows
  {
    FlatNonZero(CandidateMask(GetIndexer(f.index, dates), |f.index|))
  }

  /** Which candidates have all features and a tradable next session. */
  function CandidateMaskValid(f: Frame, dates: seq<int>): (mask: seq<bool>)
    requires ValidFrame(f)
    ensures |mask| == |CandidateRows(f, dates)|
    ensures forall i :: 0 <= i < |mask| ==>
              (mask[i] <==> var r := CandidateRows(f, dates)[i]; r < |dates| && var l := Locate(f.index, dates[r]);
                            l >= 0 && Usable(f, dates[r], l))
  {
    hide FlatNonZero, CandidateMask, CandidateRows, Locate, MarketOk;
    ValidMask(f, Gather(GetIndexer(f.index, dates), CandidateRows(f, dates)))
  }

  /** The rows the batch predicts for. */
  function ValidRows(f: Frame, dates: seq<int>): (rows: seq<nat>)
    requires ValidFrame(f)
  {
    Gather(CandidateRows(f, dates), FlatNonZero(CandidateMaskValid(f, dates)))
  }

  lemma ValidRowsAreUsable(f: Frame, dates: seq<int>)
    requires ValidFrame(f)
    ensures var rows := ValidRows(f, dates);
            && (forall i, j :: 0 <= i < j < |rows| ==> rows[i] < rows[j])
            && (forall i :: 0 <= i < |rows| ==> rows[i] in rows)
            && (forall r :: r in rows ==>
                  && r < |dates| && Locate(f.index, dates[r]) >= 0
                  && Usable(f, dates[r], Locate(f.index, dates[r])))
  {
    hide FlatNonZero, Gather, CandidateRows, CandidateMaskValid, Locate, Usable;
    PickedWhereSet(CandidateRows(f, dates), CandidateMaskValid(f, dates));
  }

  lemma UsableRowsAreValid(f: Frame, dates: seq<int>, r: nat, k: nat)
    requires ValidFrame(f) && r < |dates| && Usable(f, dates[r], k)
    ensures r in ValidRows(f, dates)
  {
    hide FlatNonZero, Gather, CandidateRows, CandidateMaskValid, Locate, MarketOk;
    LocateUsable(f, dates[r]);
    PickedWhereSet(CandidateRows(f, dates), CandidateMaskValid(f, dates));
    assert r in CandidateRows(f, dates);
    var i :| 0 <= i < |CandidateRows(f, dates)| && CandidateRows(f, dates)[i] == r;
    assert CandidateMaskValid(f, dates)[i];
  }

  /** Fills one column of the matrix; every other column stays. */
  method FillColumn(matrix: array2<Utility>, column: nat, dates: seq<int>, models: map<string, Model>,
                    frames: map<string, Frame>, symbol: string)
    requires Valid(models, frames) && matrix.Length0 == |dates| && column < matrix.Length1
    requires forall r :: 0 <= r < |dates| ==> matrix[r, column] == NegInf
    modifies matrix
    ensures forall r :: 0 <= r < |dates| ==> matrix[r, column] == Cell(models, frames, symbol, dates[r])
    ensures forall r, c :: 0 <= r < |dates| && 0 <= c < matrix.Length1 && c != column ==>
              matrix[r, c] == old(matrix[r, c])
  {
    hide FeatureRows, ValidRows, Locate, GetIndexer, Gather, RowUtility, Predict, MarketOk;
    if symbol !in models || symbol !in frames {
      return;
    }
    var frame, model := frames[symbol], models[symbol];
    assert ValidFrame(frame) && RowWise(model);
    var rows := ValidRows(frame, dates);
    ValidRowsAreUsable(frame, dates);
    var positions := Gather(GetIndexer(frame.index, dates), rows);
    var batch := FeatureRows(frame, positions);
    var prediction := model(batch);
    assert PerRow(model, batch);
    for i := 0 to |rows|
      invariant forall j :: 0 <= j < i ==> matrix[rows[j], column] == Fin(prediction[j])
      invariant forall r :: 0 <= r < |dates| && r !in rows[..i] ==> matrix[r, column] == NegInf
      invariant forall r, c :: 0 <= r < |dates| && 0 <= c < matrix.Length1 && c != column ==>
                matrix[r, c] == old(matrix[r, c])
    {
      matrix[rows[i], column] := Fin(prediction[i]);
    }
    assert rows[..|rows|] == rows;
    forall r | 0 <= r < |dates|
      ensures matrix[r, column] == Cell(models, frames, symbol, dates[r])
    {
      if r in rows {
        var i :| 0 <= i < |rows| && rows[i] == r;
        RowUtilityAt(model, frame, dates[r], positions[i]);
      } else {
        forall k: nat ensures !Usable(frame, dates[r], k) {
          if Usable(frame, dates[r], k) {
            UsableRowsAreValid(frame, dates, r, k);
          }
        }
        NoUsableRow(model, frame, dates[r]);
      }
    }
  }

  /** _precompute_model_utilities. */
  method PrecomputeModelUtilities(models: map<string, Model>, frames: map<string, Frame>, symbols: seq<string>,
                                  dates: seq<int>)
    returns (cache: map<int, seq<Utility>>)
    requires Valid(models, frames)
    ensures forall d :: d in cache <==> d in dates
    ensures forall d :: d in cache ==> IsUtilities(models, frames, symbols, d, cache[d])
  {
    var matrix := new Utility[|dates|, |symbols| + 1]((r, c) => if c == 0 then Fin(0.0) else NegInf);
    for column := 1 to |symbols| + 1
      invariant forall r :: 0 <= r < |dates| ==> matrix[r, 0] == Fin(0.0)
      invariant forall r, c :: 0 <= r < |dates| && 1 <= c < column ==>
                matrix[r, c] == Cell(models, frames, symbols[c - 1], dates[r])
      invariant forall r, c :: 0 <= r < |dates| && column <= c <= |symbols| ==> matrix[r, c] == NegInf
    {
      FillColumn(matrix, column, dates, models, frames, symbols[column - 1]);
    }
    cache := BuildCache(matrix, dates);
  }

  method BuildCache(matrix: array2<Utility>, dates: seq<int>) returns (cache: map<int, seq<Utility>>)
    requires matrix.Length0 == |dates|
    ensures forall d :: d in cache <==> d in dates
    ensures forall d :: d in cache ==>
              exists r :: 0 <= r < |dates| && dates[r] == d && |cache[d]| == matrix.Length1
                && forall c :: 0 <= c < matrix.Length1 ==> cache[d][c] == matrix[r, c]
  {
    cache := map[];
    for r := 0 to |dates|
      invariant forall d :: d in cache <==> d in dates[..r]
      invariant forall d :: d in cache ==>
              exists q :: 0 <= q < r && dates[q] == d && |cache[d]| == matrix.Length1
                && forall c :: 0 <= c < matrix.Length1 ==> cache[d][c] == matrix[q, c]
    {
      var row := CopyRow(matrix, r);
      cache := cache[dates[r] := row];
    }
    assert dates[..|dates|] == dates;
  }

  method CopyRow(matrix: array2<Utility>, r: nat) returns (row: seq<Utility>)
    requires r < matrix.Length0
    ensures |row| == matrix.Length1 && forall c :: 0 <= c < |row| ==> row[c] == matrix[r, c]
  {
    row := [];
    for c := 0 to matrix.Length1
      invariant |row| == c && forall i :: 0 <= i < c ==> row[i] == matrix[r, i]
    {
      row := row + [matrix[r, c]];
    }
  }

  /** _model_utilities: the cache first, then the models. */
  method ModelUtilities(models: map<string, Model>, frames: map<string, Frame>, symbols: seq<string>, date: int,
                        cache: map<int, seq<Utility>>)
    returns (row: Result<seq<Utility>, Error>)
    requires Valid(models, frames)
    requires forall d :: d in cache ==> IsUtilities(models, frames, symbols, d, cache[d])
    ensures row.Err? <==> date !in cache && !Complete(symbols, frames)
    ensures row.Ok? ==> IsUtilities(models, frames, symbols, date, row.value)
  {
    if date in cache {
      return Ok(cache[date]);
    }
    row := PerDate(models, frames, symbols, date);
  }

  /** A run that answers one date with and without the cache gets the same vector, provided every
      symbol has a frame. */
  method CachedAnswer(models: map<string, Model>, frames: map<string, Frame>, symbols: seq<string>, dates: seq<int>,
                      date: int)
    returns (cached: Result<seq<Utility>, Error>, direct: Result<seq<Utility>, Error>)
    requires Valid(models, frames)
    ensures cached == direct <==> date !in dates || Complete(symbols, frames)
  {
    var cache := PrecomputeModelUtilities(models, frames, symbols, dates);
    cached := ModelUtilities(models, frames, symbols, date, cache);
    direct := ModelUtilities(models, frames, symbols, date, map[]);
    if cached.Ok? && direct.Ok? {
      assert cached.value == direct.value;
    }
    assert cached.Err? && direct.Err? ==> cached.error.NoFrame? && direct.error.NoFrame?;
    assert direct.Ok? <==> Complete(symbols, frames);
    assert date in cache <==> date in dates;
    assert cached.Ok? <==> date in dates || Complete(symbols, frames);
  }
}
