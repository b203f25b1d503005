/**
 The walk-forward scheduler of engine/capital_rotation.py, the decision dispatch of
 engine/research_challengers.py, the live fold of engine/live_lightgbm_signal.py and the forward
 labels they purge against.

 Dates are session indices into the common calendar; every asset's rows are taken to be those
 sessions. Main results: the folds partition the out-of-sample range (BuildFolds); every decision
 the simulators query is served by exactly one fold (Dispatch, ScheduledLookupSucceeds); no label
 used to fit a fold depends on any bar after the decisions it serves (TrainingIgnoresFuture).
 */
module WalkForward {
  import opened Common

  datatype Config = Config(
    purgeDays: int, horizons: seq<int>, calibrationDays: int, testDays: int, minTestDays: int,
    minTrain: int, foldCount: Option<int>)
  {
    /** Lower bounds of the request schema. */
    predicate Valid() {
      && purgeDays >= 1 && horizons != [] && (forall i :: 0 <= i < |horizons| ==> horizons[i] >= 1)
      && calibrationDays >= 1 && testDays >= 1 && minTestDays >= 1 && minTrain >= 1
      && (foldCount.Some? ==> foldCount.value >= 1)
    }

    function Purge(): int
      requires horizons != []
    {
      if purgeDays >= Largest(horizons) then purgeDays else Largest(horizons)
    }

    function FirstTestStart(): int
      requires horizons != []
    {
      minTrain + Purge() + calibrationDays + Purge()
    }
  }

  function Largest(s: seq<int>): (m: int)
    requires s != []
    ensures m in s && forall i :: 0 <= i < |s| ==> s[i] <= m
  {
    if |s| == 1 then s[0]
    else
      var rest := Largest(s[1..]);
      assert s[0] in s && forall i :: 0 < i < |s| ==> s[i] == s[1..][i - 1];
      if s[0] >= rest then s[0] else rest
  }

  datatype Fold = Fold(id: int, trainEnd: int, calibrationStart: int, calibrationEnd: int, finalFitEnd: int,
                       testStart: int, testEnd: int)

  datatype Error = NotEnoughHistory | NotEnoughForFolds | FoldTooShort(id: int) | TrainingTooShort(id: int) | NoFold

  type Range = (int, int)

  // ---------------------------------------------------------------- what the folds are

  /** Consecutive ranges from lo to hi, each at least size long. */
  ghost predicate Contiguous(ranges: seq<Range>, lo: int, hi: int, size: int) {
    if ranges == [] then lo == hi
    else
      var last := ranges[|ranges| - 1];
      last.1 == hi && last.1 - last.0 >= size && Contiguous(ranges[..|ranges| - 1], lo, last.0, size)
  }

  function FoldOf(id: int, range: Range, config: Config): Fold
    requires config.horizons != []
  {
    var purge := config.Purge();
    Fold(id, range.0 - purge - config.calibrationDays - purge, range.0 - purge - config.calibrationDays,
         range.0 - purge, range.0 - purge, range.0, range.1)
  }

  ghost predicate FoldsOf(folds: seq<Fold>, ranges: seq<Range>, config: Config)
    requires config.horizons != []
  {
    && |folds| == |ranges|
    && forall i {:trigger folds[i]} :: 0 <= i < |folds| ==> folds[i] == FoldOf(i + 1, ranges[i], config)
  }

  lemma {:induction false} ContiguousBounds(ranges: seq<Range>, lo: int, hi: int, size: int)
    requires Contiguous(ranges, lo, hi, size) && size >= 1
    ensures lo <= hi
    ensures ranges != [] ==> ranges[0].0 == lo && lo < hi
    ensures forall i :: 0 <= i < |ranges| ==> lo <= ranges[i].0 && ranges[i].0 + size <= ranges[i].1 <= hi
    ensures forall i :: 0 <= i < |ranges| - 1 ==> ranges[i].1 == ranges[i + 1].0
    ensures forall i, j :: 0 <= i < j < |ranges| ==> ranges[i].1 <= ranges[j].0
  {
    if ranges != [] {
      var before := ranges[..|ranges| - 1];
      ContiguousBounds(before, lo, ranges[|ranges| - 1].0, size);
      assert forall i :: 0 <= i < |before| ==> before[i] == ranges[i];
      if before != [] {
        assert before[|before| - 1].1 == ranges[|ranges| - 1].0;
      }
    }
  }

  lemma ContiguousAppend(ranges: seq<Range>, lo: int, mid: int, hi: int, size: int)
    requires Contiguous(ranges, lo, mid, size) && hi - mid >= size
    ensures Contiguous(ranges + [(mid, hi)], lo, hi, size)
  {
    assert (ranges + [(mid, hi)])[..|ranges|] == ranges;
  }

  lemma ContiguousStretch(ranges: seq<Range>, lo: int, mid: int, hi: int, size: int)
    requires ranges != [] && Contiguous(ranges, lo, mid, size) && hi >= mid
    ensures var last := ranges[|ranges| - 1];
            Contiguous(ranges[|ranges| - 1 := (last.0, hi)], lo, hi, size)
  {
    var last := ranges[|ranges| - 1];
    assert ranges[|ranges| - 1 := (last.0, hi)][..|ranges| - 1] == ranges[..|ranges| - 1];
  }

  // ---------------------------------------------------------------- building the folds

  lemma BaseIsLargeEnough(available: int, count: int, minimum: int)
    requires count >= 1 && available >= count * minimum
    ensures available / count >= minimum
    ensures Multiple(available / count, count) + available % count == available
  {
    MultiplesGrow(available / count + 1, minimum, count);
  }

  lemma MultiplesGrow(a: int, b: int, count: int)
    requires count >= 1
    ensures a <= b ==> a * count <= b * count
  {
  }

  /** The requested number of folds, sizes differing by at most one. */
  method EqualRanges(first: int, rows: int, count: int, minimum: int) returns (ranges: seq<Range>)
    requires count >= 1 && minimum >= 1 && rows - first >= count * minimum
    ensures |ranges| == count && Contiguous(ranges, first, rows, minimum)
    ensures forall i :: 0 <= i < count ==>
              ranges[i].1 - ranges[i].0 == (rows - first) / count + (if i < (rows - first) % count then 1 else 0)
  {
    var available := rows - first;
    BaseIsLargeEnough(available, count, minimum);
    NoRanges(first, minimum);
    hide Contiguous, Multiple;
    var base, remainder := available / count, available % count;
    ranges := [];
    NextMultiple(base, 0);
    var cursor := first;
    var index := 0;
    ghost var spent := 0;
    while index < count
      invariant 0 <= index <= count && |ranges| == index
      invariant spent == Multiple(base, index)
      invariant cursor == first + spent + (if index < remainder then index else remainder)
      invariant Contiguous(ranges, first, cursor, minimum)
      invariant forall i :: 0 <= i < index ==>
                  ranges[i].1 - ranges[i].0 == base + (if i < remainder then 1 else 0)
    {
      var size := base + (if index < remainder then 1 else 0);
      ContiguousAppend(ranges, first, cursor, cursor + size, minimum);
      ranges := ranges + [(cursor, cursor + size)];
      cursor := cursor + size;
      NextMultiple(base, index);
      spent := spent + base;
      index := index + 1;
    }
  }

  function Multiple(base: int, index: int): int { index * base }

  lemma NextMultiple(base: int, index: int)
    ensures Multiple(base, 0) == 0 && Multiple(base, index + 1) == Multiple(base, index) + base
  {
  }

  lemma NoRanges(lo: int, size: int)
    ensures Contiguous([], lo, lo, size)
  {
  }

  /** Folds of testDays, a short remainder merged into the last one. */
  method SteppedRanges(first: int, rows: int, testDays: int, minimum: int) returns (ranges: seq<Range>)
    requires testDays >= 1 && minimum >= 1 && first < rows - minimum
    ensures ranges == [] <==> testDays < minimum
    ensures ranges != [] ==> Contiguous(ranges, first, rows, minimum)
    ensures forall i :: 0 <= i < |ranges| - 1 ==> ranges[i].1 - ranges[i].0 == testDays
  {
    ranges := [];
    var start := first;
    while start < rows
      invariant start <= rows && Contiguous(ranges, first, start, minimum)
      invariant forall i :: 0 <= i < |ranges| - 1 ==> ranges[i].1 - ranges[i].0 == testDays
      invariant ranges != [] ==> testDays >= minimum
      invariant ranges == [] ==> start == first
      invariant ranges != [] && start < rows ==> ranges[|ranges| - 1].1 - ranges[|ranges| - 1].0 == testDays
      decreases rows - start
    {
      var end := if rows <= start + testDays then rows else start + testDays;
      if end - start < minimum {
        if ranges != [] {
          ContiguousStretch(ranges, first, start, rows, minimum);
          ranges := ranges[|ranges| - 1 := (ranges[|ranges| - 1].0, rows)];
        }
        break;
      }
      ContiguousAppend(ranges, first, start, end, minimum);
      ranges := ranges + [(start, end)];
      start := end;
    }
  }

  /** The fold records; neither of the two size errors can occur for ranges that fit. */
  method FoldsFromRanges(ranges: seq<Range>, rows: int, config: Config) returns (r: Result<seq<Fold>, Error>)
    requires config.Valid()
    requires Contiguous(ranges, config.FirstTestStart(), rows, config.minTestDays) || ranges == []
    ensures ranges == [] ==> r == Err(NoFold)
    ensures ranges != [] ==> r.Ok? && FoldsOf(r.value, ranges, config)
  {
    if ranges != [] {
      ContiguousBounds(ranges, config.FirstTestStart(), rows, config.minTestDays);
    }
    hide Contiguous;
    var purge := config.Purge();
    var folds: seq<Fold> := [];
    var i := 0;
    while i < |ranges|
      invariant 0 <= i <= |ranges| && FoldsOf(folds, ranges[..i], config)
    {
      var start, end := ranges[i].0, ranges[i].1;
      if end - start < config.minTestDays {
        return Err(FoldTooShort(i + 1));
      }
      var calibrationEnd := start - purge;
      var calibrationStart := calibrationEnd - config.calibrationDays;
      var trainEnd := calibrationStart - purge;
      if trainEnd < config.minTrain {
        return Err(TrainingTooShort(i + 1));
      }
      folds := folds + [Fold(i + 1, trainEnd, calibrationStart, calibrationEnd, start - purge, start, end)];
      i := i + 1;
    }
    assert ranges[..i] == ranges;
    if folds == [] {
      return Err(NoFold);
    }
    return Ok(folds);
  }

  /** The three reasons for refusing to build folds. */
  predicate Refused(rows: int, config: Config)
    requires config.horizons != []
  {
    || config.FirstTestStart() >= rows - config.minTestDays
    || (config.foldCount.Some? && rows - config.FirstTestStart() < config.foldCount.value * config.minTestDays)
    || (config.foldCount.None? && config.testDays < config.minTestDays)
  }

  /** _build_walk_forward_folds over rows common dates: refused for exactly three reasons, otherwise
      the test ranges partition everything from the first test session to the end. */
  method BuildFolds(rows: int, config: Config) returns (r: Result<seq<Fold>, Error>, ghost ranges: seq<Range>)
    requires config.Valid()
    ensures r.Err? <==> Refused(rows, config)
    ensures r.Ok? ==> FoldsOf(r.value, ranges, config) && ranges != []
                      && Contiguous(ranges, config.FirstTestStart(), rows, config.minTestDays)
    ensures r.Ok? ==> ValidFolds(r.value, rows, config)
    ensures r.Ok? && config.foldCount.Some? ==>
              |ranges| == config.foldCount.value
              && forall i, j :: 0 <= i < |ranges| && 0 <= j < |ranges| ==>
                   (ranges[i].1 - ranges[i].0) - (ranges[j].1 - ranges[j].0) <= 1
    ensures r.Ok? && config.foldCount.None? ==>
              forall i :: 0 <= i < |ranges| - 1 ==> ranges[i].1 - ranges[i].0 == config.testDays
    ensures r.Err? ==> r.error.NotEnoughHistory? || r.error.NotEnoughForFolds? || r.error.NoFold?
  {
    hide Contiguous;
    var first := config.FirstTestStart();
    ranges := [];
    if first >= rows - config.minTestDays {
      return Err(NotEnoughHistory), [];
    }
    var built: seq<Range>;
    if config.foldCount.Some? {
      if rows - first < config.foldCount.value * config.minTestDays {
        return Err(NotEnoughForFolds), [];
      }
      built := EqualRanges(first, rows, config.foldCount.value, config.minTestDays);
    } else {
      built := SteppedRanges(first, rows, config.testDays, config.minTestDays);
    }
    ranges := built;
    r := FoldsFromRanges(built, rows, config);
  }

  // ---------------------------------------------------------------- dispatching decisions

  /** The decisions a fold serves: one session before each of its test sessions. */
  predicate Serves(f: Fold, decision: int) {
    f.testStart - 1 <= decision < f.testEnd - 1
  }

  /** decision_to_fold: for every fold, its decision dates but the last. */
  method Dispatch(folds: seq<Fold>) returns (table: map<int, int>)
    ensures forall d :: d in table ==> exists i :: 0 <= i < |folds| && Serves(folds[i], d) && table[d] == folds[i].id
    ensures forall d, i :: 0 <= i < |folds| && Serves(folds[i], d) ==> d in table
  {
    table := map[];
    var i := 0;
    while i < |folds|
      invariant 0 <= i <= |folds|
      invariant forall d :: d in table ==> exists j :: 0 <= j < i && Serves(folds[j], d) && table[d] == folds[j].id
      invariant forall d, j :: 0 <= j < i && Serves(folds[j], d) ==> d in table
    {
      var f := folds[i];
      ghost var before := table;
      var d := f.testStart - 1;
      while d < f.testEnd - 1
        invariant f.testStart - 1 <= d
        invariant forall e :: e in table <==> e in before || (f.testStart - 1 <= e < d && e < f.testEnd - 1)
        invariant forall e :: e in table ==>
                    table[e] == if f.testStart - 1 <= e < d && e < f.testEnd - 1 then f.id else before[e]
      {
        table := table[d := f.id];
        d := d + 1;
      }
      forall e | e in table
        ensures exists j :: 0 <= j < i + 1 && Serves(folds[j], e) && table[e] == folds[j].id
      {
        if Serves(f, e) {
          assert Serves(folds[i], e) && table[e] == folds[i].id;
        } else {
          var j :| 0 <= j < i && Serves(folds[j], e) && before[e] == folds[j].id;
          assert 0 <= j < i + 1 && Serves(folds[j], e) && table[e] == folds[j].id;
        }
      }
      i := i + 1;
    }
  }

  ghost predicate ValidFolds(folds: seq<Fold>, rows: int, config: Config) {
    config.Valid() && folds != []
    && exists ranges: seq<Range> ::
         FoldsOf(folds, ranges, config) && Contiguous(ranges, config.FirstTestStart(), rows, config.minTestDays)
  }

  /** Every out-of-sample decision is served by one fold and by no other. */
  lemma ServedOnce(folds: seq<Fold>, rows: int, config: Config, decision: int)
    requires ValidFolds(folds, rows, config)
    requires config.FirstTestStart() - 1 <= decision < rows - 1
    ensures exists i :: 0 <= i < |folds| && Serves(folds[i], decision)
    ensures forall i, j :: 0 <= i < |folds| && 0 <= j < |folds| ==>
              (Serves(folds[i], decision) && Serves(folds[j], decision) ==> i == j)
  {
    var ranges: seq<Range> :| FoldsOf(folds, ranges, config)
                              && Contiguous(ranges, config.FirstTestStart(), rows, config.minTestDays);
    ContiguousBounds(ranges, config.FirstTestStart(), rows, config.minTestDays);
    var i := RangeOf(ranges, config.FirstTestStart(), rows, config.minTestDays, decision + 1);
    assert folds[i].testStart == ranges[i].0;
    assert Serves(folds[i], decision);
    forall a, b | 0 <= a < |folds| && 0 <= b < |folds| && Serves(folds[a], decision) && Serves(folds[b], decision)
      ensures a == b
    {
      assert folds[a].testStart == ranges[a].0 && folds[b].testStart == ranges[b].0;
    }
  }

  /** What a fold is fitted and tested on: the minimum of training rows or more (exactly so many before the
      first fold), a gap, the calibration days, the same gap again, and the test range; the gap is the larger
      of the purge days and the longest horizon. */
  lemma FoldWindows(folds: seq<Fold>, rows: int, config: Config, i: nat)
    requires ValidFolds(folds, rows, config) && i < |folds|
    ensures var f := folds[i]; var gap := f.testStart - f.calibrationEnd;
            && f.id == i + 1 && f.finalFitEnd == f.calibrationEnd
            && f.trainEnd >= config.minTrain && (i == 0 ==> f.trainEnd == config.minTrain)
            && f.calibrationStart - f.trainEnd == gap
            && f.calibrationEnd - f.calibrationStart == config.calibrationDays
            && gap >= config.purgeDays && (forall k :: 0 <= k < |config.horizons| ==> gap >= config.horizons[k])
            && (gap == config.purgeDays || gap in config.horizons)
            && f.testEnd - f.testStart >= config.minTestDays
  {
    var ranges: seq<Range> :| FoldsOf(folds, ranges, config)
                              && Contiguous(ranges, config.FirstTestStart(), rows, config.minTestDays);
    ContiguousBounds(ranges, config.FirstTestStart(), rows, config.minTestDays);
    assert folds[i] == FoldOf(i + 1, ranges[i], config);
  }

  lemma {:induction false} RangeOf(ranges: seq<Range>, lo: int, hi: int, size: int, x: int) returns (i: nat)
    requires Contiguous(ranges, lo, hi, size) && lo <= x < hi
    ensures i < |ranges| && ranges[i].0 <= x < ranges[i].1
  {
    var last := ranges[|ranges| - 1];
    if x >= last.0 {
      i := |ranges| - 1;
    } else {
      i := RangeOf(ranges[..|ranges| - 1], lo, last.0, size, x);
    }
  }

  // ---------------------------------------------------------------- the analysis window

  datatype WindowError = NoFolds | StartAfterEnd | EmptyInterval

  /** Sessions strictly before a date: searchsorted on the left. */
  function SearchSorted(dates: seq<int>, date: int): (k: nat)
    ensures k <= |dates|
  {
    if dates == [] then 0
    else if dates[|dates| - 1] < date then |dates|
    else SearchSorted(dates[..|dates| - 1], date)
  }

  ghost predicate Increasing(dates: seq<int>) {
    forall i, j :: 0 <= i < j < |dates| ==> dates[i] < dates[j]
  }

  lemma {:induction false} SearchSortedSplits(dates: seq<int>, date: int)
    requires Increasing(dates)
    ensures forall i :: 0 <= i < |dates| ==> (dates[i] < date <==> i < SearchSorted(dates, date))
  {
    if dates != [] && dates[|dates| - 1] >= date {
      SearchSortedSplits(dates[..|dates| - 1], date);
      assert forall i :: 0 <= i < |dates| - 1 ==> dates[..|dates| - 1][i] == dates[i];
    }
  }

  /** _analysis_decision_dates as a range of decision indices [result.0, result.1). The end date is
      given as the first date that is no longer wanted. */
  function AnalysisDecisions(dates: seq<int>, folds: seq<Fold>, start: int, endExclusive: Option<int>)
    : Result<Range, WindowError>
  {
    if folds == [] then Err(NoFolds)
    else
      var oosStart, oosEnd := folds[0].testStart, folds[|folds| - 1].testEnd;
      var requestedStart := SearchSorted(dates, start);
      if requestedStart >= oosEnd then Err(StartAfterEnd)
      else
        var executionStart := if oosStart >= requestedStart then oosStart else requestedStart;
        var requestedEnd := if endExclusive.Some? then SearchSorted(dates, endExclusive.value) else oosEnd;
        var executionEnd := if requestedEnd <= oosEnd then requestedEnd else oosEnd;
        if executionStart >= executionEnd then Err(EmptyInterval) else Ok((executionStart - 1, executionEnd))
  }

  /** The sessions that get executed: out of sample, not before the start, before the end. */
  ghost predicate Executable(dates: seq<int>, oosStart: int, start: int, endExclusive: Option<int>, i: int) {
    0 <= oosStart <= i < |dates| && dates[i] >= start && (endExclusive.Some? ==> dates[i] < endExclusive.value)
  }

  lemma FoldsSpan(folds: seq<Fold>, rows: int, config: Config)
    requires ValidFolds(folds, rows, config)
    ensures folds[0].testStart == config.FirstTestStart() && folds[|folds| - 1].testEnd == rows
    ensures 1 <= config.FirstTestStart() < rows
  {
    var ranges: seq<Range> :| FoldsOf(folds, ranges, config)
                              && Contiguous(ranges, config.FirstTestStart(), rows, config.minTestDays);
    ContiguousBounds(ranges, config.FirstTestStart(), rows, config.minTestDays);
    assert folds[0].testStart == ranges[0].0 && folds[|folds| - 1].testEnd == ranges[|ranges| - 1].1;
    assert Largest(config.horizons) >= 1;
  }

  /** The window executes exactly the sessions asked for, and is refused exactly when there are none. */
  lemma AnalysisWindowIsExact(dates: seq<int>, folds: seq<Fold>, config: Config, start: int, endExclusive: Option<int>)
    requires Increasing(dates) && ValidFolds(folds, |dates|, config)
    ensures var r := AnalysisDecisions(dates, folds, start, endExclusive);
            && (r.Err? <==> forall i :: !Executable(dates, config.FirstTestStart(), start, endExclusive, i))
            && (r.Ok? ==> forall i :: Executable(dates, config.FirstTestStart(), start, endExclusive, i)
                                      <==> r.value.0 + 1 <= i < r.value.1)
  {
    FoldsSpan(folds, |dates|, config);
    SearchSortedSplits(dates, start);
    if endExclusive.Some? {
      SearchSortedSplits(dates, endExclusive.value);
    }
    var r := AnalysisDecisions(dates, folds, start, endExclusive);
    if r.Ok? {
      assert Executable(dates, config.FirstTestStart(), start, endExclusive, r.value.0 + 1);
    }
  }

  /** The simulators decide at every date of the window but the last; each lookup finds the serving
      fold, so the missing-policy error is unreachable. */
  lemma ScheduledLookupSucceeds(dates: seq<int>, folds: seq<Fold>, config: Config, start: int,
                                endExclusive: Option<int>, table: map<int, int>, decision: int)
    requires ValidFolds(folds, |dates|, config)
    requires forall d, i :: 0 <= i < |folds| && Serves(folds[i], d) ==> d in table
    requires var r := AnalysisDecisions(dates, folds, start, endExclusive);
             r.Ok? && r.value.0 <= decision < r.value.1 - 1
    ensures decision in table
  {
    FoldsSpan(folds, |dates|, config);
    ServedOnce(folds, |dates|, config, decision);
  }

  // ---------------------------------------------------------------- labels and purging

  datatype Bars = Bars(open: seq<real>, high: seq<real>, low: seq<real>, close: seq<real>) {
    predicate Valid() { |high| == |low| == |close| == |open| }

    function Rows(): nat { |open| }

    /** What is known when only the first n sessions have happened. */
    function Prefix(n: nat): Bars
      requires Valid() && n <= Rows()
    {
      Bars(open[..n], high[..n], low[..n], close[..n])
    }
  }

  datatype LabelConfig = LabelConfig(
    horizons: seq<int>, weights: seq<real>, netCostLog: real, downsidePenalty: real, drawdownPenalty: real,
    movementWeight: real, persistenceWeight: real, log: real -> real)
  {
    predicate Valid() {
      horizons != [] && |weights| == |horizons| && forall i :: 0 <= i < |horizons| ==> horizons[i] >= 1
    }
  }

  function Highest(s: seq<real>): real
    requires s != []
  {
    if |s| == 1 then s[0] else Max(s[0], Highest(s[1..]))
  }

  function Lowest(s: seq<real>): real
    requires s != []
  {
    if |s| == 1 then s[0] else Min(s[0], Lowest(s[1..]))
  }

  /** Largest fall below the running peak, as a share of that peak. */
  function PathDrawdown(path: seq<real>, peak: real): real {
    if path == [] then 0.0
    else
      var top := Max(peak, path[0]);
      Max(if top > 0.0 then 1.0 - path[0] / top else 0.0, PathDrawdown(path[1..], top))
  }

  function CountAbove(s: seq<real>, level: real): nat {
    if s == [] then 0 else (if s[0] > level then 1 else 0) + CountAbove(s[1..], level)
  }

  function CountRises(s: seq<real>): nat {
    if |s| < 2 then 0 else (if s[1] > s[0] then 1 else 0) + CountRises(s[1..])
  }

  /** Utility of entering at the next open and leaving after the horizon. */
  function HorizonUtility(bars: Bars, idx: nat, horizon: int, c: LabelConfig): real
    requires bars.Valid() && horizon >= 1 && idx + horizon < bars.Rows() && bars.open[idx + 1] > 0.0
  {
    var entry, closes := bars.open[idx + 1], bars.close[idx + 1..idx + horizon + 1];
    var net := c.log(Max(closes[horizon - 1] / entry, 0.000000000001)) + c.netCostLog;
    var downside := Max(0.0, 1.0 - Lowest(bars.low[idx + 1..idx + horizon + 1]) / entry);
    net - c.downsidePenalty * downside - c.drawdownPenalty * Max(0.0, PathDrawdown([entry] + closes, entry))
  }

  function WeightedUtility(bars: Bars, idx: nat, c: LabelConfig, count: nat): real
    requires bars.Valid() && c.Valid() && count <= |c.horizons|
    requires idx + Largest(c.horizons) < bars.Rows() && bars.open[idx + 1] > 0.0
  {
    if count == 0 then 0.0
    else WeightedUtility(bars, idx, c, count - 1)
         + Weigh(HorizonUtility(bars, idx, c.horizons[count - 1], c), c.weights[count - 1])
  }

  function Weigh(utility: real, weight: real): real { utility * weight }

  /** forward_risk_adjusted_utility of row idx: absent for the last rows and for an unusable entry. */
  function Label(bars: Bars, idx: nat, c: LabelConfig): Option<real>
    requires bars.Valid() && c.Valid()
  {
    var longest := Largest(c.horizons);
    if idx + longest >= bars.Rows() || bars.open[idx + 1] <= 0.0 then None
    else
      Some(Movement(bars.open[idx + 1], bars.close[idx + 1..idx + longest + 1],
                    bars.high[idx + 1..idx + longest + 1], c)
           + WeightedUtility(bars, idx, c, |c.horizons|))
  }

  /** Rewards for reachable upside and for persistent rises over the longest horizon. */
  function Movement(entry: real, closes: seq<real>, highs: seq<real>, c: LabelConfig): real
    requires closes != [] && |highs| == |closes| && entry > 0.0
  {
    var n := |closes|;
    var capture := c.log(1.0 + Max(0.0, Highest(highs) / entry - 1.0));
    var share := CountAbove(closes, entry) as real / n as real;
    var rises := if n > 1 then CountRises(closes) as real / (n - 1) as real else 0.0;
    c.movementWeight * capture + c.persistenceWeight * (0.5 * share + 0.5 * rises)
  }

  /** A largest fall: from some price to a later one, and none larger. */
  ghost predicate IsWorstFall(path: seq<real>, fall: real)
    requires forall i :: 0 <= i < |path| ==> path[i] > 0.0
  {
    && (exists i, j :: 0 <= i <= j < |path| && Fall(path[i], path[j]) == fall)
    && forall i, j :: 0 <= i <= j < |path| ==> Fall(path[i], path[j]) <= fall
  }

  function Fall(from: real, to: real): real
    requires from > 0.0
  {
    1.0 - to / from
  }

  lemma FallFromHigher(a: real, b: real, to: real)
    requires 0.0 < a <= b && to > 0.0
    ensures Fall(a, to) <= Fall(b, to) && (to >= a ==> Fall(a, to) <= 0.0) && Fall(to, to) == 0.0
  {
    var x, y := to / a, to / b;
    assert x * a == to && y * b == to;
    LargerQuotient(x, a, y, b);
    if to >= a {
      LargerQuotient(x, a, 1.0, to);
    }
    assert to / to == 1.0;
  }

  lemma LargerQuotient(x: real, a: real, y: real, b: real)
    requires 0.0 < a <= b && x * a == y * b > 0.0
    ensures x >= y
  {
    var d := y - x;
    if d > 0.0 {
      PositiveProduct(d, b);
      assert y * b == x * b + d * b;
      assert x <= 0.0 ==> x * a <= 0.0;
      assert x * b == x * a + x * (b - a);
      NonNegativeProduct(x, b - a);
    }
  }

  lemma PositiveProduct(x: real, y: real)
    requires x > 0.0 && y > 0.0
    ensures x * y > 0.0
  {
  }

  lemma NonNegativeProduct(x: real, y: real)
    requires x >= 0.0 && y >= 0.0
    ensures x * y >= 0.0
  {
  }

  /** Below the running peak: at least every fall from the peak or an earlier price. */
  lemma {:induction false} DrawdownIsUpper(path: seq<real>, peak: real, from: real, j: nat)
    requires peak > 0.0 && from > 0.0 && j < |path| && forall i :: 0 <= i < |path| ==> path[i] > 0.0
    requires from <= peak || from in path[..j + 1]
    ensures Fall(from, path[j]) <= PathDrawdown(path, peak)
  {
    hide Fall;
    var top := Max(peak, path[0]);
    FallIs(top, path[0]);
    if j == 0 {
      FallFromHigher(from, top, path[0]);
    } else {
      assert from in path[..j + 1] ==> from == path[0] || from in path[1..][..j] by {
        assert path[..j + 1] == [path[0]] + path[1..][..j];
      }
      DrawdownIsUpper(path[1..], top, from, j - 1);
    }
  }

  lemma FallIs(from: real, to: real)
    requires from > 0.0
    ensures Fall(from, to) == 1.0 - to / from
  {
  }

  /** And one of them, or nothing. */
  lemma {:induction false} DrawdownIsAttained(path: seq<real>, peak: real) returns (from: real, j: nat)
    requires peak > 0.0 && forall i :: 0 <= i < |path| ==> path[i] > 0.0
    ensures PathDrawdown(path, peak) >= 0.0
    ensures PathDrawdown(path, peak) > 0.0 ==>
              j < |path| && from > 0.0 && (from == peak || from in path[..j + 1])
              && Fall(from, path[j]) == PathDrawdown(path, peak)
  {
    hide Fall;
    from, j := peak, 0;
    if path != [] {
      var top := Max(peak, path[0]);
      FallIs(top, path[0]);
      var rest, k := DrawdownIsAttained(path[1..], top);
      if PathDrawdown(path[1..], top) >= Fall(top, path[0]) {
        from, j := rest, k + 1;
        assert j < |path| ==> path[..j + 1] == [path[0]] + path[1..][..k + 1];
      } else {
        from := top;
      }
    }
  }

  /** The running-peak loop finds the largest fall from any price to any later one. */
  lemma DrawdownIsWorstFall(path: seq<real>)
    requires path != [] && forall i :: 0 <= i < |path| ==> path[i] > 0.0
    ensures IsWorstFall(path, PathDrawdown(path, path[0]))
  {
    hide Fall, PathDrawdown;
    var fall := PathDrawdown(path, path[0]);
    forall i, j | 0 <= i <= j < |path|
      ensures Fall(path[i], path[j]) <= fall
    {
      assert path[..j + 1][i] == path[i];
      DrawdownIsUpper(path, path[0], path[i], j);
    }
    var from, j := DrawdownIsAttained(path, path[0]);
    FallFromHigher(path[0], path[0], path[0]);
    if fall > 0.0 {
      if from == path[0] {
        assert Fall(path[0], path[j]) == fall;
      } else {
        var i :| 0 <= i < j + 1 && path[..j + 1][i] == from;
        assert Fall(path[i], path[j]) == fall;
      }
    } else {
      assert Fall(path[0], path[0]) == fall;
    }
  }

  ghost predicate IsLowest(s: seq<real>, low: real) {
    low in s && forall x :: x in s ==> low <= x
  }

  lemma {:induction false} LowestIs(s: seq<real>)
    requires s != []
    ensures IsLowest(s, Lowest(s))
  {
    if |s| > 1 {
      LowestIs(s[1..]);
      assert forall x :: x in s ==> x == s[0] || x in s[1..];
    }
  }

  /** The utility of a horizon: the log return from the next open to the horizon's close with the costs, less
      the penalties on the deepest low below the entry and on the largest fall of entry and closes. */
  lemma HorizonUtilityMeans(bars: Bars, idx: nat, horizon: int, c: LabelConfig) returns (low: real, fall: real)
    requires bars.Valid() && horizon >= 1 && idx + horizon < bars.Rows() && bars.open[idx + 1] > 0.0
    requires forall k :: idx < k <= idx + horizon ==> bars.close[k] > 0.0
    ensures var entry := bars.open[idx + 1]; var path := [entry] + bars.close[idx + 1..idx + horizon + 1];
            && IsLowest(bars.low[idx + 1..idx + horizon + 1], low)
            && (forall i :: 0 <= i < |path| ==> path[i] > 0.0) && IsWorstFall(path, fall)
            && HorizonUtility(bars, idx, horizon, c)
               == c.log(Max(bars.close[idx + horizon] / entry, 0.000000000001)) + c.netCostLog
                  - c.downsidePenalty * Max(0.0, 1.0 - low / entry) - c.drawdownPenalty * fall
  {
    hide Lowest, PathDrawdown, IsWorstFall;
    var entry, closes := bars.open[idx + 1], bars.close[idx + 1..idx + horizon + 1];
    var path := [entry] + closes;
    LowestIs(bars.low[idx + 1..idx + horizon + 1]);
    low := Lowest(bars.low[idx + 1..idx + horizon + 1]);
    DrawdownIsWorstFall(path);
    var from, j := DrawdownIsAttained(path, entry);
    fall := PathDrawdown(path, entry);
    assert closes[horizon - 1] == bars.close[idx + horizon];
  }

  lemma {:induction false} CountAboveAppend(s: seq<real>, x: real, level: real)
    ensures CountAbove(s + [x], level) == CountAbove(s, level) + (if x > level then 1 else 0)
  {
    if s == [] {
      assert s + [x] == [x] && [x][1..] == [];
    } else {
      assert (s + [x])[1..] == s[1..] + [x];
      CountAboveAppend(s[1..], x, level);
    }
  }

  function Above(s: seq<real>, level: real): (indices: set<nat>) {
    set i: nat | i < |s| && s[i] > level
  }

  lemma {:induction false} CountAboveIs(s: seq<real>, level: real)
    ensures CountAbove(s, level) == |Above(s, level)|
  {
    if s == [] {
      assert Above(s, level) == {};
    } else {
      var n := |s| - 1;
      CountAboveIs(s[..n], level);
      CountAboveAppend(s[..n], s[n], level);
      assert s[..n] + [s[n]] == s;
      assert Above(s, level) == Above(s[..n], level) + if s[n] > level then {n} else {};
    }
  }

  lemma {:induction false} CountRisesAppend(s: seq<real>, x: real)
    requires s != []
    ensures CountRises(s + [x]) == CountRises(s) + (if x > s[|s| - 1] then 1 else 0)
  {
    if |s| > 1 {
      assert (s + [x])[1..] == s[1..] + [x];
      CountRisesAppend(s[1..], x);
    } else {
      assert (s + [x])[1..] == [x];
    }
  }

  function RisesAt(s: seq<real>, i: nat): bool { 0 < i < |s| && s[i] > s[i - 1] }

  function Rises(s: seq<real>): (indices: set<nat>) {
    set i: nat | i < |s| && RisesAt(s, i)
  }

  lemma {:induction false} CountRisesIs(s: seq<real>)
    ensures CountRises(s) == |Rises(s)|
  {
    if |s| <= 1 {
      assert Rises(s) == {};
    } else {
      var n := |s| - 1;
      CountRisesIs(s[..n]);
      CountRisesAppend(s[..n], s[n]);
      assert s[..n] + [s[n]] == s;
      assert Rises(s) == Rises(s[..n]) + if s[n] > s[n - 1] then {n} else {};
    }
  }

  ghost predicate IsHighest(s: seq<real>, high: real) {
    high in s && forall x :: x in s ==> x <= high
  }

  lemma {:induction false} HighestIs(s: seq<real>)
    requires s != []
    ensures IsHighest(s, Highest(s))
  {
    if |s| > 1 {
      HighestIs(s[1..]);
      assert forall x :: x in s ==> x == s[0] || x in s[1..];
    }
  }

  /** What a row is rewarded for beyond its utilities: the log of the upside to the highest high, and half the
      share of closes above the entry plus half the share of rising steps. */
  ghost predicate IsMovement(entry: real, closes: seq<real>, highs: seq<real>, c: LabelConfig, movement: real,
                             high: real)
    requires closes != [] && entry > 0.0
  {
    var n := |closes|;
    && IsHighest(highs, high)
    && movement == c.movementWeight * c.log(1.0 + Max(0.0, high / entry - 1.0))
                   + c.persistenceWeight * (0.5 * (|Above(closes, entry)| as real / n as real)
                                            + 0.5 * (if n > 1 then |Rises(closes)| as real / (n - 1) as real else 0.0))
  }

  /** Products of weights and utilities, summed. */
  function Weighted(weights: seq<real>, utilities: seq<real>): real
    requires |weights| == |utilities|
  {
    if weights == [] then 0.0
    else
      var n := |weights| - 1;
      Weighted(weights[..n], utilities[..n]) + Share(weights[n], utilities[n])
  }

  function Share(weight: real, utility: real): real { weight * utility }

  lemma ShareIsWeighed(weight: real, utility: real)
    ensures Share(weight, utility) == Weigh(utility, weight)
  {
  }

  lemma {:induction false} WeightedIs(bars: Bars, idx: nat, c: LabelConfig, count: nat) returns (utilities: seq<real>)
    requires bars.Valid() && c.Valid() && count <= |c.horizons|
    requires idx + Largest(c.horizons) < bars.Rows() && bars.open[idx + 1] > 0.0
    ensures |utilities| == count
    ensures forall k :: 0 <= k < count ==> utilities[k] == HorizonUtility(bars, idx, c.horizons[k], c)
    ensures WeightedUtility(bars, idx, c, count) == Weighted(c.weights[..count], utilities)
  {
    hide HorizonUtility, Weigh, Weighted, WeightedUtility;
    if count == 0 {
      utilities := [];
      NothingWeighted(bars, idx, c);
    } else {
      var before := WeightedIs(bars, idx, c, count - 1);
      var utility := OneMoreHorizon(bars, idx, c, count);
      utilities := before + [utility];
      WeightedAppend(c.weights[..count - 1], before, c.weights[count - 1], utility);
      assert c.weights[..count] == c.weights[..count - 1] + [c.weights[count - 1]];
    }
  }

  lemma NothingWeighted(bars: Bars, idx: nat, c: LabelConfig)
    requires bars.Valid() && c.Valid() && idx + Largest(c.horizons) < bars.Rows() && bars.open[idx + 1] > 0.0
    ensures WeightedUtility(bars, idx, c, 0) == Weighted(c.weights[..0], [])
  {
  }

  lemma OneMoreHorizon(bars: Bars, idx: nat, c: LabelConfig, count: nat) returns (utility: real)
    requires bars.Valid() && c.Valid() && 0 < count <= |c.horizons|
    requires idx + Largest(c.horizons) < bars.Rows() && bars.open[idx + 1] > 0.0
    ensures utility == HorizonUtility(bars, idx, c.horizons[count - 1], c)
    ensures WeightedUtility(bars, idx, c, count)
            == WeightedUtility(bars, idx, c, count - 1) + Weigh(utility, c.weights[count - 1])
  {
    hide HorizonUtility, Weigh;
    utility := HorizonUtility(bars, idx, c.horizons[count - 1], c);
  }

  lemma WeightedAppend(weights: seq<real>, utilities: seq<real>, weight: real, utility: real)
    requires |weights| == |utilities|
    ensures Weighted(weights + [weight], utilities + [utility]) == Weighted(weights, utilities) + Weigh(utility, weight)
  {
    hide Share, Weigh;
    assert (weights + [weight])[..|weights|] == weights && (utilities + [utility])[..|weights|] == utilities;
    ShareIsWeighed(weight, utility);
  }

  /** The label: that reward over the longest horizon, and the weighted utilities of all horizons. */
  lemma LabelMeans(bars: Bars, idx: nat, c: LabelConfig)
    returns (movement: real, high: real, utilities: seq<real>)
    requires bars.Valid() && c.Valid() && Label(bars, idx, c).Some?
    ensures var longest := Largest(c.horizons);
            && idx + longest < bars.Rows() && bars.open[idx + 1] > 0.0 && |utilities| == |c.horizons|
            && (forall k :: 0 <= k < |c.horizons| ==> utilities[k] == HorizonUtility(bars, idx, c.horizons[k], c))
            && IsMovement(bars.open[idx + 1], bars.close[idx + 1..idx + longest + 1],
                          bars.high[idx + 1..idx + longest + 1], c, movement, high)
            && Label(bars, idx, c) == Some(movement + Weighted(c.weights, utilities))
  {
    hide HorizonUtility, WeightedUtility;
    var longest := Largest(c.horizons);
    var entry := bars.open[idx + 1];
    var closes, highs := bars.close[idx + 1..idx + longest + 1], bars.high[idx + 1..idx + longest + 1];
    movement, high := Movement(entry, closes, highs, c), Highest(highs);
    MovementIs(entry, closes, highs, c);
    hide Movement, IsMovement;
    utilities := WeightedIs(bars, idx, c, |c.horizons|);
    assert c.weights[..|c.horizons|] == c.weights;
  }

  lemma MovementIs(entry: real, closes: seq<real>, highs: seq<real>, c: LabelConfig)
    requires closes != [] && |highs| == |closes| && entry > 0.0
    ensures IsMovement(entry, closes, highs, c, Movement(entry, closes, highs, c), Highest(highs))
  {
    hide Highest, CountAbove, CountRises, IsHighest;
    HighestIs(highs);
    CountAboveIs(closes, entry);
    CountRisesIs(closes);
  }

  lemma {:induction false} WeightedUtilityLocal(bars: Bars, n: nat, idx: nat, c: LabelConfig, count: nat)
    requires bars.Valid() && c.Valid() && count <= |c.horizons|
    requires n <= bars.Rows() && idx + Largest(c.horizons) < n && bars.open[idx + 1] > 0.0
    ensures WeightedUtility(bars.Prefix(n), idx, c, count) == WeightedUtility(bars, idx, c, count)
  {
    hide HorizonUtility;
    hide Weigh;
    assert bars.Prefix(n).open[idx + 1] == bars.open[idx + 1];
    if count > 0 {
      WeightedUtilityLocal(bars, n, idx, c, count - 1);
      HorizonUtilityLocal(bars, n, idx, c.horizons[count - 1], c);
    }
  }

  lemma SliceOfPrefix<T>(s: seq<T>, n: nat, lo: nat, hi: nat)
    requires lo <= hi <= n <= |s|
    ensures s[..n][lo..hi] == s[lo..hi]
  {
  }

  lemma HorizonUtilityLocal(bars: Bars, n: nat, idx: nat, horizon: int, c: LabelConfig)
    requires bars.Valid() && n <= bars.Rows() && horizon >= 1 && idx + horizon < n && bars.open[idx + 1] > 0.0
    ensures HorizonUtility(bars.Prefix(n), idx, horizon, c) == HorizonUtility(bars, idx, horizon, c)
  {
    SliceOfPrefix(bars.close, n, idx + 1, idx + horizon + 1);
    SliceOfPrefix(bars.low, n, idx + 1, idx + horizon + 1);
    assert bars.Prefix(n).open[idx + 1] == bars.open[idx + 1];
  }

  /** A label that is known after n sessions never changes: it reads only the sessions after its row
      up to the longest horizon. */
  lemma LabelLocal(bars: Bars, n: nat, idx: nat, c: LabelConfig)
    requires bars.Valid() && c.Valid() && n <= bars.Rows() && idx + Largest(c.horizons) < n
    ensures Label(bars.Prefix(n), idx, c) == Label(bars, idx, c)
  {
    hide WeightedUtility;
    hide Movement;
    var longest := Largest(c.horizons);
    assert bars.Prefix(n).open[idx + 1] == bars.open[idx + 1];
    SliceOfPrefix(bars.close, n, idx + 1, idx + longest + 1);
    SliceOfPrefix(bars.high, n, idx + 1, idx + longest + 1);
    if bars.open[idx + 1] > 0.0 {
      WeightedUtilityLocal(bars, n, idx, c, |c.horizons|);
    }
  }

  /** Fitting a fold looks at nothing after the decisions it is used for. The calibration model's
      labels are what they would be if history ended where its calibration window starts, and the
      final model's labels are what they would be at the close of the first decision it serves. */
  lemma TrainingIgnoresFuture(folds: seq<Fold>, rows: int, config: Config, bars: Bars, c: LabelConfig, i: nat, idx: nat)
    requires ValidFolds(folds, rows, config) && bars.Valid() && bars.Rows() == rows
    requires c.Valid() && c.horizons == config.horizons && i < |folds|
    ensures 0 < folds[i].trainEnd <= folds[i].calibrationStart < folds[i].testStart <= rows
    ensures idx < folds[i].trainEnd ==>
              Label(bars, idx, c) == Label(bars.Prefix(folds[i].calibrationStart), idx, c)
    ensures idx < folds[i].finalFitEnd ==>
              Label(bars, idx, c) == Label(bars.Prefix(folds[i].testStart), idx, c)
    ensures forall decision :: Serves(folds[i], decision) ==> folds[i].testStart <= decision + 1
  {
    var ranges: seq<Range> :| FoldsOf(folds, ranges, config)
                              && Contiguous(ranges, config.FirstTestStart(), rows, config.minTestDays);
    ContiguousBounds(ranges, config.FirstTestStart(), rows, config.minTestDays);
    var f := folds[i];
    assert f == FoldOf(i + 1, ranges[i], config) && config.FirstTestStart() <= ranges[i].0 <= rows;
    assert config.Purge() >= Largest(config.horizons) >= 1;
    hide Label;
    if idx < f.trainEnd {
      LabelLocal(bars, f.calibrationStart, idx, c);
    }
    if idx < f.finalFitEnd {
      LabelLocal(bars, f.testStart, idx, c);
    }
  }

  // ---------------------------------------------------------------- the live fold

  /** The fold of a live decision after rows completed sessions: the same arithmetic at the end. */
  function LiveFold(rows: nat, config: Config): Result<Fold, Error>
    requires config.Valid()
  {
    var fold := FoldOf(0, (rows, rows), config);
    if fold.trainEnd < config.minTrain then Err(TrainingTooShort(0))
    else if fold.calibrationStart < 0 || fold.calibrationEnd <= fold.calibrationStart then Err(NoFold)
    else if fold.finalFitEnd <= 0 then Err(NoFold)
    else Ok(fold)
  }

  /** Only short history is refused, and every label the live models are fitted on is realised: it is
      present unless the entry price is unusable, and later sessions do not change it. */
  lemma LiveLabelsAreRealised(rows: nat, config: Config, bars: Bars, c: LabelConfig, idx: nat)
    requires config.Valid() && bars.Valid() && rows <= bars.Rows() && c.Valid() && c.horizons == config.horizons
    ensures LiveFold(rows, config).Err? <==> rows < config.FirstTestStart()
    ensures LiveFold(rows, config).Err? ==> LiveFold(rows, config).error.TrainingTooShort?
    ensures LiveFold(rows, config).Ok? && idx < LiveFold(rows, config).value.finalFitEnd ==>
              && Label(bars, idx, c) == Label(bars.Prefix(rows), idx, c)
              && (Label(bars, idx, c).None? <==> bars.open[idx + 1] <= 0.0)
  {
    var r := LiveFold(rows, config);
    assert config.Purge() >= Largest(config.horizons) >= 1;
    if r.Ok? && idx < r.value.finalFitEnd {
      LabelLocal(bars, rows, idx, c);
    }
  }
}
