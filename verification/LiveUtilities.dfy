/**
 The live utilities of engine/live_policy.py (live_model_utilities) against the researched ones of
 engine/capital_rotation.py (_model_utilities).

 The live function does not ask for a tradable next session: live, there is none yet. Main results:
 the two vectors of a date are equal if and only if every symbol with a prediction has a tradable next
 session (VectorsAgreeIff); then, and on dates where this holds of the cash edges too, the live policy
 acts as the researched one (LiveActsAsResearch); on the last session of its frames the researched
 vector has no asset at all (LastSessionIsBlank).
 */
module LiveUtilities {
  import opened Common
  import opened RotationPolicy
  import opened UtilityCache

  /** The row a date has a prediction from, tradable or not. */
  predicate Ready(f: Frame, date: int, k: nat) {
    k < |f.index| == |f.bars| && f.index[k] == date && f.bars[k].features.Some?
  }

  /** The symbol has a model and a complete row on the date. */
  ghost predicate Predicted(models: map<string, Model>, frames: map<string, Frame>, symbol: string, date: int) {
    symbol in models && symbol in frames && exists k: nat :: Ready(frames[symbol], date, k)
  }

  /** The symbol's session after the date can be traded. */
  ghost predicate TradableNext(frames: map<string, Frame>, symbol: string, date: int) {
    symbol in frames && exists k: nat :: Usable(frames[symbol], date, k)
  }

  ghost function LiveRow(m: Model, f: Frame, date: int): Utility {
    if exists k: nat :: Ready(f, date, k) then
      var k: nat :| Ready(f, date, k);
      Fin(Predict(m, f.bars[k].features.value))
    else NegInf
  }

  ghost function LiveCell(models: map<string, Model>, frames: map<string, Frame>, symbol: string, date: int): Utility {
    if symbol in models && symbol in frames then LiveRow(models[symbol], frames[symbol], date) else NegInf
  }

  ghost predicate IsLiveUtilities(models: map<string, Model>, frames: map<string, Frame>, symbols: seq<string>,
                                  date: int, row: seq<Utility>)
  {
    |row| == |symbols| + 1 && row[0] == Fin(0.0)
    && forall c :: 1 <= c < |row| ==> row[c] == LiveCell(models, frames, symbols[c - 1], date)
  }

  lemma LiveRowAt(m: Model, f: Frame, date: int, k: nat)
    requires ValidFrame(f) && k < |f.index| && f.index[k] == date
    ensures LiveRow(m, f, date) == if Ready(f, date, k) then Fin(Predict(m, f.bars[k].features.value)) else NegInf
  {
    hide Predict;
    assert forall other: nat :: Ready(f, date, other) ==> other == k;
  }

  /** live_model_utilities */
  method LiveModelUtilities(models: map<string, Model>, frames: map<string, Frame>, symbols: seq<string>, date: int)
    returns (row: Result<seq<Utility>, Error>)
    requires Valid(models, frames)
    ensures row.Err? <==> !Complete(symbols, frames)
    ensures row.Ok? ==> IsLiveUtilities(models, frames, symbols, date, row.value)
  {
    var values := [Fin(0.0)];
    for c := 0 to |symbols|
      invariant |values| == c + 1 && values[0] == Fin(0.0)
      invariant forall i :: 0 <= i < c ==> symbols[i] in frames
      invariant forall i :: 1 <= i <= c ==> values[i] == LiveCell(models, frames, symbols[i - 1], date)
    {
      var symbol := symbols[c];
      if symbol !in frames {
        return Err(NoFrame);
      }
      var value := NegInf;
      var frame := frames[symbol];
      assert ValidFrame(frame);
      var location := Locate(frame.index, date);
      if symbol in models && location >= 0 {
        LiveRowAt(models[symbol], frame, date, location);
        if frame.bars[location].features.Some? {
          var batch := [frame.bars[location].features.value];
          var prediction := models[symbol](batch);
          assert RowWise(models[symbol]) && PerRow(models[symbol], batch);
          value := Fin(prediction[0]);
        }
      }
      values := values + [value];
    }
    return Ok(values);
  }

  /** One symbol's utilities agree exactly when a prediction comes with a tradable next session; where
      they do not, the researched one is missing. */
  lemma CellsAgreeIff(models: map<string, Model>, frames: map<string, Frame>, symbol: string, date: int)
    requires Valid(models, frames)
    ensures var live, research := LiveCell(models, frames, symbol, date), Cell(models, frames, symbol, date);
            && (live == research <==> (Predicted(models, frames, symbol, date) ==> TradableNext(frames, symbol, date)))
            && (live != research ==> live.Fin? && research == NegInf)
  {
    hide Predict, MarketOk;
    if symbol in models && symbol in frames {
      var f := frames[symbol];
      assert ValidFrame(f);
      if k: nat :| Ready(f, date, k) {
        LiveRowAt(models[symbol], f, date, k);
        RowUtilityAt(models[symbol], f, date, k);
        assert forall other: nat :: Usable(f, date, other) ==> other == k;
      } else {
        assert forall k: nat :: Usable(f, date, k) ==> Ready(f, date, k);
      }
    }
  }

  /** The live and the researched vector of a date are equal if and only if every symbol with a
      prediction has a tradable next session. */
  lemma VectorsAgreeIff(models: map<string, Model>, frames: map<string, Frame>, symbols: seq<string>, date: int,
                        live: seq<Utility>, research: seq<Utility>)
    requires Valid(models, frames)
    requires IsLiveUtilities(models, frames, symbols, date, live)
             && IsUtilities(models, frames, symbols, date, research)
    ensures live == research <==>
              forall c :: 0 <= c < |symbols| && Predicted(models, frames, symbols[c], date) ==>
                            TradableNext(frames, symbols[c], date)
  {
    hide LiveCell, Cell, Predicted, TradableNext;
    forall c | 0 <= c < |symbols|
      ensures live[c + 1] == research[c + 1] <==>
                (Predicted(models, frames, symbols[c], date) ==> TradableNext(frames, symbols[c], date))
    {
      CellsAgreeIff(models, frames, symbols[c], date);
    }
    if forall c :: 0 <= c < |symbols| && Predicted(models, frames, symbols[c], date) ==>
                     TradableNext(frames, symbols[c], date) {
      forall i | 0 <= i < |live|
        ensures live[i] == research[i]
      {
        if i > 0 {
          assert live[(i - 1) + 1] == research[(i - 1) + 1];
        }
      }
    }
  }

  /** From the same models and frames the live policy takes the researched target with the researched
      score on every date where each predicted symbol, of the utilities and of the cash edges, has a
      tradable next session. */
  lemma LiveActsAsResearch(mode: Mode, models: map<string, Model>, edgeModels: map<string, Model>,
                           frames: map<string, Frame>, symbols: seq<string>, date: int,
                           live: seq<Utility>, research: seq<Utility>,
                           liveEdges: seq<Utility>, edges: seq<Utility>, position: nat, holding: nat, c: Config,
                           calibrated: real)
    requires Valid(models, frames) && Valid(edgeModels, frames) && position <= |symbols|
    requires IsLiveUtilities(models, frames, symbols, date, live)
             && IsUtilities(models, frames, symbols, date, research)
    requires IsLiveUtilities(edgeModels, frames, symbols, date, liveEdges)
             && IsUtilities(edgeModels, frames, symbols, date, edges)
    requires forall k :: 0 <= k < |symbols| && Predicted(models, frames, symbols[k], date) ==>
                           TradableNext(frames, symbols[k], date)
    requires forall k :: 0 <= k < |symbols| && Predicted(edgeModels, frames, symbols[k], date) ==>
                           TradableNext(frames, symbols[k], date)
    ensures var d := Decide(mode, research, edges, position, holding, c, calibrated);
            DecideLive(mode, live, liveEdges, position, holding, c, calibrated) == (d.target, d.score)
  {
    hide Predicted, TradableNext, Decide, DecideLive;
    VectorsAgreeIff(models, frames, symbols, date, live, research);
    VectorsAgreeIff(edgeModels, frames, symbols, date, liveEdges, edges);
    LiveEqualsResearch(mode, research, edges, position, holding, c, calibrated);
  }

  /** On the last session of every frame the researched function has no asset to offer, while the live
      one offers every predicted symbol: the live decision is one research never sees. */
  lemma LastSessionIsBlank(models: map<string, Model>, frames: map<string, Frame>, symbols: seq<string>, date: int,
                           live: seq<Utility>, research: seq<Utility>)
    requires Valid(models, frames)
    requires forall s :: s in frames ==> date !in frames[s].index[..MaxInt(0, |frames[s].index| - 1)]
    requires IsLiveUtilities(models, frames, symbols, date, live)
             && IsUtilities(models, frames, symbols, date, research)
    ensures !Tradable(research)
    ensures Tradable(live) <==> exists c :: 0 <= c < |symbols| && Predicted(models, frames, symbols[c], date)
  {
    forall c | 0 <= c < |symbols|
      ensures research[c + 1] == NegInf && (live[c + 1].Fin? <==> Predicted(models, frames, symbols[c], date))
    {
      LastCellIsBlank(models, frames, symbols[c], date);
    }
    hide IsLiveUtilities, IsUtilities, Predicted;
    forall k | 0 < k < |research|
      ensures research[k] == NegInf
    {
      assert research[(k - 1) + 1] == NegInf;
    }
    if Tradable(live) {
      var k :| 0 < k < |live| && live[k].Fin?;
      assert live[(k - 1) + 1].Fin?;
    }
  }

  lemma LastCellIsBlank(models: map<string, Model>, frames: map<string, Frame>, symbol: string, date: int)
    requires Valid(models, frames)
    requires symbol in frames ==> date !in frames[symbol].index[..MaxInt(0, |frames[symbol].index| - 1)]
    ensures Cell(models, frames, symbol, date) == NegInf
    ensures LiveCell(models, frames, symbol, date).Fin? <==> Predicted(models, frames, symbol, date)
  {
    hide Predict;
    if symbol in models && symbol in frames {
      var f := frames[symbol];
      assert ValidFrame(f);
      forall k: nat
        ensures !Usable(f, date, k)
      {
        if k + 1 < |f.index| {
          assert f.index[..|f.index| - 1][k] == f.index[k];
        }
      }
      NoUsableRow(models[symbol], f, date);
    }
  }
}
