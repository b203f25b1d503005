/**
 The checkpoint, resume and heartbeat protocol of the asset state clustering: build_and_persist of
 asset_state_clustering/service.py and the worker pool of build_analysis in analysis.py.

 Main results, over every run of the protocol, with crashes, failures, cancellations and late
 heartbeats at any point and workers finishing in any order: a finished analysis holds exactly the
 results of an uninterrupted one (FinishedIsUninterrupted); the completed count is the number of
 stored results (CountIsStored); a completed document never changes again and a late heartbeat
 changes no terminal document (CompletedIsFinal, HeartbeatSparesTerminal). A resumed run whose
 observations changed keeps the old results; it is right exactly when these still agree
 (ResumeIsRightIff).

 The analysis of one symbol is a function of version, settings hash, observations and symbol.
 */
module Clustering {
  import opened Common

  /** What _analyze_symbol returns, without its timings. */
  datatype AssetResult = AssetResult(payload: string)

  /** The analysis, and the symbols with observations in their sorted order. */
  datatype World = World(analyze: (int, int, int, string) -> AssetResult, symbols: int -> seq<string>)

  type Results = map<string, AssetResult>

  datatype Status = Running | Completed | Stopped | Failed

  datatype Progress = Progress(completed: nat, total: nat, last: Option<string>)

  datatype Document =
    Document(version: int, hash: int, status: Status, progress: Progress, outcome: Option<seq<AssetResult>>)

  /** Between the completion of a future and the end of its checkpoint callback. */
  datatype Phase = Idle | Recorded(symbol: string) | Persisted(symbol: string) | Counted(symbol: string)

  /** One call of build_and_persist: the results it resumed from, those it has, its progress state. */
  datatype Worker = Worker(id: nat, version: int, hash: int, data: int, resumed: Results, results: Results,
    completedCount: nat, progress: Progress, phase: Phase)

  /** The documents of one processing in order of creation, the checkpoints of each, and the worker. */
  datatype State = State(docs: seq<Document>, points: seq<Results>, worker: Option<Worker>)

  datatype Event =
    | Start(version: int, hash: int, data: int)
    | Record(symbol: string)
    | Persist
    | Count
    | Publish
    | Heartbeat(id: nat, progress: Progress)
    | Finish
    | Cancel
    | Fail
    | Crash

  // ---------------------------------------------------------------- the results of one analysis

  /** The checkpoints that concern an observed symbol. */
  function Known(symbols: seq<string>, stored: Results): (known: Results)
    ensures forall s :: s in known <==> s in stored && s in symbols
    ensures forall s :: s in known ==> known[s] == stored[s]
  {
    map s | s in stored && s in symbols :: stored[s]
  }

  /** The results in symbol order. */
  function Assemble(symbols: seq<string>, results: Results): (ordered: seq<AssetResult>)
    requires forall s :: s in symbols ==> s in results
    ensures |ordered| == |symbols| && forall i :: 0 <= i < |symbols| ==> ordered[i] == results[symbols[i]]
  {
    if symbols == [] then []
    else
      assert forall s :: s in symbols[1..] ==> s in symbols;
      [results[symbols[0]]] + Assemble(symbols[1..], results)
  }

  /** What an uninterrupted analysis of all symbols gives. */
  function Fresh(w: World, version: int, hash: int, data: int): (results: Results)
    ensures forall s :: s in results <==> s in w.symbols(data)
    ensures forall s :: s in results ==> results[s] == w.analyze(version, hash, data, s)
  {
    map s | s in w.symbols(data) :: w.analyze(version, hash, data, s)
  }

  function Outcome(w: World, version: int, hash: int, data: int): seq<AssetResult> {
    Assemble(w.symbols(data), Fresh(w, version, hash, data))
  }

  ghost predicate IsOrderOf(order: seq<string>, symbols: seq<string>, known: Results) {
    && (forall i, j :: 0 <= i < j < |order| ==> order[i] != order[j])
    && (forall s :: s in order <==> s in symbols && s !in known)
  }

  /** build_analysis: resume from the checkpoints, then take the pending symbols in the order their
      workers finish. Any order gives the same result. */
  method BuildAnalysis(w: World, version: int, hash: int, data: int, stored: Results, order: seq<string>)
    returns (ordered: seq<AssetResult>, completedCount: nat)
    requires IsOrderOf(order, w.symbols(data), Known(w.symbols(data), stored))
    requires forall s :: s in stored && s in w.symbols(data) ==> stored[s] == w.analyze(version, hash, data, s)
    ensures ordered == Outcome(w, version, hash, data)
    ensures completedCount == |Fresh(w, version, hash, data)|
  {
    var symbols := w.symbols(data);
    var results := Known(symbols, stored);
    completedCount := |results|;
    for i := 0 to |order|
      invariant forall s :: s in results <==> s in Known(symbols, stored) || s in order[..i]
      invariant forall s :: s in results ==> results[s] == w.analyze(version, hash, data, s)
      invariant completedCount == |results|
    {
      assert order[i] in order;
      results := results[order[i] := w.analyze(version, hash, data, order[i])];
      completedCount := completedCount + 1;
    }
    assert order[..|order|] == order;
    assert results == Fresh(w, version, hash, data);
    ordered := Assemble(symbols, results);
  }

  // ---------------------------------------------------------------- the protocol

  /** The latest document can be resumed with this version and settings. */
  predicate Compatible(s: State, version: int, hash: int) {
    s.docs != [] && var d := s.docs[|s.docs| - 1]; d.version == version && d.hash == hash
  }

  predicate Finished(s: State) {
    s.docs != [] && s.docs[|s.docs| - 1].status == Completed
  }

  function Launch(w: World, s: State, id: nat, version: int, hash: int, data: int): State
    requires id < |s.docs| == |s.points|
  {
    var stored := s.points[id];
    var known := Known(w.symbols(data), stored);
    var progress := Progress(|stored|, |w.symbols(data)|, s.docs[id].progress.last);
    var doc := Document(version, hash, Running, progress, None);
    State(s.docs[id := doc], s.points, Some(Worker(id, version, hash, data, known, known, |known|, progress, Idle)))
  }

  const FRESH_DOCUMENT := Document(0, 0, Running, Progress(0, 0, None), None)

  /** One step; none when the event cannot happen. */
  function Step(w: World, s: State, e: Event): (next: Option<State>)
    requires |s.docs| == |s.points| && (s.worker.Some? ==> s.worker.value.id < |s.docs|)
    ensures next.Some? ==> |next.value.docs| == |next.value.points|
    ensures next.Some? && next.value.worker.Some? ==> next.value.worker.value.id < |next.value.docs|
  {
    match e
    case Start(version, hash, data) =>
      if s.worker.Some? then None
      else if Finished(s) then Some(s)
      else if Compatible(s, version, hash) then Some(Launch(w, s, |s.docs| - 1, version, hash, data))
      else Some(Launch(w, State(s.docs + [FRESH_DOCUMENT], s.points + [map[]], None), |s.docs|, version, hash, data))
    case Heartbeat(id, progress) =>
      if id >= |s.docs| then None
      else if s.docs[id].status != Running then Some(s)
      else Some(s.(docs := s.docs[id := s.docs[id].(progress := progress)]))
    case _ =>
      if s.worker.None? then None else WorkerStep(w, s, s.worker.value, e)
  }

  function WorkerStep(w: World, s: State, k: Worker, e: Event): (next: Option<State>)
    requires |s.docs| == |s.points| && k.id < |s.docs|
    ensures next.Some? ==> |next.value.docs| == |next.value.points| == |s.docs|
    ensures next.Some? && next.value.worker.Some? ==> next.value.worker.value.id == k.id
  {
    var doc := s.docs[k.id];
    match e
    case Record(symbol) =>
      if k.phase.Idle? && symbol in w.symbols(k.data) && symbol !in k.results then
        Some(s.(worker := Some(k.(results := k.results[symbol := w.analyze(k.version, k.hash, k.data, symbol)],
                                  completedCount := k.completedCount + 1, phase := Recorded(symbol)))))
      else None
    case Persist =>
      if k.phase.Recorded? && k.phase.symbol in k.results then
        Some(s.(points := s.points[k.id := s.points[k.id][k.phase.symbol := k.results[k.phase.symbol]]],
                worker := Some(k.(phase := Persisted(k.phase.symbol)))))
      else None
    case Count =>
      if k.phase.Persisted? then
        Some(s.(worker := Some(k.(progress := Progress(k.completedCount, |w.symbols(k.data)|, Some(k.phase.symbol)),
                                  phase := Counted(k.phase.symbol)))))
      else None
    case Publish =>
      if k.phase.Counted? then
        Some(s.(docs := if doc.status == Running then s.docs[k.id := doc.(progress := k.progress)] else s.docs,
                worker := Some(k.(phase := Idle))))
      else None
    case Finish =>
      if k.phase.Idle? && forall x :: x in w.symbols(k.data) ==> x in k.results then
        var total := |w.symbols(k.data)|;
        var done := Document(k.version, k.hash, Completed, Progress(total, total, k.progress.last),
                             Some(Assemble(w.symbols(k.data), k.results)));
        Some(State(s.docs[k.id := done], s.points, None))
      else None
    case Cancel =>
      if k.phase.Idle? then Some(State(s.docs[k.id := doc.(status := Stopped)], s.points, None)) else None
    case Fail => Some(State(s.docs[k.id := doc.(status := Failed)], s.points, None))
    case Crash => Some(State(s.docs, s.points, None))
    case _ => None
  }

  // ---------------------------------------------------------------- what every step keeps

  ghost predicate Stored(w: World, data: int, doc: Document, points: Results) {
    forall x :: x in points ==> x in w.symbols(data) && points[x] == w.analyze(doc.version, doc.hash, data, x)
  }

  ghost predicate DocumentOk(w: World, data: int, doc: Document) {
    if doc.status == Completed
    then doc.outcome == Some(Outcome(w, doc.version, doc.hash, data))
    else doc.outcome == None
  }

  /** The worker's results are the checkpoints, but for the one being persisted. */
  ghost predicate WorkerOk(w: World, data: int, k: Worker, doc: Document, points: Results) {
    && k.data == data && k.version == doc.version && k.hash == doc.hash && doc.status == Running
    && Stored(w, data, doc, k.results) && k.completedCount == |k.results|
    && k.progress.total == |w.symbols(data)|
    && match k.phase
       case Idle => k.results == points && k.progress.completed == |points|
       case Recorded(x) => x !in points && k.results == points[x := w.analyze(k.version, k.hash, data, x)]
       case Persisted(x) => x in points && k.results == points
       case Counted(x) => k.results == points && k.progress.completed == |points|
  }

  ghost predicate Inv(w: World, data: int, s: State) {
    && |s.docs| == |s.points|
    && (forall i :: 0 <= i < |s.docs| ==> Stored(w, data, s.docs[i], s.points[i]) && DocumentOk(w, data, s.docs[i]))
    && (forall i :: 0 <= i < |s.docs| - 1 ==> s.docs[i].status != Completed)
    && (s.worker.Some? ==>
          var k := s.worker.value;
          k.id == |s.docs| - 1 && k.id >= 0 && WorkerOk(w, data, k, s.docs[k.id], s.points[k.id]))
  }

  /** The event starts the service, if at all, on these observations. */
  predicate OnData(e: Event, data: int) {
    e.Start? ==> e.data == data
  }

  lemma KnownOfStored(w: World, data: int, doc: Document, points: Results)
    requires Stored(w, data, doc, points)
    ensures Known(w.symbols(data), points) == points
  {
  }

  lemma LaunchKeepsInv(w: World, data: int, s: State, id: nat, version: int, hash: int)
    requires |s.docs| == |s.points| == id + 1 && s.worker.None?
    requires forall i :: 0 <= i < id ==>
              Stored(w, data, s.docs[i], s.points[i]) && DocumentOk(w, data, s.docs[i]) && s.docs[i].status != Completed
    requires Stored(w, data, Document(version, hash, Running, Progress(0, 0, None), None), s.points[id])
    ensures Inv(w, data, Launch(w, s, id, version, hash, data))
  {
    hide Outcome;
    KnownOfStored(w, data, Document(version, hash, Running, Progress(0, 0, None), None), s.points[id]);
  }

  lemma StartKeepsInv(w: World, data: int, s: State, version: int, hash: int)
    requires Inv(w, data, s) && Step(w, s, Start(version, hash, data)).Some?
    ensures Inv(w, data, Step(w, s, Start(version, hash, data)).value)
  {
    hide Launch, Outcome;
    var n := |s.docs|;
    if Finished(s) {
    } else if Compatible(s, version, hash) {
      LaunchKeepsInv(w, data, s, n - 1, version, hash);
    } else {
      LaunchKeepsInv(w, data, State(s.docs + [FRESH_DOCUMENT], s.points + [map[]], None), n, version, hash);
    }
  }

  lemma FinishKeepsInv(w: World, data: int, s: State)
    requires Inv(w, data, s) && s.worker.Some? && WorkerStep(w, s, s.worker.value, Finish).Some?
    ensures Inv(w, data, WorkerStep(w, s, s.worker.value, Finish).value)
  {
    var k := s.worker.value;
    assert k.results == Fresh(w, k.version, k.hash, data);
  }

  lemma WorkKeepsInv(w: World, data: int, s: State, e: Event)
    requires Inv(w, data, s) && s.worker.Some? && e in [Persist, Count, Publish]
    requires WorkerStep(w, s, s.worker.value, e).Some?
    ensures Inv(w, data, WorkerStep(w, s, s.worker.value, e).value)
  {
    hide Outcome;
  }

  lemma RecordKeepsInv(w: World, data: int, s: State, symbol: string)
    requires Inv(w, data, s) && s.worker.Some? && WorkerStep(w, s, s.worker.value, Record(symbol)).Some?
    ensures Inv(w, data, WorkerStep(w, s, s.worker.value, Record(symbol)).value)
  {
    hide Outcome;
  }

  lemma EndKeepsInv(w: World, data: int, s: State, e: Event)
    requires Inv(w, data, s) && s.worker.Some? && e in [Cancel, Fail, Crash]
    requires WorkerStep(w, s, s.worker.value, e).Some?
    ensures Inv(w, data, WorkerStep(w, s, s.worker.value, e).value)
  {
    hide Outcome;
  }

  lemma HeartbeatKeepsInv(w: World, data: int, s: State, id: nat, progress: Progress)
    requires Inv(w, data, s) && id < |s.docs|
    ensures Inv(w, data, Step(w, s, Heartbeat(id, progress)).value)
  {
    hide Outcome;
  }

  lemma StepKeepsInv(w: World, data: int, s: State, e: Event)
    requires Inv(w, data, s) && OnData(e, data) && Step(w, s, e).Some?
    ensures Inv(w, data, Step(w, s, e).value)
  {
    match e
    case Start(version, hash, _) => StartKeepsInv(w, data, s, version, hash);
    case Heartbeat(id, progress) => HeartbeatKeepsInv(w, data, s, id, progress);
    case Record(symbol) => RecordKeepsInv(w, data, s, symbol);
    case Finish => FinishKeepsInv(w, data, s);
    case Persist => WorkKeepsInv(w, data, s, e);
    case Count => WorkKeepsInv(w, data, s, e);
    case Publish => WorkKeepsInv(w, data, s, e);
    case Cancel => EndKeepsInv(w, data, s, e);
    case Fail => EndKeepsInv(w, data, s, e);
    case Crash => EndKeepsInv(w, data, s, e);
  }

  // ---------------------------------------------------------------- whole runs

  ghost predicate WellFormed(s: State) {
    |s.docs| == |s.points| && (s.worker.Some? ==> s.worker.value.id < |s.docs|)
  }

  /** The state after the events, if they can happen in this order. */
  function Run(w: World, s: State, events: seq<Event>): (end: Option<State>)
    requires WellFormed(s)
    ensures end.Some? ==> WellFormed(end.value)
    decreases |events|
  {
    if events == [] then Some(s)
    else
      var next := Step(w, s, events[0]);
      if next.None? then None else Run(w, next.value, events[1..])
  }

  const INITIAL := State([], [], None)

  predicate AllOnData(events: seq<Event>, data: int) {
    forall i :: 0 <= i < |events| ==> OnData(events[i], data)
  }

  lemma {:induction false} RunKeepsInv(w: World, data: int, s: State, events: seq<Event>)
    requires Inv(w, data, s) && AllOnData(events, data) && Run(w, s, events).Some?
    ensures Inv(w, data, Run(w, s, events).value)
    decreases |events|
  {
    hide Inv, Step;
    if events != [] {
      InvIsWellFormed(w, data, s);
      StepKeepsInv(w, data, s, events[0]);
      RunKeepsInv(w, data, Step(w, s, events[0]).value, events[1..]);
    }
  }

  lemma InvIsWellFormed(w: World, data: int, s: State)
    requires Inv(w, data, s)
    ensures WellFormed(s)
  {
  }

  /** However a run was interrupted and resumed, a completed document is the last one and holds the
      results of an uninterrupted analysis of the same observations. */
  lemma FinishedIsUninterrupted(w: World, data: int, events: seq<Event>, i: nat)
    requires AllOnData(events, data) && Run(w, INITIAL, events).Some?
    ensures var s := Run(w, INITIAL, events).value;
            i < |s.docs| && s.docs[i].status == Completed ==>
              i == |s.docs| - 1 && s.docs[i].outcome == Some(Outcome(w, s.docs[i].version, s.docs[i].hash, data))
  {
    RunKeepsInv(w, data, INITIAL, events);
  }

  /** The count a worker reports is the number of its results, and whenever it waits for the next
      worker to finish, of the results in the store. */
  lemma CountIsStored(w: World, data: int, events: seq<Event>)
    requires AllOnData(events, data) && Run(w, INITIAL, events).Some?
    ensures var s := Run(w, INITIAL, events).value;
            s.worker.Some? ==>
              var k := s.worker.value; var stored := |s.points[k.id]|;
              && k.completedCount == |k.results| == (if k.phase.Recorded? then stored + 1 else stored)
              && (k.phase.Idle? || k.phase.Counted? ==>
                    k.progress.completed == stored && k.progress.total == |w.symbols(data)|)
  {
    RunKeepsInv(w, data, INITIAL, events);
  }

  /** A late heartbeat, from whatever worker and with whatever progress, changes nothing but the
      progress of a running document. */
  lemma HeartbeatSparesTerminal(w: World, s: State, id: nat, progress: Progress, i: nat)
    requires WellFormed(s) && id < |s.docs| && i < |s.docs|
    ensures var after := Step(w, s, Heartbeat(id, progress)).value;
            && |after.docs| == |s.docs| && after.points == s.points && after.worker == s.worker
            && (i != id || s.docs[i].status != Running ==> after.docs[i] == s.docs[i])
            && after.docs[i].(progress := progress) == s.docs[i].(progress := progress)
  {
  }

  /** Only a new start changes a stopped or failed document, and nothing changes a completed one. */
  lemma TerminalStep(w: World, data: int, s: State, e: Event, i: nat)
    requires Inv(w, data, s) && OnData(e, data) && Step(w, s, e).Some? && i < |s.docs|
    requires s.docs[i].status == Completed || (s.docs[i].status != Running && !e.Start?)
    ensures i < |Step(w, s, e).value.docs| && Step(w, s, e).value.docs[i] == s.docs[i]
  {
    hide Outcome, Stored, DocumentOk;
  }

  lemma {:induction false} CompletedIsFinal(w: World, data: int, s: State, events: seq<Event>, i: nat)
    requires Inv(w, data, s) && AllOnData(events, data) && Run(w, s, events).Some?
    requires i < |s.docs| && s.docs[i].status == Completed
    ensures var end := Run(w, s, events).value; i < |end.docs| && end.docs[i] == s.docs[i]
    decreases |events|
  {
    hide Inv, Step;
    if events != [] {
      InvIsWellFormed(w, data, s);
      StepKeepsInv(w, data, s, events[0]);
      TerminalStep(w, data, s, events[0], i);
      CompletedIsFinal(w, data, Step(w, s, events[0]).value, events[1..], i);
    }
  }

  // ---------------------------------------------------------------- every order finishes

  function Cycle(symbol: string): seq<Event> { [Record(symbol), Persist, Count, Publish] }

  function Schedule(order: seq<string>): seq<Event> {
    if order == [] then [Finish] else Cycle(order[0]) + Schedule(order[1..])
  }

  lemma CycleAddsOne(w: World, data: int, s: State, symbol: string)
    requires Inv(w, data, s) && s.worker.Some? && s.worker.value.phase.Idle?
    requires symbol in w.symbols(data) && symbol !in s.worker.value.results
    ensures Run(w, s, Cycle(symbol)).Some?
    ensures var end := Run(w, s, Cycle(symbol)).value; var k := s.worker.value;
            && Inv(w, data, end) && end.worker.Some? && end.worker.value.phase.Idle?
            && end.worker.value.results == k.results[symbol := w.analyze(k.version, k.hash, data, symbol)]
            && end.worker.value.id == k.id && end.worker.value.version == k.version && end.worker.value.hash == k.hash
  {
    var k := s.worker.value;
    var s1 := Step(w, s, Record(symbol)).value;
    RecordKeepsInv(w, data, s, symbol);
    var s2 := Step(w, s1, Persist).value;
    WorkKeepsInv(w, data, s1, Persist);
    var s3 := Step(w, s2, Count).value;
    WorkKeepsInv(w, data, s2, Count);
    var s4 := Step(w, s3, Publish).value;
    WorkKeepsInv(w, data, s3, Publish);
    hide Step, Inv;
    var c := Cycle(symbol);
    assert c[1..][1..][1..] == [Publish];
    RunOne(w, s3, Publish);
    assert Run(w, s, c) == Run(w, s1, c[1..]) == Run(w, s2, c[1..][1..]) == Run(w, s3, [Publish]);
  }

  lemma RunOne(w: World, s: State, e: Event)
    requires WellFormed(s)
    ensures Run(w, s, [e]) == Step(w, s, e)
  {
  }

  lemma {:induction false} RunAppend(w: World, s: State, a: seq<Event>, b: seq<Event>)
    requires WellFormed(s)
    ensures Run(w, s, a).Some? ==> Run(w, s, a + b) == Run(w, Run(w, s, a).value, b)
    decreases |a|
  {
    hide Step;
    if a == [] {
      assert a + b == b;
    } else if Step(w, s, a[0]).Some? {
      assert (a + b)[1..] == a[1..] + b;
      RunAppend(w, Step(w, s, a[0]).value, a[1..], b);
    }
  }

  lemma FinishCompletes(w: World, data: int, s: State)
    requires Inv(w, data, s) && s.worker.Some? && s.worker.value.phase.Idle?
    requires forall x :: x in w.symbols(data) ==> x in s.worker.value.results
    ensures Step(w, s, Finish).Some?
    ensures FinishedBy(w, data, s.worker.value, Step(w, s, Finish).value)
  {
    var k := s.worker.value;
    assert k.results == Fresh(w, k.version, k.hash, data);
  }

  /** The worker is done and its document holds the results of an uninterrupted analysis. */
  ghost predicate FinishedBy(w: World, data: int, k: Worker, end: State) {
    end.worker.None? && k.id < |end.docs| && end.docs[k.id].status == Completed
    && end.docs[k.id].outcome == Some(Outcome(w, k.version, k.hash, data))
  }

  lemma RestOfOrder(order: seq<string>, symbols: seq<string>, known: Results, longer: Results)
    requires order != [] && IsOrderOf(order, symbols, known) && longer.Keys == known.Keys + {order[0]}
    ensures IsOrderOf(order[1..], symbols, longer)
    ensures order[0] in symbols && order[0] !in known
  {
    assert order[0] in order;
    assert order == [order[0]] + order[1..];
  }

  /** From wherever a worker is waiting, the pending symbols may finish in any order, and the result
      is that of an uninterrupted analysis. */
  lemma {:induction false} EveryOrderFinishes(w: World, data: int, s: State, order: seq<string>)
    requires Inv(w, data, s) && s.worker.Some? && s.worker.value.phase.Idle?
    requires IsOrderOf(order, w.symbols(data), s.worker.value.results)
    ensures WellFormed(s) && Run(w, s, Schedule(order)).Some?
    ensures FinishedBy(w, data, s.worker.value, Run(w, s, Schedule(order)).value)
    decreases |order|
  {
    hide Inv, Step, Outcome, Run, Cycle;
    InvIsWellFormed(w, data, s);
    var k := s.worker.value;
    if order == [] {
      assert forall x :: x in w.symbols(data) ==> x in k.results;
      FinishCompletes(w, data, s);
      RunOne(w, s, Finish);
    } else {
      var result := w.analyze(k.version, k.hash, data, order[0]);
      RestOfOrder(order, w.symbols(data), k.results, k.results[order[0] := result]);
      CycleAddsOne(w, data, s, order[0]);
      EveryOrderFinishes(w, data, Run(w, s, Cycle(order[0])).value, order[1..]);
      RunAppend(w, s, Cycle(order[0]), Schedule(order[1..]));
    }
  }

  // ---------------------------------------------------------------- when the observations changed

  /** Each result is a checkpoint the worker resumed from, or its own analysis. */
  ghost predicate Honest(w: World, k: Worker) {
    && (forall x :: x in k.results ==> x in w.symbols(k.data))
    && (forall x :: x in k.resumed ==> x in k.results)
    && (forall x :: x in k.results ==>
          k.results[x] == if x in k.resumed then k.resumed[x] else w.analyze(k.version, k.hash, k.data, x))
  }

  /** Work and heartbeats: what happens while one worker runs. */
  predicate IsWork(e: Event) {
    e.Record? || e.Persist? || e.Count? || e.Publish? || e.Heartbeat?
  }

  /** The same call of the service, later. */
  predicate SameCall(before: Worker, after: Worker) {
    before.id == after.id && before.version == after.version && before.hash == after.hash
    && before.data == after.data && before.resumed == after.resumed
  }

  lemma WorkIsHonest(w: World, s: State, e: Event)
    requires WellFormed(s) && s.worker.Some? && Honest(w, s.worker.value) && IsWork(e) && Step(w, s, e).Some?
    ensures var after := Step(w, s, e).value.worker;
            after.Some? && Honest(w, after.value) && SameCall(s.worker.value, after.value)
  {
  }

  lemma {:induction false} RunIsHonest(w: World, s: State, events: seq<Event>)
    requires WellFormed(s) && s.worker.Some? && Honest(w, s.worker.value) && Run(w, s, events).Some?
    requires forall i :: 0 <= i < |events| ==> IsWork(events[i])
    ensures var after := Run(w, s, events).value.worker;
            after.Some? && Honest(w, after.value) && SameCall(s.worker.value, after.value)
    decreases |events|
  {
    hide Step, Honest;
    if events != [] {
      WorkIsHonest(w, s, events[0]);
      RunIsHonest(w, Step(w, s, events[0]).value, events[1..]);
    }
  }

  lemma AssembleAgrees(symbols: seq<string>, a: Results, b: Results)
    requires forall x :: x in symbols ==> x in a && x in b
    ensures Assemble(symbols, a) == Assemble(symbols, b) <==> forall x :: x in symbols ==> a[x] == b[x]
  {
    var p, q := Assemble(symbols, a), Assemble(symbols, b);
    if p == q {
      forall x | x in symbols
        ensures a[x] == b[x]
      {
        var i :| 0 <= i < |symbols| && symbols[i] == x;
        assert p[i] == q[i];
      }
    }
  }

  /** The checkpoints a start would resume from. */
  function Checkpoints(s: State, version: int, hash: int): Results
    requires WellFormed(s)
  {
    if Compatible(s, version, hash) then s.points[|s.docs| - 1] else map[]
  }

  /** A start does not look at the observations the checkpoints came from. Whatever they are, the
      result is that of an uninterrupted analysis of the current observations if and only if every
      checkpoint of an observed symbol already agrees with it. */
  lemma ResumeIsRightIff(w: World, s: State, version: int, hash: int, data: int, events: seq<Event>)
    requires WellFormed(s) && s.worker.None? && !Finished(s)
    requires forall i :: 0 <= i < |events| ==> IsWork(events[i])
    ensures var launched := Step(w, s, Start(version, hash, data));
            launched.Some? && Run(w, launched.value, events).Some? ==>
              var t := Run(w, launched.value, events).value;
              && t.worker.Some?
              && var id := t.worker.value.id;
                 && (Step(w, t, Finish).Some? ==> id < |Step(w, t, Finish).value.docs|)
                 && (Step(w, t, Finish).Some? ==>
                      (Step(w, t, Finish).value.docs[id].outcome == Some(Outcome(w, version, hash, data)) <==>
                        forall x :: x in Checkpoints(s, version, hash) && x in w.symbols(data) ==>
                          Checkpoints(s, version, hash)[x] == w.analyze(version, hash, data, x)))
  {
    var launched := Step(w, s, Start(version, hash, data)).value;
    var known := Known(w.symbols(data), Checkpoints(s, version, hash));
    assert launched.worker.Some? && launched.worker.value.resumed == known;
    assert Honest(w, launched.worker.value);
    if Run(w, launched, events).Some? {
      RunIsHonest(w, launched, events);
      var t := Run(w, launched, events).value;
      FinishIsRightIff(w, t, known);
    }
  }

  lemma FinishIsRightIff(w: World, t: State, known: Results)
    requires WellFormed(t) && t.worker.Some? && Honest(w, t.worker.value) && t.worker.value.resumed == known
    ensures var k := t.worker.value; var end := Step(w, t, Finish);
            && (end.Some? ==> k.id < |end.value.docs|)
            && (end.Some? ==>
                  (end.value.docs[k.id].outcome == Some(Outcome(w, k.version, k.hash, k.data)) <==>
                    forall x :: x in known ==> known[x] == w.analyze(k.version, k.hash, k.data, x)))
  {
    var k := t.worker.value;
    if Step(w, t, Finish).Some? {
      AssembleAgrees(w.symbols(k.data), k.results, Fresh(w, k.version, k.hash, k.data));
    }
  }

  lemma RunCons(w: World, s: State, e: Event, rest: seq<Event>)
    requires WellFormed(s) && Step(w, s, e).Some?
    ensures Run(w, s, [e] + rest) == Run(w, Step(w, s, e).value, rest)
  {
    hide Step;
    assert ([e] + rest)[1..] == rest;
  }

  /** One symbol is analysed and stored, the process dies, the observations change: the resumed run
      finishes with the old result. */
  lemma StaleResultIsKept(w: World)
    requires w.symbols(0) == ["A"] && w.symbols(1) == ["A"] && w.analyze(1, 1, 0, "A") != w.analyze(1, 1, 1, "A")
    ensures var end := Run(w, INITIAL, [Start(1, 1, 0), Record("A"), Persist, Crash, Start(1, 1, 1)] + [Finish]);
            end.Some? && |end.value.docs| == 1 && end.value.docs[0].outcome == Some([w.analyze(1, 1, 0, "A")])
            && end.value.docs[0].outcome != Some(Outcome(w, 1, 1, 1))
  {
    hide Run;
    var stale := map["A" := w.analyze(1, 1, 0, "A")];
    var s1 := Step(w, INITIAL, Start(1, 1, 0)).value;
    var s2 := Step(w, s1, Record("A")).value;
    var s3 := Step(w, s2, Persist).value;
    var s4 := Step(w, s3, Crash).value;
    assert s4.points == [stale] && s4.worker.None? && s4.docs[0].status == Running && Compatible(s4, 1, 1);
    RunFour(w, INITIAL, s1, s2, s3, s4, [Start(1, 1, 0), Record("A"), Persist, Crash]);
    assert [Start(1, 1, 0), Record("A"), Persist, Crash, Start(1, 1, 1)] + [Finish]
        == [Start(1, 1, 0), Record("A"), Persist, Crash] + [Start(1, 1, 1), Finish];
    RunAppend(w, INITIAL, [Start(1, 1, 0), Record("A"), Persist, Crash], [Start(1, 1, 1), Finish]);
    StaleResume(w, s4, stale);
  }

  lemma RunFour(w: World, s: State, s1: State, s2: State, s3: State, s4: State, e: seq<Event>)
    requires WellFormed(s) && |e| == 4
    requires Step(w, s, e[0]) == Some(s1) && WellFormed(s1) && Step(w, s1, e[1]) == Some(s2) && WellFormed(s2)
    requires Step(w, s2, e[2]) == Some(s3) && WellFormed(s3) && Step(w, s3, e[3]) == Some(s4)
    ensures Run(w, s, e) == Some(s4)
  {
    hide Run, Step;
    assert e == [e[0]] + ([e[1]] + ([e[2]] + [e[3]]));
    RunCons(w, s, e[0], [e[1]] + ([e[2]] + [e[3]]));
    RunCons(w, s1, e[1], [e[2]] + [e[3]]);
    RunCons(w, s2, e[2], [e[3]]);
    RunOne(w, s3, e[3]);
  }

  lemma StaleResume(w: World, s: State, stale: Results)
    requires w.symbols(1) == ["A"] && stale.Keys == {"A"} && stale["A"] != w.analyze(1, 1, 1, "A")
    requires |s.docs| == 1 && s.points == [stale] && s.worker.None? && s.docs[0].status != Completed
             && Compatible(s, 1, 1)
    ensures var end := Run(w, s, [Start(1, 1, 1), Finish]);
            end.Some? && |end.value.docs| == 1 && end.value.docs[0].outcome == Some([stale["A"]])
            && end.value.docs[0].outcome != Some(Outcome(w, 1, 1, 1))
  {
    hide Run;
    var s1 := Step(w, s, Start(1, 1, 1)).value;
    assert s1.worker.value.results == stale;
    assert Outcome(w, 1, 1, 1)[0] == w.analyze(1, 1, 1, "A");
    var s2 := Step(w, s1, Finish).value;
    assert s2.docs[0].outcome.value == [stale["A"]];
    assert s2.docs[0].outcome.value[0] != Outcome(w, 1, 1, 1)[0];
    assert [Start(1, 1, 1), Finish] == [Start(1, 1, 1)] + [Finish];
    RunCons(w, s, Start(1, 1, 1), [Finish]);
    RunOne(w, s1, Finish);
  }
}
