/**
 The two processes together.  They share only files: the evaluation worker reads the inference summary in one
 pass of its loop, launches evaluations later in that pass, and each evaluation reads the aggregate predictions
 later still, while inference goes on, crashes and is resumed.
 */
module Pipeline {
  import opened Options
  import Inference
  import InferenceRuns
  import EvalWorker
  import EvalRuns

  /** The summary as the worker sees it: every row that inference writes names a predictions file. */
  function SeenRows(disk: Inference.Disk): seq<EvalWorker.SummaryRow> {
    var rows := Inference.StoredRows(disk);
    seq(|rows|, i requires 0 <= i < |rows| => EvalWorker.SummaryRow(rows[i].id, true))
  }

  /** The number of instances and the end of inference as the status file gives them, if it is there. */
  function SeenTotal(disk: Inference.Disk): Option<nat> {
    if disk.status.Json? then Some(disk.status.content.total) else None
  }

  predicate SeenDone(disk: Inference.Disk) {
    disk.status.Json? && disk.status.content.done
  }

  /**
   Main result: whatever inference does between the pass in which the worker read the summary, the launch and
   any later moment, each launched instance is in the aggregate predictions, from then on and for ever.
   */
  lemma LaunchedHasPrediction(cfg: Inference.Config, run: seq<Inference.Action>, tail: seq<Inference.Action>,
                              before: EvalWorker.Worker, r: EvalWorker.Round, maxConcurrency: nat, id: Inference.Id)
    requires Inference.ValidConfig(cfg)
    requires r.rows == SeenRows(Inference.After(cfg, run).disk)
    requires EvalWorker.IsRound(before, r, maxConcurrency) && id in r.launched
    ensures id in Inference.StoredPreds(Inference.After(cfg, run + tail).disk)
  {
    var rows := Inference.StoredRows(Inference.After(cfg, run).disk);
    assert id in EvalWorker.Elements(r.launched);
    var i :| 0 <= i < |r.rows| && r.rows[i].hasPreds && r.rows[i].id == id;
    InferenceRuns.RowsHavePredictions(cfg, run, rows[i]);
    InferenceRuns.RecordsPersist(cfg, run, tail);
  }

  /** The prediction it evaluates is the one of the very execution that the summary row reports. */
  lemma LaunchedPredictionMatchesRow(cfg: Inference.Config, run: seq<Inference.Action>, tail: seq<Inference.Action>,
                                     row: Inference.Row)
    requires Inference.ValidConfig(cfg) && row in Inference.StoredRows(Inference.After(cfg, run).disk)
    ensures var preds := Inference.StoredPreds(Inference.After(cfg, run + tail).disk);
            row.id in preds && preds[row.id] == Inference.Pred(row.id, row.attempt)
  {
    InferenceRuns.RecordsPersist(cfg, run, tail);
    InferenceRuns.RowsHavePredictions(cfg, run + tail, row);
  }

  /** After a clean end of inference a worker that reads the files goes on to evaluate every instance. */
  lemma WholePipelineEnds(cfg: Inference.Config, run: seq<Inference.Action>, start: EvalWorker.Worker,
                          rounds: seq<EvalWorker.Round>, maxConcurrency: nat) returns (last: nat)
    requires Inference.ValidConfig(cfg) && Inference.After(cfg, run).clean && cfg.instances != []
    requires EvalRuns.IsRun(start, rounds, maxConcurrency) && maxConcurrency >= 1
    requires EvalRuns.Taken(start) <= Inference.Ids(cfg.instances) && start.active !! start.completed
    requires forall i | 0 <= i < |rounds| ::
               Follows(Inference.After(cfg, run).disk, EvalRuns.At(start, rounds, i), rounds[i])
    requires |rounds| == EvalRuns.Measure(start, Inference.Ids(cfg.instances))
    ensures last < |rounds| && rounds[last].done && rounds[last].after.completed == Inference.Ids(cfg.instances)
  {
    hide EvalWorker.IsRound;
    var all := Inference.Ids(cfg.instances);
    InferenceRuns.CleanEndIsComplete(cfg, run);
    InferenceRuns.IdsCount(cfg.instances);
    InferenceRuns.CleanEndIsOnFile(cfg, run);
    AllRowsSeen(cfg, Inference.After(cfg, run).disk);
    assert cfg.instances[0] in all;
    last := EvalRuns.WorkerEnds(start, rounds, maxConcurrency, all);
    KnownInstances(start, rounds, maxConcurrency, all, last);
    EvalRuns.DoneMeansEvaluated(EvalRuns.At(start, rounds, last), rounds[last], maxConcurrency, all);
  }

  /** The pass reads the given files, and some process has ended if any was active. */
  ghost predicate Follows(disk: Inference.Disk, before: EvalWorker.Worker, r: EvalWorker.Round) {
    && r.rows == SeenRows(disk) && r.total == SeenTotal(disk) && r.inferenceDone == SeenDone(disk)
    && (before.active != {} ==> before.active * r.exited != {})
  }

  // ---------------------------------------------------------------- done can be trusted

  /** When in the history of inference a pass reads the one file and, no earlier, the other. */
  datatype Reading = Reading(summaryAt: nat, statusAt: nat)

  ghost predicate Reads(cfg: Inference.Config, history: seq<Inference.Action>, at: Reading, r: EvalWorker.Round) {
    && at.summaryAt <= at.statusAt <= |history|
    && r.rows == SeenRows(Inference.After(cfg, history[..at.summaryAt]).disk)
    && r.total == SeenTotal(Inference.After(cfg, history[..at.statusAt]).disk)
    && r.inferenceDone == SeenDone(Inference.After(cfg, history[..at.statusAt]).disk)
  }

  /** A status file gives the real number; without one there are no rows either. */
  lemma FilesAgree(cfg: Inference.Config, history: seq<Inference.Action>, at: Reading, r: EvalWorker.Round)
    requires Inference.ValidConfig(cfg) && Reads(cfg, history, at, r)
    ensures r.total == Some(|cfg.instances|) || (r.total == None && r.rows == [] && !r.inferenceDone)
    ensures EvalWorker.Ready(r.rows) <= Inference.Ids(cfg.instances)
  {
    var run, tail := history[..at.summaryAt], history[at.summaryAt..at.statusAt];
    assert history[..at.statusAt] == run + tail;
    InferenceRuns.StatusIsAlwaysGood(cfg, run + tail);
    if r.total.None? && r.rows != [] { InferenceRuns.RowsHaveStatus(cfg, run, tail); }
    InferenceRuns.RunsAreOk(cfg, run);
    InferenceRuns.RowsAreKnown(cfg, Inference.After(cfg, run).disk);
  }

  /**
   Main result: whatever inference does, crashes and restarts included, and whenever the worker reads the two
   files, once the worker is done every instance has been evaluated and nothing is active.
   */
  lemma DoneIsTrusted(cfg: Inference.Config, history: seq<Inference.Action>, readings: seq<Reading>,
                      start: EvalWorker.Worker, rounds: seq<EvalWorker.Round>, maxConcurrency: nat, i: nat)
    requires Inference.ValidConfig(cfg) && |readings| == |rounds|
    requires EvalRuns.IsRun(start, rounds, maxConcurrency) && EvalRuns.Taken(start) <= Inference.Ids(cfg.instances)
    requires forall j | 0 <= j < |rounds| :: Reads(cfg, history, readings[j], rounds[j])
    requires i < |rounds| && rounds[i].done
    ensures rounds[i].after.active == {} && rounds[i].after.completed == Inference.Ids(cfg.instances)
  {
    hide EvalWorker.IsRound, Reads;
    var all := Inference.Ids(cfg.instances);
    forall j | 0 <= j < |rounds|
      ensures EvalWorker.Ready(rounds[j].rows) <= all
    {
      FilesAgree(cfg, history, readings[j], rounds[j]);
    }
    KnownInstances(start, rounds, maxConcurrency, all, i);
    FilesAgree(cfg, history, readings[i], rounds[i]);
    InferenceRuns.IdsCount(cfg.instances);
    DoneRound(EvalRuns.At(start, rounds, i), rounds[i], maxConcurrency, all);
  }

  lemma DoneRound(before: EvalWorker.Worker, r: EvalWorker.Round, maxConcurrency: nat, all: set<Inference.Id>)
    requires EvalWorker.IsRound(before, r, maxConcurrency) && r.done && before.active + before.completed <= all
    requires r.total == Some(|all|) || (r.total == None && r.rows == [] && !r.inferenceDone)
    ensures r.after.active == {} && r.after.completed == all
  {
    hide EvalWorker.Ready, EvalWorker.Elements, EvalWorker.Distinct;
    if r.total.Some? && all != {} {
      EvalRuns.DoneMeansEvaluated(before, r, maxConcurrency, all);
    }
  }

  lemma AllRowsSeen(cfg: Inference.Config, disk: Inference.Disk)
    requires InferenceRuns.Complete(cfg, disk)
    ensures EvalWorker.Ready(SeenRows(disk)) == Inference.Ids(cfg.instances)
  {
    var rows := SeenRows(disk);
    forall i | 0 <= i < |rows| ensures rows[i].hasPreds && rows[i].id == cfg.instances[i] {}
    forall id | id in Inference.Ids(cfg.instances) ensures id in EvalWorker.Ready(rows) {
      var i :| 0 <= i < |cfg.instances| && cfg.instances[i] == id;
      assert rows[i].id == id;
    }
  }

  lemma {:induction false} KnownInstances(start: EvalWorker.Worker, rounds: seq<EvalWorker.Round>, maxConcurrency: nat,
                                          all: set<Inference.Id>, i: nat)
    requires EvalRuns.IsRun(start, rounds, maxConcurrency) && i <= |rounds|
    requires EvalRuns.Taken(start) <= all
    requires forall j | 0 <= j < |rounds| :: EvalWorker.Ready(rounds[j].rows) <= all
    ensures EvalRuns.Taken(EvalRuns.At(start, rounds, i)) <= all
  {
    hide EvalWorker.IsRound, EvalRuns.Taken, EvalWorker.Ready;
    if i > 0 {
      KnownInstances(start, rounds, maxConcurrency, all, i - 1);
      EvalRuns.RoundKeepsTaken(EvalRuns.At(start, rounds, i - 1), rounds[i - 1], maxConcurrency);
      EvalRuns.RoundLaunchesReady(EvalRuns.At(start, rounds, i - 1), rounds[i - 1], maxConcurrency);
    }
  }
}
