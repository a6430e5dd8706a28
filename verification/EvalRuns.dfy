/** What every run of the evaluation worker keeps, and that it ends. */
module EvalRuns {
  import opened Options
  import opened EvalWorker

  /** The worker before pass i. */
  function At(start: Worker, rounds: seq<Round>, i: nat): Worker
    requires i <= |rounds|
  {
    if i == 0 then start else rounds[i - 1].after
  }

  ghost predicate IsRun(start: Worker, rounds: seq<Round>, maxConcurrency: nat) {
    forall i | 0 <= i < |rounds| :: IsRound(At(start, rounds, i), rounds[i], maxConcurrency)
  }

  // ---------------------------------------------------------------- one pass

  lemma RoundKeepsOk(before: Worker, r: Round, maxConcurrency: nat)
    requires IsRound(before, r, maxConcurrency) && Ok(before, maxConcurrency)
    ensures Ok(r.after, maxConcurrency)
  {
  }

  function Taken(w: Worker): set<Id> { w.active + w.completed }

  lemma RoundKeepsTaken(before: Worker, r: Round, maxConcurrency: nat)
    requires IsRound(before, r, maxConcurrency)
    ensures Taken(r.after) == Taken(before) + Elements(r.launched)
    ensures Elements(r.launched) !! Taken(before)
    ensures before.completed <= r.after.completed
  {
  }

  lemma RoundLaunchesReady(before: Worker, r: Round, maxConcurrency: nat)
    requires IsRound(before, r, maxConcurrency)
    ensures Elements(r.launched) <= Ready(r.rows) && Distinct(r.launched)
  {
  }

  // ---------------------------------------------------------------- safety

  /** Never more processes than the bound, and nothing both active and completed. */
  lemma {:induction false} WorkerStaysOk(start: Worker, rounds: seq<Round>, maxConcurrency: nat, i: nat)
    requires IsRun(start, rounds, maxConcurrency) && Ok(start, maxConcurrency) && i <= |rounds|
    ensures Ok(At(start, rounds, i), maxConcurrency)
  {
    hide IsRound, Ok;
    if i > 0 {
      WorkerStaysOk(start, rounds, maxConcurrency, i - 1);
      RoundKeepsOk(At(start, rounds, i - 1), rounds[i - 1], maxConcurrency);
    }
  }

  /** What was taken up stays taken up. */
  lemma {:induction false} TakenStaysTaken(start: Worker, rounds: seq<Round>, maxConcurrency: nat, i: nat, j: nat)
    requires IsRun(start, rounds, maxConcurrency) && i <= j <= |rounds|
    ensures Taken(At(start, rounds, i)) <= Taken(At(start, rounds, j))
  {
    hide IsRound, Taken;
    if i < j {
      TakenStaysTaken(start, rounds, maxConcurrency, i, j - 1);
      RoundKeepsTaken(At(start, rounds, j - 1), rounds[j - 1], maxConcurrency);
    }
  }

  lemma NotLaunchedAgain(start: Worker, rounds: seq<Round>, maxConcurrency: nat, i: nat, j: nat)
    requires IsRun(start, rounds, maxConcurrency) && i < j < |rounds|
    ensures Elements(rounds[i].launched) !! Elements(rounds[j].launched)
  {
    hide IsRound, Taken;
    RoundKeepsTaken(At(start, rounds, i), rounds[i], maxConcurrency);
    TakenStaysTaken(start, rounds, maxConcurrency, i + 1, j);
    RoundKeepsTaken(At(start, rounds, j), rounds[j], maxConcurrency);
  }

  /** Each instance is launched at most once in the life of the worker. */
  lemma LaunchedOnce(start: Worker, rounds: seq<Round>, maxConcurrency: nat, i: nat, p: nat, j: nat, q: nat)
    requires IsRun(start, rounds, maxConcurrency)
    requires i < |rounds| && p < |rounds[i].launched| && j < |rounds| && q < |rounds[j].launched|
    requires rounds[i].launched[p] == rounds[j].launched[q]
    ensures i == j && p == q
  {
    hide IsRound;
    var id := rounds[i].launched[p];
    assert id in Elements(rounds[i].launched) && rounds[j].launched[q] in Elements(rounds[j].launched);
    RoundLaunchesReady(At(start, rounds, i), rounds[i], maxConcurrency);
    if i < j { NotLaunchedAgain(start, rounds, maxConcurrency, i, j); }
    if j < i { NotLaunchedAgain(start, rounds, maxConcurrency, j, i); }
  }

  /**
   A restarted worker launches none of the instances it took over as completed; so one that an earlier
   worker evaluated and saved is evaluated again only if a retry was asked for and its report is gone.
   */
  lemma ReloadedIsNotRelaunched(saved: map<Id, bool>, reported: set<Id>, retry: bool, rounds: seq<Round>,
                                maxConcurrency: nat, i: nat, id: Id)
    requires IsRun(Worker({}, Reloaded(saved, reported, retry)), rounds, maxConcurrency)
    requires i < |rounds| && id in rounds[i].launched && id in saved
    ensures retry && !saved[id] && id !in reported
  {
    hide IsRound;
    var start := Worker({}, Reloaded(saved, reported, retry));
    TakenStaysTaken(start, rounds, maxConcurrency, 0, i);
    RoundKeepsTaken(At(start, rounds, i), rounds[i], maxConcurrency);
    assert id in Elements(rounds[i].launched);
  }

  /**
   With the number of instances readable, done means that nothing is active and that every instance has been
   evaluated.
   */
  lemma DoneMeansEvaluated(before: Worker, r: Round, maxConcurrency: nat, all: set<Id>)
    requires IsRound(before, r, maxConcurrency) && r.done
    requires r.total == Some(|all|) && all != {}
    requires before.active + before.completed <= all
    ensures r.after.active == {} && r.after.completed == all
  {
    assert r.after.completed <= all && |r.after.completed| >= |all|;
    SameSize(r.after.completed, all);
  }

  lemma SameSize(a: set<Id>, b: set<Id>)
    requires a <= b && |a| >= |b|
    ensures a == b
  {
    assert |b - a| == |b| - |a|;
  }

  /** Whatever was evaluated before, a pass over these files is done only if all instances are. */
  ghost predicate DoneIsReliable(all: set<Id>, rows: seq<SummaryRow>, total: Option<nat>, inferenceDone: bool,
                                 maxConcurrency: nat) {
    forall before, r |
      && IsRound(before, r, maxConcurrency) && Taken(before) <= all
      && r.rows == rows && r.total == total && r.inferenceDone == inferenceDone && r.done ::
      r.after.completed == all
  }

  /**
   Main result: done can be relied upon exactly if the number of instances that the worker goes by is not below the
   real one, or every instance has a ready row, or the files keep the worker from being done at all.  The number is
   too low, for one, when the status file cannot be read and inference still has instances to go.
   */
  lemma DoneIsReliableExactly(all: set<Id>, rows: seq<SummaryRow>, total: Option<nat>, inferenceDone: bool,
                              maxConcurrency: nat)
    requires maxConcurrency >= 1 && all != {} && Ready(rows) <= all
    ensures DoneIsReliable(all, rows, total, inferenceDone, maxConcurrency) <==>
              || Expected(rows, total) >= |all| || Ready(rows) == all
              || !(inferenceDone || |rows| >= Expected(rows, total))
  {
    if Expected(rows, total) >= |all| || Ready(rows) == all || !(inferenceDone || |rows| >= Expected(rows, total)) {
      forall before, r |
        && IsRound(before, r, maxConcurrency) && Taken(before) <= all
        && r.rows == rows && r.total == total && r.inferenceDone == inferenceDone && r.done
        ensures r.after.completed == all
      {
        DoneIsComplete(before, r, maxConcurrency, all);
      }
    } else {
      var before, r := EarlyEnd(all, rows, total, inferenceDone, maxConcurrency);
      assert r.after.completed != all;
    }
  }

  lemma DoneIsComplete(before: Worker, r: Round, maxConcurrency: nat, all: set<Id>)
    requires IsRound(before, r, maxConcurrency) && r.done && Taken(before) <= all && maxConcurrency >= 1
    requires Expected(r.rows, r.total) >= |all| || Ready(r.rows) == all
    ensures r.after.completed == all
  {
    hide Ready, Distinct, Elements, Expected;
    assert r.after.completed <= all && |r.after.active| == 0;
    if Expected(r.rows, r.total) >= |all| { SameSize(r.after.completed, all); }
  }

  /** All but one instance evaluated, and that one without a ready row: the worker is done. */
  lemma EarlyEnd(all: set<Id>, rows: seq<SummaryRow>, total: Option<nat>, inferenceDone: bool, maxConcurrency: nat)
    returns (before: Worker, r: Round)
    requires Ready(rows) < all && Expected(rows, total) < |all| && (inferenceDone || |rows| >= Expected(rows, total))
    ensures IsRound(before, r, maxConcurrency) && Taken(before) <= all && r.done && r.after.completed != all
    ensures r.rows == rows && r.total == total && r.inferenceDone == inferenceDone
  {
    hide Ready, Expected;
    var id :| id in all && id !in Ready(rows);
    before := Worker({}, all - {id});
    r := Round(rows, total, inferenceDone, {}, [], true, before);
    assert |all - {id}| == |all| - 1 && |before.active| == 0;
  }

  /**
   A new worker comes to it in two passes: while inference still has instances to go and its status file cannot be
   read, the worker launches what is ready, and once that has ended it is done.
   */
  lemma UnreadableTotalEndsEarly(id: Id, all: set<Id>)
    requires id in all && |all| > 1
    ensures var rows := [SummaryRow(id, true)];
            var first := Round(rows, None, false, {}, [id], false, Worker({id}, {}));
            var second := Round(rows, None, false, {id}, [], true, Worker({}, {id}));
            IsRun(Worker({}, {}), [first, second], 1) && second.after.completed != all
  {
    var rows := [SummaryRow(id, true)];
    OneReadyRow(id);
    LaunchTheOnly(id, rows);
    ReapTheOnly(id, rows);
    hide IsRound;
    assert |{id}| == 1;
  }

  lemma OneReadyRow(id: Id)
    ensures Ready([SummaryRow(id, true)]) == {id} && Elements([id]) == {id} && Elements([]) == {}
  {
    assert [SummaryRow(id, true)][0].hasPreds && [id][0] == id;
  }

  lemma LaunchTheOnly(id: Id, rows: seq<SummaryRow>)
    requires Ready(rows) == {id} && Elements([id]) == {id} && |rows| == 1
    ensures IsRound(Worker({}, {}), Round(rows, None, false, {}, [id], false, Worker({id}, {})), 1)
  {
    hide Ready, Elements;
    assert |{id}| == 1;
  }

  lemma ReapTheOnly(id: Id, rows: seq<SummaryRow>)
    requires Ready(rows) == {id} && Elements([]) == {} && |rows| == 1
    ensures IsRound(Worker({id}, {}), Round(rows, None, false, {id}, [], true, Worker({}, {id})), 1)
  {
    hide Ready, Elements;
    assert |{id}| == 1;
  }

  // ---------------------------------------------------------------- the worker ends

  /** Inference is over and all its rows are ready; every pass finds some process ended, if any was active. */
  ghost predicate Settled(before: Worker, r: Round, all: set<Id>) {
    && Ready(r.rows) == all && r.total == Some(|all|) && r.inferenceDone
    && (before.active != {} ==> before.active * r.exited != {})
  }

  /** Instances still to be evaluated, and one more pass when nothing is active. */
  function Measure(w: Worker, all: set<Id>): nat {
    |all - w.completed| + if w.active == {} then 1 else 0
  }

  /** A settled pass in terms of sets alone. */
  lemma SettledRound(before: Worker, r: Round, maxConcurrency: nat, all: set<Id>)
    returns (ended: set<Id>, launched: set<Id>)
    requires IsRound(before, r, maxConcurrency) && maxConcurrency >= 1 && Settled(before, r, all)
    requires all != {} && Taken(before) <= all && before.active !! before.completed
    ensures ended <= before.active && (before.active != {} ==> ended != {})
    ensures launched <= all && launched !! Taken(before)
    ensures r.after == Worker(before.active - ended + launched, before.completed + ended)
    ensures r.after.active == {} ==> r.after.completed == all
    ensures r.done <==> |r.after.completed| >= |all| && r.after.active == {}
  {
    hide Ready, Elements, Distinct;
    ended, launched := before.active * r.exited, Elements(r.launched);
    assert before.active - ended == before.active - r.exited;
    if r.after.active == {} {
      assert |r.after.active| == 0;
      assert Ready(r.rows) <= r.after.completed;
    }
  }

  lemma SettledRoundProgress(before: Worker, r: Round, maxConcurrency: nat, all: set<Id>)
    requires IsRound(before, r, maxConcurrency) && maxConcurrency >= 1 && Settled(before, r, all)
    requires all != {} && Taken(before) <= all && before.active !! before.completed
    ensures Taken(r.after) <= all && r.after.active !! r.after.completed
    ensures r.done || Measure(r.after, all) < Measure(before, all)
  {
    hide IsRound, Settled;
    var ended, launched := SettledRound(before, r, maxConcurrency, all);
    var open := all - before.completed;
    assert all - r.after.completed == open - ended;
    assert |open - ended| == |open| - |open * ended|;
    assert open * ended == ended;
  }

  /** Number of the first pass that is done, if all passes from pass i on are settled. */
  lemma {:induction false} EndsFrom(start: Worker, rounds: seq<Round>, maxConcurrency: nat, all: set<Id>, i: nat)
    returns (last: nat)
    requires IsRun(start, rounds, maxConcurrency) && maxConcurrency >= 1 && all != {}
    requires forall j | 0 <= j < |rounds| :: Settled(At(start, rounds, j), rounds[j], all)
    requires i < |rounds|
    requires Taken(At(start, rounds, i)) <= all && At(start, rounds, i).active !! At(start, rounds, i).completed
    requires i + Measure(At(start, rounds, i), all) <= |rounds|
    ensures i <= last < |rounds| && rounds[last].done
    decreases |rounds| - i
  {
    hide IsRound, Settled;
    SettledRoundProgress(At(start, rounds, i), rounds[i], maxConcurrency, all);
    last := i;
    if !rounds[i].done {
      MeasureIsPositive(rounds[i].after, all);
      last := EndsFrom(start, rounds, maxConcurrency, all, i + 1);
    }
  }

  /** The worker declares itself done within Measure passes. */
  lemma WorkerEnds(start: Worker, rounds: seq<Round>, maxConcurrency: nat, all: set<Id>) returns (last: nat)
    requires IsRun(start, rounds, maxConcurrency) && maxConcurrency >= 1 && all != {}
    requires Taken(start) <= all && start.active !! start.completed
    requires forall i | 0 <= i < |rounds| :: Settled(At(start, rounds, i), rounds[i], all)
    requires |rounds| == Measure(start, all)
    ensures last < |rounds| && rounds[last].done
  {
    MeasureIsPositive(start, all);
    last := EndsFrom(start, rounds, maxConcurrency, all, 0);
  }

  /** Something is active or something remains to be evaluated, or the pass is the last. */
  lemma MeasureIsPositive(w: Worker, all: set<Id>)
    requires w.active <= all && w.active !! w.completed
    ensures Measure(w, all) > 0
  {
    if w.active != {} {
      var id :| id in w.active;
      assert id in all - w.completed;
    }
  }
}
