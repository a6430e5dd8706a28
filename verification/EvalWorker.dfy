/**
 The evaluation worker: a loop that polls the inference files, collects evaluation processes that have ended
 and launches new ones, up to a bound, until every instance has been evaluated.
 */
module EvalWorker {
  import opened Options

  type Id = string

  /** A row of the inference summary; only rows that name a predictions file are ready. */
  datatype SummaryRow = SummaryRow(id: Id, hasPreds: bool)

  datatype Worker = Worker(active: set<Id>, completed: set<Id>)

  /** One pass of the loop: what it read, which processes it found ended, what it launched and decided. */
  datatype Round = Round(
    rows: seq<SummaryRow>, total: Option<nat>, inferenceDone: bool, exited: set<Id>,
    launched: seq<Id>, done: bool, after: Worker)

  const DEFAULT_TOTAL := 48

  function Ready(rows: seq<SummaryRow>): set<Id> {
    set i | 0 <= i < |rows| && rows[i].hasPreds :: rows[i].id
  }

  /** The number of instances the worker waits for. */
  function Expected(rows: seq<SummaryRow>, total: Option<nat>): nat {
    if total.Some? && total.value != 0 then total.value
    else if |rows| != 0 then |rows| else DEFAULT_TOTAL
  }

  ghost predicate Distinct(s: seq<Id>) {
    forall i, j | 0 <= i < j < |s| :: s[i] != s[j]
  }

  function Elements(s: seq<Id>): set<Id> {
    set i | 0 <= i < |s| :: s[i]
  }

  predicate Ok(w: Worker, maxConcurrency: nat) {
    w.active !! w.completed && |w.active| <= maxConcurrency
  }

  /** Launches come from the first k rows, and of those none that is ready was passed over. */
  ghost predicate LaunchedUpTo(rows: seq<SummaryRow>, launched: seq<Id>, taken: set<Id>, k: nat) {
    k <= |rows| && Elements(launched) <= Ready(rows[..k]) <= taken
  }

  /**
   What one pass does: ended processes become completed; ready instances that are neither active nor completed
   are launched until the bound is reached.
   */
  ghost predicate IsRound(before: Worker, r: Round, maxConcurrency: nat) {
    var seen := before.completed + before.active * r.exited;
    && r.after.completed == seen
    && r.after.active == before.active - r.exited + Elements(r.launched)
    && Distinct(r.launched)
    && Elements(r.launched) <= Ready(r.rows) - seen - (before.active - r.exited)
    && |r.after.active| <= maxConcurrency
    && (|r.after.active| < maxConcurrency ==> Ready(r.rows) <= r.after.active + seen)
    && (r.done <==>
          && (r.inferenceDone || |r.rows| >= Expected(r.rows, r.total))
          && |seen| >= Expected(r.rows, r.total) && r.after.active == {})
  }

  /** Launches follow the rows: they come from some first rows, and of those none was passed over. */
  ghost predicate InRowOrder(r: Round) {
    exists k :: LaunchedUpTo(r.rows, r.launched, r.after.active + r.after.completed, k)
  }

  lemma ReadyPrefix(rows: seq<SummaryRow>, k: nat)
    requires k < |rows|
    ensures Ready(rows[..k + 1]) == Ready(rows[..k]) + if rows[k].hasPreds then {rows[k].id} else {}
    ensures Ready(rows[..k]) <= Ready(rows)
  {
    var longer := rows[..k + 1];
    forall i | 0 <= i < k + 1 ensures longer[i] == rows[i] && (i < k ==> rows[..k][i] == rows[i]) {}
    forall id | id in Ready(rows[..k]) ensures id in Ready(longer) && id in Ready(rows) {
      var i :| 0 <= i < k && rows[..k][i].hasPreds && rows[..k][i].id == id;
      assert longer[i].id == id && rows[i].id == id;
    }
    if rows[k].hasPreds { assert longer[k].id == rows[k].id; }
  }

  lemma ReadyOfPrefix(rows: seq<SummaryRow>, k: nat)
    requires k <= |rows|
    ensures Ready(rows[..k]) <= Ready(rows)
  {
    forall id | id in Ready(rows[..k]) ensures id in Ready(rows) {
      var i :| 0 <= i < k && rows[..k][i].hasPreds && rows[..k][i].id == id;
      assert rows[i].id == id;
    }
  }

  /** The state of the launch loop once it has passed the given rows. */
  ghost predicate Launches(before: set<Id>, completed: set<Id>, passed: seq<SummaryRow>, launched: seq<Id>,
                           active: set<Id>) {
    && active == before + Elements(launched)
    && Distinct(launched)
    && Elements(launched) <= Ready(passed) - completed - before
    && Ready(passed) <= active + completed
  }

  lemma LaunchOne(before: set<Id>, completed: set<Id>, passed: seq<SummaryRow>, launched: seq<Id>, active: set<Id>,
                  row: SummaryRow)
    requires Launches(before, completed, passed, launched, active)
    requires row.hasPreds && row.id !in completed && row.id !in active
    ensures Launches(before, completed, passed + [row], launched + [row.id], active + {row.id})
  {
    ElementsOfSum(launched, row.id);
    var longer := passed + [row];
    ReadyPrefix(longer, |passed|);
    assert longer[..|passed|] == passed && longer[..|passed| + 1] == longer;
    forall i, j | 0 <= i < j < |launched| + 1 ensures (launched + [row.id])[i] != (launched + [row.id])[j] {
      assert launched[i] in Elements(launched);
    }
  }

  lemma PassOne(before: set<Id>, completed: set<Id>, passed: seq<SummaryRow>, launched: seq<Id>, active: set<Id>,
                row: SummaryRow)
    requires Launches(before, completed, passed, launched, active)
    requires !row.hasPreds || row.id in completed || row.id in active
    ensures Launches(before, completed, passed + [row], launched, active)
  {
    var longer := passed + [row];
    ReadyPrefix(longer, |passed|);
    assert longer[..|passed|] == passed && longer[..|passed| + 1] == longer;
  }

  lemma NothingLaunched(active: set<Id>, completed: set<Id>)
    ensures Launches(active, completed, [], [], active)
  {
  }

  lemma LaunchesAreUpTo(before: set<Id>, completed: set<Id>, rows: seq<SummaryRow>, k: nat, launched: seq<Id>,
                        active: set<Id>)
    requires k <= |rows| && Launches(before, completed, rows[..k], launched, active)
    ensures LaunchedUpTo(rows, launched, active + completed, k)
    ensures active == before + Elements(launched) && Distinct(launched)
    ensures Elements(launched) <= Ready(rows) - completed - before
    ensures k == |rows| ==> Ready(rows) <= active + completed
  {
    ReadyOfPrefix(rows, k);
    assert rows[..|rows|] == rows;
  }

  lemma LaunchedRows(rows: seq<SummaryRow>, launched: seq<Id>, before: set<Id>, completed: set<Id>)
    requires Elements(launched) <= Ready(rows) - completed - before
    ensures forall id | id in launched :: SummaryRow(id, true) in rows && id !in completed && id !in before
  {
    forall id | id in launched ensures SummaryRow(id, true) in rows && id !in completed && id !in before {
      assert id in Elements(launched);
      var i :| 0 <= i < |rows| && rows[i].hasPreds && rows[i].id == id;
      assert rows[i] == SummaryRow(id, true);
    }
  }

  lemma ReadyRows(rows: seq<SummaryRow>)
    ensures forall row | row in rows && row.hasPreds :: row.id in Ready(rows)
  {
    forall row | row in rows && row.hasPreds ensures row.id in Ready(rows) {
      var i :| 0 <= i < |rows| && rows[i] == row;
    }
  }

  lemma ElementsOfSum(s: seq<Id>, id: Id)
    ensures Elements(s + [id]) == Elements(s) + {id}
  {
    var longer := s + [id];
    assert longer[|s|] == id;
    forall i | 0 <= i < |s| ensures longer[i] == s[i] {}
    forall x | x in Elements(s) ensures x in Elements(longer) {
      var i :| 0 <= i < |s| && s[i] == x;
      assert longer[i] == x;
    }
  }

  /**
   What a new worker takes as completed from the saved state of an earlier one, saved giving for each instance
   whether the report it names still exists: with retry, nothing that has no report any more.
   */
  function Reloaded(saved: map<Id, bool>, reported: set<Id>, retry: bool): set<Id> {
    set id | id in saved && (!retry || saved[id] || id in reported)
  }

  class EvalLoop {
    const maxConcurrency: nat
    var active: set<Id>
    var completed: set<Id>

    constructor (maxConcurrency: nat)
      ensures this.maxConcurrency == maxConcurrency && View() == Worker({}, {})
    {
      this.maxConcurrency := maxConcurrency;
      active, completed := {}, {};
    }

    method ReloadCompleted(saved: map<Id, bool>, reported: set<Id>, retry: bool)
      requires completed == {}
      modifies this`completed
      ensures completed == Reloaded(saved, reported, retry)
      ensures forall id :: id in completed <==> id in saved && !(retry && !saved[id] && id !in reported)
    {
      var todo := saved.Keys;
      while todo != {}
        invariant todo <= saved.Keys
        invariant completed == Reloaded(saved, reported, retry) - todo
        decreases todo
      {
        var id :| id in todo;
        var reportExists := saved[id] || id in reported;
        todo := todo - {id};
        if retry && !reportExists {
          continue;
        }
        completed := completed + {id};
      }
    }

    function View(): Worker
      reads this
    {
      Worker(active, completed)
    }

    /** The collection of ended processes. */
    method Reap(exited: set<Id>)
      requires active !! completed
      modifies this
      ensures active == old(active) - exited
      ensures completed == old(completed) + old(active) * exited
    {
      var todo := active;
      ghost var was := active;
      while todo != {}
        invariant todo <= was
        invariant active == was - (exited - todo)
        invariant completed == old(completed) + (was - todo) * exited
        decreases todo
      {
        var id :| id in todo;
        if id in exited {
          completed := completed + {id};
          active := active - {id};
        }
        todo := todo - {id};
      }
    }

    /** The launch loop, with its `continue` and its `break`. */
    method LaunchReady(rows: seq<SummaryRow>) returns (launched: seq<Id>)
      requires active !! completed && |active| <= maxConcurrency
      modifies this`active
      ensures active == old(active) + Elements(launched) && |active| <= maxConcurrency
      ensures Distinct(launched) && Elements(launched) <= Ready(rows) - completed - old(active)
      ensures |active| < maxConcurrency ==> Ready(rows) <= active + completed
      ensures exists k :: LaunchedUpTo(rows, launched, active + completed, k)
      ensures forall id | id in launched :: SummaryRow(id, true) in rows && id !in completed && id !in old(active)
      ensures |active| < maxConcurrency ==> forall row | row in rows && row.hasPreds ::
                  row.id in active || row.id in completed
    {
      hide Ready, LaunchedUpTo, Launches, Distinct, Elements;
      launched := [];
      ghost var before, passed := active, [];
      NothingLaunched(active, completed);
      var k := 0;
      while k < |rows|
        invariant 0 <= k <= |rows| && |active| <= maxConcurrency && passed == rows[..k]
        invariant Launches(before, completed, passed, launched, active)
      {
        var id := rows[k].id;
        if rows[k].hasPreds && id !in completed && id !in active {
          if |active| >= maxConcurrency {
            break;
          }
          LaunchOne(before, completed, passed, launched, active, rows[k]);
          active := active + {id};
          launched := launched + [id];
        } else {
          PassOne(before, completed, passed, launched, active, rows[k]);
        }
        passed := passed + [rows[k]];
        k := k + 1;
      }
      LaunchesAreUpTo(before, completed, rows, k, launched, active);
      LaunchedRows(rows, launched, before, completed);
      ReadyRows(rows);
    }

    /** One pass of the `while True` loop. */
    method Iterate(rows: seq<SummaryRow>, total: Option<nat>, inferenceDone: bool, exited: set<Id>)
      returns (launched: seq<Id>, done: bool)
      requires Ok(View(), maxConcurrency)
      modifies this
      ensures IsRound(old(View()), Round(rows, total, inferenceDone, exited, launched, done, View()), maxConcurrency)
      ensures forall id | id in launched :: SummaryRow(id, true) in rows
      ensures var waitedFor :=
                if total.Some? && total.value > 0 then total.value else if rows != [] then |rows| else 48;
              done <==> && (inferenceDone || |rows| >= waitedFor) && |completed| >= waitedFor && active == {}
      ensures InRowOrder(Round(rows, total, inferenceDone, exited, launched, done, View()))
    {
      Reap(exited);
      launched := LaunchReady(rows);
      var totalInstances := Expected(rows, total);
      var allInferenceDone := inferenceDone || |rows| >= totalInstances;
      done := allInferenceDone && |completed| >= totalInstances && active == {};
    }
  }
}
