/** How long a row can wait for its turn in the webhook sweep. */
module WebhookStarvation {
  import opened Options
  import opened WebhookStore
  import opened WebhookSweep

  datatype Event =
    | Arrive(entries: seq<(RowId, Resource)>)
    | Swept(rows: seq<RowId>, answers: seq<Answers>)

  ghost predicate Possible(w: World, e: Event) {
    e.Swept? ==> IsFetch(w.table, e.rows, CHUNK_SIZE) && |e.answers| == |e.rows|
  }

  function Outcome(w: World, e: Event): (World, bool)
    requires Possible(w, e)
  {
    match e
    case Arrive(entries) => (World(InsertedAll(w.table, entries, w.clock + 1), w.clock + 1), false)
    case Swept(rows, answers) => Sweep(w, Fetched(w.table, rows), answers)
  }

  /** A run of events from the given table. */
  ghost predicate IsRun(w: World, run: seq<Event>)
    decreases run
  {
    run == [] || (Possible(w, run[0]) && IsRun(Outcome(w, run[0]).0, run[1..]))
  }

  ghost function After(w: World, run: seq<Event>): World
    requires IsRun(w, run)
    decreases run
  {
    if run == [] then w else After(Outcome(w, run[0]).0, run[1..])
  }

  function Sweeps(run: seq<Event>): nat {
    if run == [] then 0 else (if run[0].Swept? then 1 else 0) + Sweeps(run[1..])
  }

  ghost predicate NoSweepAborts(w: World, run: seq<Event>)
    requires IsRun(w, run)
    decreases run
  {
    run == [] || (!Outcome(w, run[0]).1 && NoSweepAborts(Outcome(w, run[0]).0, run[1..]))
  }

  ghost predicate StampsSucceed(run: seq<Event>) {
    forall e | e in run && e.Swept? :: forall a | a in e.answers :: !a.stampFails
  }

  ghost predicate Ok(w: World) {
    Unique(w.table) && forall id | id in w.table :: w.table[id].lastSynced <= w.clock
  }

  /** The pending rows stamped no later than the given time. */
  function Due(w: World, time: nat): set<RowId> {
    set id | id in w.table && Pending(w.table, id) && w.table[id].lastSynced <= time
  }

  ghost predicate WellFormed(w: World, ids: set<RowId>) {
    forall id | id in ids :: id in w.table && DetermineResourceType(w.table[id]).Some?
  }

  /** The table moved on from before to after: rows keep their ids, and what was written carries a newer stamp. */
  ghost predicate MovesOn(before: World, after: World) {
    && before.clock <= after.clock
    && (forall id | id in after.table && id in before.table ::
          && after.table[id].groupId == before.table[id].groupId
          && after.table[id].projectId == before.table[id].projectId
          && (after.table[id] == before.table[id] || before.clock < after.table[id].lastSynced <= after.clock))
    && (forall id | id in after.table && id !in before.table ::
          before.clock < after.table[id].lastSynced <= after.clock)
  }

  lemma MovesOnIsTransitive(a: World, b: World, c: World)
    requires MovesOn(a, b) && MovesOn(b, c)
    requires forall id | id in c.table && id !in b.table :: id !in a.table
    ensures MovesOn(a, c)
  {
  }

  lemma AttemptMovesOn(w: World, r: Resource, a: Answers)
    ensures MovesOn(w, Attempt(w, r, a).0)
    ensures Attempt(w, r, a).0.table.Keys <= w.table.Keys
  {
  }

  lemma ProcessMovesOn(w: World, webhook: Row, a: Answers)
    ensures var next := Process(w, webhook, a).0;
            && MovesOn(w, next) && next.table.Keys <= w.table.Keys
            && (DetermineResourceType(webhook).Some? && !a.stampFails ==>
                  forall id | id in next.table && Matches(next.table[id], DetermineResourceType(webhook).value) ::
                    next.table[id].lastSynced > w.clock)
  {
    hide Attempt;
    if DetermineResourceType(webhook).Some? {
      AttemptMovesOn(w, DetermineResourceType(webhook).value, a);
    }
  }

  lemma DueShrinks(before: World, after: World, time: nat)
    requires MovesOn(before, after) && time <= before.clock
    ensures Due(after, time) <= Due(before, time)
    ensures WellFormed(before, Due(before, time)) ==> WellFormed(after, Due(after, time))
  {
  }

  // ---------------------------------------------------------------- what one sweep gets done

  /** The rows of the table carry the same resource ids as when they were fetched. */
  ghost predicate SameIds(was: Table, table: Table) {
    forall id | id in table && id in was ::
          table[id].groupId == was[id].groupId && table[id].projectId == was[id].projectId
  }

  lemma ProcessServes(w: World, was: Table, id: RowId, a: Answers, time: nat)
    requires SameIds(was, w.table) && id in was && DetermineResourceType(was[id]).Some?
    requires !a.stampFails && time <= w.clock
    ensures id !in Due(Process(w, was[id], a).0, time)
  {
    hide Process;
    var next := Process(w, was[id], a).0;
    ProcessMovesOn(w, was[id], a);
    if id in next.table {
      assert Matches(next.table[id], DetermineResourceType(was[id]).value);
    }
  }

  /** A sweep takes the rows it gets to off the list of those due. */
  lemma {:induction false} SweepServes(w: World, was: Table, rows: seq<RowId>, answers: seq<Answers>, time: nat)
    requires SameIds(was, w.table) && time <= w.clock && |answers| == |rows|
    requires forall i | 0 <= i < |rows| :: rows[i] in was
    requires forall a | a in answers :: !a.stampFails
    ensures var (next, aborted) := Sweep(w, Fetched(was, rows), answers);
            && MovesOn(w, next) && next.table.Keys <= w.table.Keys
            && (!aborted ==> forall i | 0 <= i < |rows| :: rows[i] !in Due(next, time))
            && (rows != [] && DetermineResourceType(was[rows[0]]).Some? ==> rows[0] !in Due(next, time))
    decreases |rows|
  {
    hide Process, Due;
    if rows != [] {
      assert answers[0] in answers;
      var (next, aborted) := Process(w, was[rows[0]], answers[0]);
      ProcessMovesOn(w, was[rows[0]], answers[0]);
      if DetermineResourceType(was[rows[0]]).Some? {
        ProcessServes(w, was, rows[0], answers[0], time);
      } else {
        assert aborted by { MalformedAborts(w, was[rows[0]], answers[0]); }
      }
      assert Fetched(was, rows)[1..] == Fetched(was, rows[1..]);
      SweepServes(next, was, rows[1..], answers[1..], time);
      var last := Sweep(next, Fetched(was, rows[1..]), answers[1..]).0;
      MovesOnIsTransitive(w, next, last);
      DueShrinks(next, last, time);
    }
  }

  lemma MalformedAborts(w: World, webhook: Row, a: Answers)
    requires DetermineResourceType(webhook).None?
    ensures Process(w, webhook, a) == (w, true)
  {
  }

  lemma {:induction false} CountRows(rows: seq<RowId>)
    requires forall i, j | 0 <= i < j < |rows| :: rows[i] != rows[j]
    ensures |set i | 0 <= i < |rows| :: rows[i]| == |rows|
  {
    var ids := set i | 0 <= i < |rows| :: rows[i];
    if rows != [] {
      var rest, last := rows[..|rows| - 1], rows[|rows| - 1];
      var others := set i | 0 <= i < |rest| :: rest[i];
      CountRows(rest);
      assert last !in others;
      forall id ensures id in ids <==> id in others || id == last {
        if id in others {
          var i :| 0 <= i < |rest| && rest[i] == id;
          assert rows[i] == id;
        }
        if id in ids && id != last {
          var i :| 0 <= i < |rows| && rows[i] == id;
          assert rest[i] == id;
        }
      }
      assert ids == others + {last};
    }
  }

  /** Everything fetched ahead of a due row is due. */
  lemma FetchedIsDue(w: World, rows: seq<RowId>, time: nat, target: RowId)
    requires IsFetch(w.table, rows, CHUNK_SIZE) && target in Due(w, time)
    ensures rows != [] && rows[0] in Due(w, time)
    ensures target !in rows ==> |rows| == CHUNK_SIZE && forall i | 0 <= i < |rows| :: rows[i] in Due(w, time)
  {
    if target in rows {
      var i :| 0 <= i < |rows| && rows[i] == target;
    }
  }

  /** A sweep serves a due row, or a hundred rows due before it, or at least one if it is cut short. */
  lemma SweepProgress(w: World, rows: seq<RowId>, answers: seq<Answers>, time: nat, target: RowId)
    requires IsFetch(w.table, rows, CHUNK_SIZE) && |answers| == |rows| && time <= w.clock
    requires WellFormed(w, Due(w, time)) && target in Due(w, time)
    requires forall a | a in answers :: !a.stampFails
    ensures var (next, aborted) := Sweep(w, Fetched(w.table, rows), answers);
            && MovesOn(w, next) && Due(next, time) <= Due(w, time)
            && (target in Due(next, time) ==>
                  |Due(next, time)| + (if aborted then 1 else CHUNK_SIZE) <= |Due(w, time)|)
  {
    hide Sweep, Due;
    var (next, aborted) := Sweep(w, Fetched(w.table, rows), answers);
    SweepServes(w, w.table, rows, answers, time);
    DueShrinks(w, next, time);
    FetchedIsDue(w, rows, time, target);
    var served := if aborted then {rows[0]} else set i | 0 <= i < |rows| :: rows[i];
    if target in Due(next, time) {
      CountRows(rows);
      assert served <= Due(w, time) - Due(next, time);
      Smaller(served, Due(next, time), Due(w, time));
    }
  }

  lemma Smaller(a: set<RowId>, b: set<RowId>, all: set<RowId>)
    requires a <= all - b && b <= all
    ensures |a| + |b| <= |all|
  {
    assert |a + b| + |all - (a + b)| == |all|;
  }

  lemma ArriveMovesOn(w: World, entries: seq<(RowId, Resource)>)
    ensures MovesOn(w, Outcome(w, Arrive(entries)).0)
  {
    InsertsOnlyAdd(w.table, entries, w.clock + 1);
  }

  // ---------------------------------------------------------------- runs

  /** Sweeps still needed, counting one row or a whole chunk for each. */
  lemma {:induction false} HandledFrom(w: World, run: seq<Event>, time: nat, target: RowId)
    requires IsRun(w, run) && StampsSucceed(run) && time <= w.clock
    requires WellFormed(w, Due(w, time))
    ensures Sweeps(run) >= |Due(w, time)| ==> target !in Due(After(w, run), time)
    ensures NoSweepAborts(w, run) && CHUNK_SIZE * Sweeps(run) >= |Due(w, time)| ==> target !in Due(After(w, run), time)
    decreases |run|
  {
    hide Due, WellFormed, Sweep;
    if target !in Due(w, time) {
      StaysHandled(w, run, time, target);
    } else if run != [] {
      var e, rest := run[0], run[1..];
      var next := Outcome(w, e).0;
      assert StampsSucceed(rest);
      if e.Swept? {
        assert e in run;
        SweepProgress(w, e.rows, e.answers, time, target);
      } else {
        ArriveMovesOn(w, e.entries);
      }
      DueShrinks(w, next, time);
      SetsOnlyShrink(Due(next, time), Due(w, time));
      HandledFrom(next, rest, time, target);
      if target !in Due(next, time) {
        StaysHandled(next, rest, time, target);
      }
    } else {
      assert |{target}| <= |Due(w, time)| by { SetsOnlyShrink({target}, Due(w, time)); }
    }
  }

  lemma SetsOnlyShrink(a: set<RowId>, b: set<RowId>)
    requires a <= b
    ensures |a| <= |b|
  {
    assert |b - a| == |b| - |a|;
  }

  lemma EventMovesOn(w: World, e: Event)
    requires Possible(w, e)
    ensures MovesOn(w, Outcome(w, e).0)
  {
    if e.Swept? {
      SweepMovesOn(w, Fetched(w.table, e.rows), e.answers);
    } else {
      ArriveMovesOn(w, e.entries);
    }
  }

  lemma {:induction false} SweepMovesOn(w: World, webhooks: seq<Row>, answers: seq<Answers>)
    requires |webhooks| == |answers|
    ensures var next := Sweep(w, webhooks, answers).0;
            MovesOn(w, next) && next.table.Keys <= w.table.Keys
    decreases |webhooks|
  {
    hide Process;
    if webhooks != [] {
      var (next, aborted) := Process(w, webhooks[0], answers[0]);
      ProcessMovesOn(w, webhooks[0], answers[0]);
      SweepMovesOn(next, webhooks[1..], answers[1..]);
      MovesOnIsTransitive(w, next, Sweep(next, webhooks[1..], answers[1..]).0);
    }
  }

  lemma {:induction false} StaysHandled(w: World, run: seq<Event>, time: nat, target: RowId)
    requires IsRun(w, run) && time <= w.clock && target !in Due(w, time)
    ensures target !in Due(After(w, run), time)
    decreases |run|
  {
    hide Due, Sweep;
    if run != [] {
      var next := Outcome(w, run[0]).0;
      EventMovesOn(w, run[0]);
      DueShrinks(w, next, time);
      StaysHandled(next, run[1..], time, target);
    }
  }

  /**
   Main result: a pending row with k pending rows ahead of it, or level with it, has been handled after k + 1
   sweeps, though every one of them is cut short, and after k / 100 + 1 sweeps if none is.
   */
  lemma HandledInTime(w: World, run: seq<Event>, target: RowId)
    requires Ok(w) && IsRun(w, run) && StampsSucceed(run) && Pending(w.table, target)
    requires WellFormed(w, Due(w, w.table[target].lastSynced))
    ensures var time := w.table[target].lastSynced;
            var k := |Due(w, time) - {target}|;
            && (Sweeps(run) >= k + 1 ==> target !in Due(After(w, run), time))
            && (NoSweepAborts(w, run) && Sweeps(run) >= k / 100 + 1 ==> target !in Due(After(w, run), time))
  {
    var time := w.table[target].lastSynced;
    assert target in Due(w, time);
    HandledFrom(w, run, time, target);
  }

  // ---------------------------------------------------------------- a row that stops the sweep

  lemma AttemptLeaves(w: World, r: Resource, a: Answers, id: RowId)
    requires id in w.table && !Matches(w.table[id], r)
    ensures var next := Attempt(w, r, a).0;
            id in next.table && next.table[id] == w.table[id]
  {
  }

  lemma ProcessLeaves(w: World, webhook: Row, a: Answers, id: RowId)
    requires id in w.table
    requires DetermineResourceType(webhook).Some? ==> !Matches(w.table[id], DetermineResourceType(webhook).value)
    ensures var next := Process(w, webhook, a).0;
            id in next.table && next.table[id] == w.table[id]
  {
    hide Attempt;
    if DetermineResourceType(webhook).Some? {
      AttemptLeaves(w, DetermineResourceType(webhook).value, a, id);
    }
  }

  /** Only rows of unknown resource, or rows after such a row, are sure to be left alone. */
  lemma {:induction false} SweepLeaves(w: World, was: Table, rows: seq<RowId>, answers: seq<Answers>, id: RowId)
    requires Unique(was) && id in was && id in w.table && w.table[id] == was[id] && |answers| == |rows|
    requires forall i | 0 <= i < |rows| :: rows[i] in was
    requires forall i | 0 <= i < |rows| && rows[i] == id :: exists j | 0 <= j <= i ::
                DetermineResourceType(was[rows[j]]).None?
    ensures var next := Sweep(w, Fetched(was, rows), answers).0;
            id in next.table && next.table[id] == was[id]
    decreases |rows|
  {
    hide Process, Unique;
    if rows != [] {
      var (next, aborted) := Process(w, was[rows[0]], answers[0]);
      if DetermineResourceType(was[rows[0]]).None? {
        MalformedAborts(w, was[rows[0]], answers[0]);
      } else {
        ResourceIdentifiesRow(was, rows[0], id);
        ProcessLeaves(w, was[rows[0]], answers[0], id);
        assert Fetched(was, rows)[1..] == Fetched(was, rows[1..]);
        forall i | 0 <= i < |rows| - 1 && rows[1..][i] == id
          ensures exists j | 0 <= j <= i :: DetermineResourceType(was[rows[1..][j]]).None?
        {
          assert rows[i + 1] == id;
          var j :| 0 <= j <= i + 1 && DetermineResourceType(was[rows[j]]).None?;
          assert rows[1..][j - 1] == rows[j];
        }
        SweepLeaves(next, was, rows[1..], answers[1..], id);
      }
    }
  }

  /** A malformed pending row ahead of the target, or level with it, or the target itself. */
  ghost predicate Blocks(w: World, bad: RowId, target: RowId) {
    && Pending(w.table, bad) && Pending(w.table, target)
    && DetermineResourceType(w.table[bad]).None?
    && w.table[bad].lastSynced <= w.table[target].lastSynced
  }

  /** A sweep that lists the bad row before the target leaves both as they are. */
  lemma EventKeepsBlock(w: World, e: Event, bad: RowId, target: RowId)
    requires Unique(w.table) && Possible(w, e) && Blocks(w, bad, target)
    requires e.Swept? ==> ListsFirst(e.rows, bad, target)
    ensures var next := Outcome(w, e).0;
            && Blocks(next, bad, target)
            && next.table[target] == w.table[target] && next.table[bad] == w.table[bad]
  {
    hide Sweep;
    if e.Swept? {
      forall id | id in {bad, target}
        ensures var next := Outcome(w, e).0;
                id in next.table && next.table[id] == w.table[id]
      {
        forall i | 0 <= i < |e.rows| && e.rows[i] == id
          ensures exists j | 0 <= j <= i :: DetermineResourceType(w.table[e.rows[j]]).None?
        {
          var j :| 0 <= j <= i && e.rows[j] == bad;
        }
        SweepLeaves(w, w.table, e.rows, e.answers, id);
      }
    } else {
      InsertsOnlyAdd(w.table, e.entries, w.clock + 1);
    }
  }

  /** Strictly ahead, the bad row comes first in every listing. */
  lemma OlderComesFirst(w: World, rows: seq<RowId>, bad: RowId, target: RowId)
    requires IsFetch(w.table, rows, CHUNK_SIZE) && Blocks(w, bad, target)
    requires bad == target || w.table[bad].lastSynced < w.table[target].lastSynced
    ensures ListsFirst(rows, bad, target)
  {
    forall i | 0 <= i < |rows| && rows[i] == target ensures exists j | 0 <= j <= i :: rows[j] == bad {
      if bad != target {
        assert bad in rows;
        var j :| 0 <= j < |rows| && rows[j] == bad;
        assert j < i;
      }
    }
  }

  lemma {:induction false} SweepKeepsUnique(w: World, webhooks: seq<Row>, answers: seq<Answers>)
    requires Unique(w.table) && |webhooks| == |answers|
    ensures Unique(Sweep(w, webhooks, answers).0.table)
    decreases |webhooks|
  {
    hide Process, Unique;
    if webhooks != [] {
      ProcessKeepsUnique(w, webhooks[0], answers[0]);
      var (next, aborted) := Process(w, webhooks[0], answers[0]);
      SweepKeepsUnique(next, webhooks[1..], answers[1..]);
    }
  }

  lemma ProcessKeepsUnique(w: World, webhook: Row, a: Answers)
    requires Unique(w.table)
    ensures Unique(Process(w, webhook, a).0.table)
  {
    hide Unique, Updated, Deleted;
    if DetermineResourceType(webhook).Some? {
      var r := DetermineResourceType(webhook).value;
      var next := Attempt(w, r, a).0;
      WritesKeepUnique(w.table, r, Some(true), w.clock + 1, 0);
      WritesKeepUnique(next.table, r, None, next.clock + 1, 0);
    }
  }

  lemma EventKeepsUnique(w: World, e: Event)
    requires Unique(w.table) && Possible(w, e)
    ensures Unique(Outcome(w, e).0.table)
  {
    match e
    case Arrive(entries) => InsertsKeepUnique(w.table, entries, w.clock + 1);
    case Swept(rows, answers) => SweepKeepsUnique(w, Fetched(w.table, rows), answers);
  }

  /** Main result: behind such a row nothing is ever handled, however many sweeps there are. */
  lemma {:induction false} StarvedForEver(w: World, run: seq<Event>, bad: RowId, target: RowId)
    requires Unique(w.table) && IsRun(w, run) && Blocks(w, bad, target)
    requires bad == target || w.table[bad].lastSynced < w.table[target].lastSynced
    ensures var after := After(w, run);
            Pending(after.table, target) && after.table[target] == w.table[target]
    decreases |run|
  {
    hide Unique, Outcome;
    if run != [] {
      if run[0].Swept? { OlderComesFirst(w, run[0].rows, bad, target); }
      EventKeepsBlock(w, run[0], bad, target);
      EventKeepsUnique(w, run[0]);
      StarvedForEver(Outcome(w, run[0]).0, run[1..], bad, target);
    }
  }

  /** Level with such a row it may be so: there are runs of any number of sweeps that list the bad row first. */
  lemma {:induction false} StarvingRun(w: World, n: nat, bad: RowId, target: RowId) returns (run: seq<Event>)
    requires Unique(w.table) && Blocks(w, bad, target)
    ensures IsRun(w, run) && StampsSucceed(run) && Sweeps(run) == n
    ensures var after := After(w, run);
            Pending(after.table, target) && after.table[target] == w.table[target]
    decreases n
  {
    hide Unique, Outcome;
    run := [];
    if n > 0 {
      var rows := FetchFirst(w.table, CHUNK_SIZE, bad, target);
      var a := Answers(false, RateLimited, RateLimited, RateLimited, RateLimited, false);
      var e := Swept(rows, seq(|rows|, _ => a));
      EventKeepsBlock(w, e, bad, target);
      EventKeepsUnique(w, e);
      var rest := StarvingRun(Outcome(w, e).0, n - 1, bad, target);
      run := [e] + rest;
      assert run[1..] == rest;
    }
  }

  /**
   Main result: the bound holds for a row, in every run, exactly if neither that row nor any pending row ahead
   of it or level with it has both resource ids or neither.
   */
  lemma HandledExactly(w: World, target: RowId)
    requires Ok(w) && Pending(w.table, target)
    ensures var time := w.table[target].lastSynced;
            (forall run | IsRun(w, run) && StampsSucceed(run) && Sweeps(run) >= |Due(w, time)| ::
               target !in Due(After(w, run), time))
            <==> WellFormed(w, Due(w, time))
  {
    var time := w.table[target].lastSynced;
    if WellFormed(w, Due(w, time)) {
      forall run | IsRun(w, run) && StampsSucceed(run) && Sweeps(run) >= |Due(w, time)|
        ensures target !in Due(After(w, run), time)
      {
        HandledFrom(w, run, time, target);
      }
    } else {
      var bad :| bad in Due(w, time) && DetermineResourceType(w.table[bad]).None?;
      var run := StarvingRun(w, |Due(w, time)|, bad, target);
      assert target in Due(After(w, run), time);
    }
  }
}
