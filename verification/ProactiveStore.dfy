/**
 Proactive conversations: the workflow runs of one commit of a pull request are collected in one row, and once
 none is pending and at least one has failed the group is handed out, once.
 */
module ProactiveStore {
  import opened Options

  datatype Status = Pending | Completed | Failure

  datatype Run = Run(id: string, name: string, status: Status)

  type Group = map<string, Run>

  /** The columns that select a row. */
  datatype Key = Key(repoId: string, prNumber: int, commit: string)

  /** The time is that of the insert: no update touches it. */
  datatype Record = Record(runs: Group, sent: bool, lastUpdatedAt: int)

  /**
   What happens to one row: a workflow event, with what the provider would list if the row had to be created, or a
   cleanup that removes a row older than the cutoff.
   */
  datatype Action = Event(run: Run, listed: Group, now: int) | Clean(cutoff: int)

  predicate NonePending(g: Group) {
    forall id | id in g :: !g[id].status.Pending?
  }

  predicate SomeFailed(g: Group) {
    exists id | id in g :: g[id].status.Failure?
  }

  /** All runs are over and one has failed. */
  predicate Conclusive(g: Group) { NonePending(g) && SomeFailed(g) }

  // ---------------------------------------------------------------- one transaction

  function Step(record: Option<Record>, a: Action): (Option<Record>, Option<Group>) {
    match a
    case Clean(cutoff) =>
      (if record.Some? && record.value.lastUpdatedAt < cutoff then None else record, None)
    case Event(run, listed, now) =>
      if record.Some? && record.value.sent then (record, None)
      else
        var group := (if record.Some? then record.value.runs else listed)[run.id := run];
        var since := if record.Some? then record.value.lastUpdatedAt else now;
        (Some(Record(group, Conclusive(group), since)), if Conclusive(group) then Some(group) else None)
  }

  function RowAt(table: map<Key, Record>, key: Key): Option<Record> {
    if key in table then Some(table[key]) else None
  }

  class ProactiveConversationStore {
    var table: map<Key, Record>

    method StoreWorkflowInformation(key: Key, workflow: Run, listed: Group, now: int) returns (final: Option<Group>)
      modifies this
      ensures (RowAt(table, key), final) == Step(RowAt(old(table), key), Event(workflow, listed, now))
      ensures forall other | other != key :: RowAt(table, other) == RowAt(old(table), other)
      ensures key in old(table) && old(table)[key].sent ==> final == None && RowAt(table, key) == RowAt(old(table), key)
      ensures !(key in old(table) && old(table)[key].sent) ==>
                var group := (if key in old(table) then old(table)[key].runs else listed)[workflow.id := workflow];
                && key in table && table[key].runs == group && table[key].sent == final.Some?
                && table[key].lastUpdatedAt == (if key in old(table) then old(table)[key].lastUpdatedAt else now)
                && (final.Some? ==> final.value == group)
                && (final.Some? <==> (forall id | id in group :: group[id].status != Pending)
                                     && exists id :: id in group && group[id].status == Failure)
    {
      if key in table && table[key].sent {
        return None;
      }
      var group := if key !in table then listed else table[key].runs;
      group := group[workflow.id := workflow];
      var shouldSend := false;
      if NonePending(group) {
        shouldSend := SomeFailed(group);
      }
      final := None;
      if shouldSend {
        final := Some(group);
      }
      if key in table {
        table := table[key := table[key].(runs := group, sent := shouldSend)];
      } else {
        table := table[key := Record(group, shouldSend, now)];
      }
    }

    /** Each row on its own: one older than the cutoff goes, a younger one stays as it is. */
    method CleanOldConvos(now: int, olderThanMinutes: int)
      modifies this
      ensures forall key :: RowAt(table, key) == Step(RowAt(old(table), key), Clean(now - 60 * olderThanMinutes)).0
      ensures forall key :: key in table <==>
                key in old(table) && old(table)[key].lastUpdatedAt >= now - 60 * olderThanMinutes
    {
      var cutoff := now - 60 * olderThanMinutes;
      table := map key | key in table && table[key].lastUpdatedAt >= cutoff :: table[key];
    }
  }

  function After(run: seq<Action>): Option<Record> {
    if run == [] then None else Step(After(run[..|run| - 1]), run[|run| - 1]).0
  }

  function Returned(run: seq<Action>, i: nat): Option<Group>
    requires i < |run|
  {
    Step(After(run[..i]), run[i]).1
  }

  // ---------------------------------------------------------------- what the events say, without any record

  /** The event at which the present life of the row began: the first after a cleanup that came late enough. */
  function Birth(run: seq<Action>): (birth: Option<nat>)
    ensures birth.Some? ==> birth.value < |run| && run[birth.value].Event?
  {
    if run == [] then None
    else
      var before, last := run[..|run| - 1], run[|run| - 1];
      var birth := Birth(before);
      if last.Event? then Some(birth.GetOr(|run| - 1))
      else if birth.Some? && before[birth.value].now < last.cutoff then None
      else birth
  }

  /** The latest word on each workflow since then, over what the provider listed at the first event. */
  function Told(run: seq<Action>): Group {
    if run == [] || Birth(run).None? then map[]
    else
      var before, last := run[..|run| - 1], run[|run| - 1];
      if last.Clean? then Told(before)
      else (if Birth(run) == Some(|run| - 1) then last.listed else Told(before))[last.run.id := last.run]
  }

  /** Some moment of the present life up to moment i was conclusive. */
  ghost predicate ConclusiveBy(run: seq<Action>, i: nat) {
    Birth(run).Some? && exists j | Birth(run).value < j <= i && j <= |run| :: Conclusive(Told(run[..j]))
  }

  /** The i-th moment is the first conclusive one of the present life. */
  ghost predicate FirstConclusive(run: seq<Action>, i: nat) {
    && Birth(run).Some? && Birth(run).value < i <= |run|
    && Conclusive(Told(run[..i])) && !ConclusiveBy(run, i - 1)
  }

  /** The group at the first conclusive moment of the present life, by recursion. */
  ghost function Conclusion(run: seq<Action>): Option<Group> {
    if run == [] || Birth(run).None? then None
    else if Birth(run) == Birth(run[..|run| - 1]) && Conclusion(run[..|run| - 1]).Some? then
      Conclusion(run[..|run| - 1])
    else if Conclusive(Told(run)) then Some(Told(run)) else None
  }

  lemma {:induction false} RecordHoldsConclusion(run: seq<Action>)
    ensures After(run) ==
              if Birth(run).None? then None
              else Some(Record(Conclusion(run).GetOr(Told(run)), Conclusion(run).Some?, run[Birth(run).value].now))
    decreases |run|
  {
    hide Conclusive;
    if run != [] {
      RecordHoldsConclusion(run[..|run| - 1]);
      ConclusionIsConclusive(run[..|run| - 1]);
    }
  }

  /** Without a conclusion so far the present word is not conclusive. */
  lemma {:induction false} ConclusionIsConclusive(run: seq<Action>)
    ensures Birth(run).Some? && Conclusion(run).None? ==> !Conclusive(Told(run))
  {
  }

  lemma {:induction false} ConclusionIsFirst(run: seq<Action>)
    ensures Conclusion(run).Some? <==> ConclusiveBy(run, |run|)
    ensures Conclusion(run).Some? ==> exists i: nat ::
                FirstConclusive(run, i) && Conclusion(run).value == Told(run[..i])
    decreases |run|
  {
    hide Conclusive, Told;
    if run != [] && Birth(run).Some? {
      var before := run[..|run| - 1];
      ConclusionIsFirst(before);
      assert run[..|run|] == run;
      forall j | 0 <= j < |run| ensures run[..j] == before[..j] {}
      if Birth(run) == Birth(before) && Conclusion(before).Some? {
        var i: nat :| FirstConclusive(before, i) && Conclusion(before).value == Told(before[..i]);
        assert FirstConclusive(run, i) && Conclusion(run).value == Told(run[..i]);
      } else if Conclusive(Told(run)) {
        assert FirstConclusive(run, |run|);
      }
    }
  }

  // ---------------------------------------------------------------- results

  /**
   Main result: a call hands out a group exactly if it is the first of its life after which the collected runs
   are conclusive, and then it hands out those runs.
   */
  lemma HandedOutOnce(run: seq<Action>, i: nat)
    requires i < |run| && run[i].Event?
    ensures Returned(run, i).Some? <==> FirstConclusive(run[..i + 1], i + 1)
    ensures Returned(run, i).Some? ==> Returned(run, i).value == Told(run[..i + 1])
  {
    hide Conclusive;
    var before, upto := run[..i], run[..i + 1];
    assert upto[..|upto| - 1] == before && upto[..i + 1] == upto;
    RecordHoldsConclusion(before);
    ConclusionIsFirst(before);
    forall j | 0 <= j <= i ensures upto[..j] == before[..j] {}
  }

  /** Once handed out, the stored runs stay as they were, whatever events follow. */
  lemma FrozenOnceHandedOut(run: seq<Action>, i: nat)
    requires FirstConclusive(run, i)
    ensures After(run) == Some(Record(Told(run[..i]), true, run[Birth(run).value].now))
  {
    hide Conclusive, Told;
    RecordHoldsConclusion(run);
    ConclusionIsFirst(run);
    assert ConclusiveBy(run, |run|);
    var k: nat :| FirstConclusive(run, k) && Conclusion(run).value == Told(run[..k]);
    assert k == i;
  }

  /** A row that was handed out stays as it is until a cleanup finds it older than its cutoff. */
  lemma {:induction false} StaysUntilCleanup(run: seq<Action>, i: nat, m: nat, row: Record)
    requires i <= m <= |run| && After(run[..i]) == Some(row) && row.sent
    requires forall k | i <= k < m && run[k].Clean? :: run[k].cutoff <= row.lastUpdatedAt
    ensures After(run[..m]) == Some(row)
    decreases m
  {
    if i < m {
      StaysUntilCleanup(run, i, m - 1, row);
      assert run[..m][..m - 1] == run[..m - 1];
    }
  }

  /** When the row that call i finds or creates was created. */
  function CreatedAt(run: seq<Action>, i: nat): int
    requires i < |run| && run[i].Event?
  {
    assert run[..i + 1][i] == run[i];
    run[Birth(run[..i + 1]).value].now
  }

  /**
   Main result: two calls both hand out a group only if a cleanup came in between and found the row of the first
   older than its cutoff; its age counts from its creation, however recent its last event.
   */
  lemma HandedOutTwiceAfterCleanup(run: seq<Action>, i: nat, j: nat)
    requires i < j < |run| && Returned(run, i).Some? && Returned(run, j).Some?
    ensures exists k :: i < k < j && run[k].Clean? && CreatedAt(run, i) < run[k].cutoff
  {
    hide Conclusive;
    var upto := run[..i + 1];
    assert upto[..i] == run[..i] && upto[i] == run[i];
    RecordHoldsConclusion(upto);
    var row := After(upto).value;
    if forall k | i < k < j && run[k].Clean? :: run[k].cutoff <= row.lastUpdatedAt {
      StaysUntilCleanup(run, i + 1, j, row);
    }
  }

  /** And then the next event hands one out again exactly if it is conclusive together with what the provider lists. */
  lemma HandedOutAgainExactly(run: seq<Action>, cutoff: int, e: Action)
    requires After(run).Some? && After(run).value.sent && e.Event?
    ensures Birth(run).Some?
    ensures Returned(run + [Clean(cutoff), e], |run| + 1).Some? <==>
              run[Birth(run).value].now < cutoff && Conclusive(e.listed[e.run.id := e.run])
  {
    hide Conclusive;
    RecordHoldsConclusion(run);
    var longer := run + [Clean(cutoff), e];
    assert longer[..|run| + 1][..|run|] == run && longer[..|run| + 1][|run|] == Clean(cutoff);
  }
}
