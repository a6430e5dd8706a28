/** The table of GitLab webhook rows and the statements the store runs on it. */
module WebhookStore {
  import opened Options

  type RowId = nat

  /** lastSynced is the time of the last write: the column is stamped by every update. */
  datatype Row = Row(groupId: Option<string>, projectId: Option<string>, webhookExists: bool, lastSynced: nat)

  datatype Resource = Group(id: string) | Project(id: string)

  type Table = map<RowId, Row>

  predicate Given(id: Option<string>) { id.Some? && id.value != "" }

  /** None stands for the ValueError: neither id is given, or both are. */
  function DetermineResourceType(row: Row): Option<Resource> {
    if !Given(row.groupId) && !Given(row.projectId) then None
    else if Given(row.groupId) && Given(row.projectId) then None
    else if Given(row.groupId) then Some(Group(row.groupId.value))
    else Some(Project(row.projectId.value))
  }

  predicate Matches(row: Row, r: Resource) {
    if r.Project? then row.projectId == Some(r.id) else row.groupId == Some(r.id)
  }

  /** UPDATE ... WHERE: with Some(b) it sets the existence flag as well as the stamp. */
  function Updated(table: Table, r: Resource, webhookExists: Option<bool>, now: nat): Table {
    map id | id in table ::
      if !Matches(table[id], r) then table[id]
      else if webhookExists.None? then table[id].(lastSynced := now)
      else table[id].(webhookExists := webhookExists.value, lastSynced := now)
  }

  function Deleted(table: Table, r: Resource): Table {
    map id | id in table && !Matches(table[id], r) :: table[id]
  }

  /** Insert with ON CONFLICT DO NOTHING; id is the next value of the key sequence. */
  function Inserted(table: Table, id: RowId, r: Resource, now: nat): Table {
    if id in table || exists other | other in table :: Matches(table[other], r) then table
    else if r.Group? then table[id := Row(Some(r.id), None, false, now)]
    else table[id := Row(None, Some(r.id), false, now)]
  }

  /** One transaction of `store_webhooks`: all its rows get the same stamp. */
  function InsertedAll(table: Table, entries: seq<(RowId, Resource)>, now: nat): Table {
    if entries == [] then table
    else
      var (id, r) := entries[|entries| - 1];
      Inserted(InsertedAll(table, entries[..|entries| - 1], now), id, r, now)
  }

  /** The two unique constraints; NULLs do not conflict. */
  ghost predicate Unique(table: Table) {
    forall i, j | i in table && j in table && i != j ::
      && (table[i].groupId.Some? ==> table[i].groupId != table[j].groupId)
      && (table[i].projectId.Some? ==> table[i].projectId != table[j].projectId)
  }

  predicate Pending(table: Table, id: RowId) {
    id in table && !table[id].webhookExists
  }

  /** Some answer to the query for rows to process: oldest stamps first, ties in any order, at most limit rows. */
  ghost predicate IsFetch(table: Table, rows: seq<RowId>, limit: nat) {
    && |rows| <= limit
    && (forall i | 0 <= i < |rows| :: Pending(table, rows[i]))
    && (forall i, j | 0 <= i < j < |rows| ::
          rows[i] != rows[j] && table[rows[i]].lastSynced <= table[rows[j]].lastSynced)
    && (forall id | Pending(table, id) && id !in rows ::
          |rows| == limit && forall i | 0 <= i < |rows| :: table[rows[i]].lastSynced <= table[id].lastSynced)
  }

  // ---------------------------------------------------------------- what the statements touch

  /** The id found for a row selects that row and no other. */
  lemma ResourceIdentifiesRow(table: Table, id: RowId, other: RowId)
    requires Unique(table) && id in table && other in table && DetermineResourceType(table[id]).Some?
    ensures Matches(table[other], DetermineResourceType(table[id]).value) <==> other == id
  {
  }

  /** So a write for a row touches that row alone, and a delete removes it alone. */
  lemma WritesTouchOneRow(table: Table, id: RowId, webhookExists: Option<bool>, now: nat)
    requires Unique(table) && id in table && DetermineResourceType(table[id]).Some?
    ensures var r := DetermineResourceType(table[id]).value;
            && Updated(table, r, webhookExists, now)
               == table[id := table[id].(lastSynced := now,
                        webhookExists := if webhookExists.Some? then webhookExists.value else table[id].webhookExists)]
            && Deleted(table, r) == table - {id}
  {
    var r := DetermineResourceType(table[id]).value;
    forall other | other in table ensures Matches(table[other], r) <==> other == id {
      ResourceIdentifiesRow(table, id, other);
    }
  }

  lemma WritesKeepUnique(table: Table, r: Resource, webhookExists: Option<bool>, now: nat, id: RowId)
    requires Unique(table)
    ensures Unique(Updated(table, r, webhookExists, now)) && Unique(Deleted(table, r))
    ensures Unique(Inserted(table, id, r, now))
  {
  }

  /**
   A row that is stored needs a webhook, names its resource alone and carries the stamp; nothing is stored for a
   resource that has a row.
   */
  lemma StoredRowIsPending(table: Table, id: RowId, r: Resource, now: nat)
    requires id !in table && r.id != ""
    ensures var after := Inserted(table, id, r, now);
            if exists other | other in table :: Matches(table[other], r) then after == table
            else
              && Pending(after, id) && DetermineResourceType(after[id]) == Some(r) && after[id].lastSynced == now
              && after - {id} == table
  {
    if !exists other | other in table :: Matches(table[other], r) {
      assert Inserted(table, id, r, now) - {id} == table;
    }
  }

  /** One id that is given and not empty names the resource; with both or neither there is none. */
  lemma ResourceExactly(row: Row, r: Resource)
    ensures DetermineResourceType(row) == Some(r) <==>
              match r
              case Group(id) => row.groupId == Some(id) && id != "" && row.projectId in {None, Some("")}
              case Project(id) => row.projectId == Some(id) && id != "" && row.groupId in {None, Some("")}
  {
  }

  lemma {:induction false} InsertsKeepUnique(table: Table, entries: seq<(RowId, Resource)>, now: nat)
    requires Unique(table)
    ensures Unique(InsertedAll(table, entries, now))
  {
    hide Unique;
    if entries != [] {
      var before, e := entries[..|entries| - 1], entries[|entries| - 1];
      InsertsKeepUnique(table, before, now);
      WritesKeepUnique(InsertedAll(table, before, now), e.1, None, now, e.0);
    }
  }

  /** Rows that are there stay, and new ones need a webhook and carry the stamp. */
  lemma {:induction false} InsertsOnlyAdd(table: Table, entries: seq<(RowId, Resource)>, now: nat)
    ensures var after := InsertedAll(table, entries, now);
            && (forall id | id in table :: id in after && after[id] == table[id])
            && (forall id | id in after && id !in table :: after[id].lastSynced == now)
  {
    if entries != [] {
      InsertsOnlyAdd(table, entries[..|entries| - 1], now);
    }
  }

  // ---------------------------------------------------------------- a query always has an answer

  lemma {:induction false} OldestOf(table: Table, ids: set<RowId>) returns (oldest: RowId)
    requires ids != {} && ids <= table.Keys
    ensures oldest in ids && forall id | id in ids :: table[oldest].lastSynced <= table[id].lastSynced
    decreases ids
  {
    oldest :| oldest in ids;
    if ids != {oldest} {
      var best := OldestOf(table, ids - {oldest});
      if table[best].lastSynced < table[oldest].lastSynced { oldest := best; }
    }
  }

  /** If the target is listed, so is the first row, and not after it. */
  ghost predicate ListsFirst(rows: seq<RowId>, first: RowId, target: RowId) {
    forall i | 0 <= i < |rows| && rows[i] == target :: exists j | 0 <= j <= i :: rows[j] == first
  }

  lemma FetchOneMore(table: Table, rows: seq<RowId>, limit: nat, next: RowId)
    requires IsFetch(table, rows, limit) && Pending(table, next) && next !in rows
    requires forall id | Pending(table, id) && id !in rows :: table[next].lastSynced <= table[id].lastSynced
    ensures IsFetch(table, rows + [next], limit + 1)
  {
    var longer := rows + [next];
    forall i, j | 0 <= i < j < |longer|
      ensures longer[i] != longer[j] && table[longer[i]].lastSynced <= table[longer[j]].lastSynced
    {
      assert longer[i] == rows[i];
    }
  }

  lemma FirstStaysFirst(rows: seq<RowId>, next: RowId, first: RowId, target: RowId)
    requires ListsFirst(rows, first, target) && (next == target ==> next == first || first in rows)
    ensures ListsFirst(rows + [next], first, target)
  {
    var longer := rows + [next];
    forall i | 0 <= i < |longer| && longer[i] == target ensures exists j | 0 <= j <= i :: longer[j] == first {
      if i < |rows| {
        var j :| 0 <= j <= i && rows[j] == first;
        assert longer[j] == first;
      } else if next == first {
        assert longer[i] == first;
      } else {
        var j :| 0 <= j < |rows| && rows[j] == first;
        assert longer[j] == first;
      }
    }
  }

  /** A listing that puts the first row before the target, as its stamp is not the later one. */
  lemma {:induction false} FetchFirst(table: Table, limit: nat, first: RowId, target: RowId) returns (rows: seq<RowId>)
    requires Pending(table, first) && target in table && table[first].lastSynced <= table[target].lastSynced
    ensures IsFetch(table, rows, limit) && ListsFirst(rows, first, target)
  {
    rows := [];
    if limit > 0 {
      rows := FetchFirst(table, limit - 1, first, target);
      var open := set id | id in table && Pending(table, id) && id !in rows;
      assert forall id :: id in open <==> Pending(table, id) && id !in rows;
      if open != {} {
        var next := OldestOf(table, open);
        if first in open && table[first].lastSynced <= table[next].lastSynced { next := first; }
        FirstStaysFirst(rows, next, first, target);
        FetchOneMore(table, rows, limit - 1, next);
        rows := rows + [next];
      }
    }
  }

  lemma FetchExists(table: Table, limit: nat) returns (rows: seq<RowId>)
    ensures IsFetch(table, rows, limit)
  {
    if id :| Pending(table, id) {
      rows := FetchFirst(table, limit, id, id);
    } else {
      rows := [];
    }
  }

  // ---------------------------------------------------------------- the store

  class GitlabWebhookStore {
    var table: Table
    var clock: nat

    /** Returns false for the ValueError, with nothing written. */
    method UpdateWebhook(webhook: Row, webhookExists: Option<bool>) returns (ok: bool)
      modifies this
      ensures ok == DetermineResourceType(webhook).Some?
      ensures ok ==> (clock == old(clock) + 1
                      && table == Updated(old(table), DetermineResourceType(webhook).value, webhookExists, clock))
      ensures !ok ==> (table == old(table) && clock == old(clock))
    {
      var resource := DetermineResourceType(webhook);
      if resource.None? {
        return false;
      }
      clock := clock + 1;
      table := Updated(table, resource.value, webhookExists, clock);
      return true;
    }

    method UpdateLastSynced(webhook: Row) returns (ok: bool)
      modifies this
      ensures ok == DetermineResourceType(webhook).Some?
      ensures ok ==> (clock == old(clock) + 1
                      && table == Updated(old(table), DetermineResourceType(webhook).value, None, clock))
      ensures !ok ==> (table == old(table) && clock == old(clock))
    {
      ok := UpdateWebhook(webhook, None);
    }

    method DeleteWebhook(webhook: Row) returns (ok: bool)
      modifies this`table
      ensures ok == DetermineResourceType(webhook).Some?
      ensures table == if ok then Deleted(old(table), DetermineResourceType(webhook).value) else old(table)
    {
      var resource := DetermineResourceType(webhook);
      if resource.None? {
        return false;
      }
      table := Deleted(table, resource.value);
      return true;
    }
  }
}
