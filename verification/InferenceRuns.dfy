/** What every run of the inference batch keeps, through crashes, failures and restarts. */
module InferenceRuns {
  import opened Options
  import opened Inference

  // ---------------------------------------------------------------- summary rows by instance

  function ById(rows: seq<Row>): map<Id, Row> {
    if rows == [] then map[] else ById(rows[..|rows| - 1])[rows[|rows| - 1].id := rows[|rows| - 1]]
  }

  ghost predicate OneRowEach(rows: seq<Row>) {
    forall r, s | r in rows && s in rows && r.id == s.id :: r == s
  }

  lemma {:induction false} ByIdIndexes(rows: seq<Row>)
    requires OneRowEach(rows)
    ensures forall r :: r in rows <==> r.id in ById(rows) && ById(rows)[r.id] == r
    ensures Keyed(ById(rows))
  {
    if rows != [] {
      var init, last := rows[..|rows| - 1], rows[|rows| - 1];
      assert rows == init + [last];
      assert forall r :: r in rows <==> r in init || r == last;
      ByIdIndexes(init);
    }
  }

  lemma ByIdOfOrdered(instances: seq<Id>, rows: map<Id, Row>)
    requires Keyed(rows) && rows.Keys <= Ids(instances)
    ensures ById(Ordered(instances, rows)) == rows
  {
    var list := Ordered(instances, rows);
    OrderedRows(instances, rows);
    ByIdIndexes(list);
    forall id | id in rows ensures id in ById(list) && ById(list)[id] == rows[id] {
      assert rows[id] in list;
    }
    forall id | id in ById(list) ensures id in rows {
      assert ById(list)[id] in list;
    }
  }

  // ---------------------------------------------------------------- invariants

  /** A row on disk has its prediction on disk, from the same execution, and its own predictions file. */
  ghost predicate DiskOk(cfg: Config, disk: Disk) {
    && !disk.preds.Corrupt? && !disk.summary.Corrupt?
    && (forall id | id in StoredPreds(disk) :: StoredPreds(disk)[id].id == id)
    && StoredPreds(disk).Keys <= Ids(cfg.instances)
    && RowsOk(cfg, StoredRows(disk), StoredPreds(disk), disk.runFiles.Keys)
  }

  ghost predicate RowsOk(cfg: Config, rows: seq<Row>, preds: map<Id, Pred>, ran: set<Id>) {
    && OneRowEach(rows) && ById(rows).Keys <= Ids(cfg.instances)
    && rows == Ordered(cfg.instances, ById(rows))
    && forall r | r in rows :: r.id in preds && preds[r.id] == Pred(r.id, r.attempt) && r.id in ran
  }

  /** The records in memory: like the files, and complete for every instance recorded. */
  ghost predicate RecordsOk(cfg: Config, r: Records, ran: set<Id>) {
    && Keyed(r.summaryById) && r.summaryById.Keys <= Ids(cfg.instances)
    && r.completed == r.summaryById.Keys
    && r.summaries == Ordered(cfg.instances, r.summaryById)
    && (forall id | id in r.allPreds :: r.allPreds[id].id == id)
    && r.allPreds.Keys <= Ids(cfg.instances)
    && (forall id | id in r.summaryById ::
          id in r.allPreds && r.allPreds[id] == Pred(id, r.summaryById[id].attempt) && id in ran)
  }

  function One(b: bool): nat { if b then 1 else 0 }

  /** In how many places a session has an id. */
  function Tally(s: Session, id: Id): nat {
    One(id in s.records.completed) + One(id in s.waiting) + One(id in s.executing)
    + One(id in s.results) + One(id in s.failed)
  }

  /** Every instance is in exactly one place, and active from its start until it is handled. */
  ghost predicate PlacesOk(cfg: Config, s: Session) {
    && (forall id :: Tally(s, id) == One(id in Ids(cfg.instances)))
    && (forall id :: RightlyActive(s, id))
    && |s.executing| <= cfg.maxConcurrency
  }

  predicate RightlyActive(s: Session, id: Id) {
    id in s.active <==> id in s.executing || id in s.results
  }

  /** Results and written files agree. */
  ghost predicate ResultsOk(executing: map<Id, Phase>, results: map<Id, Result>, ran: set<Id>) {
    && (forall id | id in executing && executing[id].Written? :: id in ran)
    && (forall id | id in results && results[id].Succeeded? ::
          results[id].row.id == id && results[id].pred == Pred(id, results[id].row.attempt) && id in ran)
  }

  /** What the files still lack is what the pending writes will put there. */
  ghost predicate WritesOk(s: Session, disk: Disk) {
    && (WritePreds !in s.writes ==> StoredPreds(disk) == s.records.allPreds)
    && (WriteSummary !in s.writes ==> StoredRows(disk) == s.records.summaries)
    && (s.writes != [] ==> WritePreds !in s.writes[1..])
    && StoredPreds(disk).Keys <= s.records.allPreds.Keys
    && forall r | r in StoredRows(disk) :: r.id in s.records.summaryById && s.records.summaryById[r.id] == r
  }

  ghost predicate SessionOk(cfg: Config, s: Session, disk: Disk) {
    && RecordsOk(cfg, s.records, disk.runFiles.Keys)
    && PlacesOk(cfg, s)
    && ResultsOk(s.executing, s.results, disk.runFiles.Keys)
    && WritesOk(s, disk)
  }

  // ---------------------------------------------------------------- resuming from any files

  ghost predicate Named(rows: seq<Row>, id: Id) {
    id != "" && exists i :: 0 <= i < |rows| && rows[i].id == id
  }

  ghost predicate LastNamed(rows: seq<Row>, id: Id, row: Row) {
    row.id == id && exists i :: 0 <= i < |rows| && rows[i] == row && forall j | i < j < |rows| :: rows[j].id != id
  }

  /** Every instance's own file, if it can be read, holds a prediction for that instance. */
  ghost predicate OwnFiles(runFiles: map<Id, File<Pred>>) {
    forall id | id in runFiles && runFiles[id].Json? :: runFiles[id].content.id == id
  }

  lemma StillNamed(rows: seq<Row>, id: Id)
    requires rows != []
    ensures Named(rows, id) <==> Named(rows[..|rows| - 1], id) || (id != "" && rows[|rows| - 1].id == id)
  {
    var before := rows[..|rows| - 1];
    if Named(before, id) {
      var i :| 0 <= i < |before| && before[i].id == id;
      assert rows[i].id == id;
    }
    if Named(rows, id) && rows[|rows| - 1].id != id {
      var i :| 0 <= i < |rows| && rows[i].id == id;
      assert before[i].id == id;
    }
  }

  lemma StillLast(rows: seq<Row>, id: Id, row: Row)
    requires rows != [] && rows[|rows| - 1].id != id && LastNamed(rows[..|rows| - 1], id, row)
    ensures LastNamed(rows, id, row)
  {
    var before := rows[..|rows| - 1];
    var i :| 0 <= i < |before| && before[i] == row && forall j | i < j < |before| :: before[j].id != id;
    assert rows[i] == row;
    forall j | i < j < |rows| ensures rows[j].id != id {
      if j < |before| { assert rows[j] == before[j]; }
    }
  }

  lemma NamedOneMore(rows: seq<Row>, id: Id)
    requires rows != []
    ensures Named(rows, id) <==> Named(rows[..|rows| - 1], id) || (id != "" && rows[|rows| - 1].id == id)
    ensures rows[|rows| - 1].id == id ==> LastNamed(rows, id, rows[|rows| - 1])
    ensures forall row | rows[|rows| - 1].id != id && LastNamed(rows[..|rows| - 1], id, row) :: LastNamed(rows, id, row)
  {
    StillNamed(rows, id);
    hide Named;
    if rows[|rows| - 1].id == id {
      assert rows[|rows| - 1] == rows[|rows| - 1];
    } else {
      hide LastNamed;
      forall row | LastNamed(rows[..|rows| - 1], id, row) ensures LastNamed(rows, id, row) {
        StillLast(rows, id, row);
      }
    }
  }

  /** What the loop over the rows makes of one instance. */
  ghost predicate Resumed(r: Records, preds: map<Id, Pred>, rows: seq<Row>, runFiles: map<Id, File<Pred>>, id: Id) {
    && (id in r.completed <==> Named(rows, id) && id in runFiles)
    && (id in r.summaryById <==> Named(rows, id))
    && (id in r.summaryById ==> LastNamed(rows, id, r.summaryById[id]))
    && (OwnFiles(runFiles) ==>
          && (id in r.allPreds <==> id in preds || (Named(rows, id) && id in runFiles && runFiles[id].Json?))
          && (id in r.allPreds ==> r.allPreds[id] == if id in preds then preds[id] else runFiles[id].content))
  }

  lemma ResumedOneMore(r: Records, preds: map<Id, Pred>, rows: seq<Row>, runFiles: map<Id, File<Pred>>, id: Id)
    requires rows != []
    requires Resumed(r, preds, rows[..|rows| - 1], runFiles, id)
    requires Resumed(r, preds, rows[..|rows| - 1], runFiles, rows[|rows| - 1].id)
    ensures Resumed(LoadRow(r, rows[|rows| - 1], runFiles), preds, rows, runFiles, id)
  {
    NamedOneMore(rows, id);
    hide Named, LastNamed;
  }

  lemma {:induction false} RowsResumed(preds: map<Id, Pred>, all: seq<Row>, rows: seq<Row>, runFiles: map<Id,
                                       File<Pred>>, id: Id)
    ensures Resumed(LoadRows(Records(preds, all, map[], {}), rows, runFiles), preds, rows, runFiles, id)
    decreases |rows|
  {
    hide Resumed;
    if rows == [] {
      NothingResumed(preds, all, runFiles, id);
    } else {
      var before := rows[..|rows| - 1];
      RowsResumed(preds, all, before, runFiles, id);
      RowsResumed(preds, all, before, runFiles, rows[|rows| - 1].id);
      ResumedOneMore(LoadRows(Records(preds, all, map[], {}), before, runFiles), preds, rows, runFiles, id);
    }
  }

  lemma NothingResumed(preds: map<Id, Pred>, all: seq<Row>, runFiles: map<Id, File<Pred>>, id: Id)
    ensures Resumed(Records(preds, all, map[], {}), preds, [], runFiles, id)
  {
  }

  /**
   For any files at all, also ones that no run leaves: an instance counts as completed exactly if it has a row and
   its predictions file is there, its row is the last one of its id, and its prediction is the aggregate one or,
   failing that, the one of its own file.
   */
  lemma ResumesExactly(disk: Disk, id: Id)
    ensures Resumed(LoadResumeState(disk), StoredPreds(disk), StoredRows(disk), disk.runFiles, id)
    ensures LoadResumeState(disk).summaries == StoredRows(disk)
  {
    RowsResumed(StoredPreds(disk), StoredRows(disk), StoredRows(disk), disk.runFiles, id);
    LoadedSummaries(Records(StoredPreds(disk), StoredRows(disk), map[], {}), StoredRows(disk), disk.runFiles);
  }

  // ---------------------------------------------------------------- status files

  /** x is an earlier instance than y. */
  ghost predicate Earlier(instances: seq<Id>, x: Id, y: Id) {
    exists i, j | 0 <= i < j < |instances| :: instances[i] == x && instances[j] == y
  }

  /** The list has exactly the instances that are in the set, in instance order. */
  ghost predicate Lists(instances: seq<Id>, list: seq<Id>, ids: set<Id>) {
    && (forall id :: id in list <==> id in instances && id in ids)
    && forall p, q | 0 <= p < q < |list| :: Earlier(instances, list[p], list[q])
  }

  /** What the status says of the three sets, field by field. */
  ghost predicate StatusShows(cfg: Config, st: Status, active: set<Id>, completed: set<Id>, failed: set<Id>) {
    && st.total == |cfg.instances|
    && st.active == active && st.activeCount == |active|
    && Lists(cfg.instances, st.completed, completed) && st.completedCount == |completed|
    && Lists(cfg.instances, st.failed, failed) && st.failedCount == |failed|
    && st.pendingCount == st.total - |active| - |completed|
    && (st.done <==> forall id | id in cfg.instances :: id in completed)
  }

  lemma EarlierInTail(instances: seq<Id>, x: Id, y: Id)
    requires instances != [] && Earlier(instances[1..], x, y)
    ensures Earlier(instances, x, y)
  {
    var i, j :| 0 <= i < j < |instances| - 1 && instances[1..][i] == x && instances[1..][j] == y;
    assert instances[i + 1] == x && instances[j + 1] == y;
  }

  lemma FirstIsEarlier(instances: seq<Id>, y: Id)
    requires instances != [] && y in instances[1..]
    ensures Earlier(instances, instances[0], y)
  {
    var j :| 0 <= j < |instances| - 1 && instances[1..][j] == y;
    assert instances[0] == instances[0] && instances[j + 1] == y;
  }

  lemma ListedIsInstance(instances: seq<Id>, ids: set<Id>, q: nat)
    requires q < |OrderedIds(instances, ids)|
    ensures OrderedIds(instances, ids)[q] in instances
  {
    OrderedIdsAre(instances, ids);
    assert OrderedIds(instances, ids)[q] in OrderedIds(instances, ids);
  }

  lemma {:induction false} ListedEarlier(instances: seq<Id>, ids: set<Id>, p: nat, q: nat)
    requires p < q < |OrderedIds(instances, ids)|
    ensures Earlier(instances, OrderedIds(instances, ids)[p], OrderedIds(instances, ids)[q])
    decreases |instances|
  {
    hide Earlier;
    if instances[0] !in ids {
      ListedEarlier(instances[1..], ids, p, q);
      EarlierInTail(instances, OrderedIds(instances, ids)[p], OrderedIds(instances, ids)[q]);
    } else if p == 0 {
      ListedIsInstance(instances[1..], ids, q - 1);
      FirstIsEarlier(instances, OrderedIds(instances, ids)[q]);
    } else {
      ListedEarlier(instances[1..], ids, p - 1, q - 1);
      EarlierInTail(instances, OrderedIds(instances, ids)[p], OrderedIds(instances, ids)[q]);
    }
  }

  lemma OrderedIdsInOrder(instances: seq<Id>, ids: set<Id>)
    ensures Lists(instances, OrderedIds(instances, ids), ids)
  {
    hide Earlier;
    OrderedIdsAre(instances, ids);
    var list := OrderedIds(instances, ids);
    hide OrderedIds;
    forall p, q | 0 <= p < q < |list| ensures Earlier(instances, list[p], list[q]) {
      ListedEarlier(instances, ids, p, q);
    }
  }

  /** The status that is written shows the sets it is written for. */
  lemma StatusShowsSets(cfg: Config, active: set<Id>, completed: set<Id>, failed: set<Id>)
    requires ValidConfig(cfg)
    requires active + completed + failed <= Ids(cfg.instances)
    requires active !! completed !! failed
    ensures StatusShows(cfg, StatusOf(cfg.instances, active, completed, failed), active, completed, failed)
  {
    hide Lists;
    OrderedIdsInOrder(cfg.instances, completed);
    OrderedIdsInOrder(cfg.instances, failed);
    CountsAddUp(cfg, active, completed, failed);
    assert completed == Ids(cfg.instances) <==> forall id | id in cfg.instances :: id in completed;
  }

  /** The three lists are disjoint, the counts are theirs and add up without the clamp, and done means all. */
  ghost predicate GoodStatus(cfg: Config, st: Status) {
    && st.total == |cfg.instances|
    && (forall id | id in st.completed :: id !in st.active && id !in st.failed)
    && (forall id | id in st.failed :: id !in st.active)
    && st.activeCount == |st.active| && st.completedCount == |st.completed| && st.failedCount == |st.failed|
    && st.activeCount + st.completedCount + st.pendingCount == st.total
    && st.pendingCount >= st.failedCount
    && (st.done <==> forall i | 0 <= i < |cfg.instances| :: cfg.instances[i] in st.completed)
  }

  lemma {:induction false} IdsCount(instances: seq<Id>)
    requires forall i, j | 0 <= i < j < |instances| :: instances[i] != instances[j]
    ensures |Ids(instances)| == |instances|
  {
    if instances != [] {
      var init, last := instances[..|instances| - 1], instances[|instances| - 1];
      IdsCount(init);
      assert Ids(instances) == Ids(init) + {last};
    }
  }

  lemma {:induction false} OrderedIdsCount(instances: seq<Id>, ids: set<Id>)
    requires forall i, j | 0 <= i < j < |instances| :: instances[i] != instances[j]
    ensures |OrderedIds(instances, ids)| == |ids * Ids(instances)|
  {
    if instances != [] {
      var tail := instances[1..];
      OrderedIdsCount(tail, ids);
      assert Ids(instances) == {instances[0]} + Ids(tail);
      assert instances[0] !in Ids(tail);
      if instances[0] in ids {
        assert ids * Ids(instances) == {instances[0]} + ids * Ids(tail);
      } else {
        assert ids * Ids(instances) == ids * Ids(tail);
      }
    }
  }

  lemma CountsAddUp(cfg: Config, active: set<Id>, completed: set<Id>, failed: set<Id>)
    requires ValidConfig(cfg)
    requires active + completed + failed <= Ids(cfg.instances)
    requires active !! completed !! failed
    ensures |active| + |completed| + |failed| <= |cfg.instances|
    ensures |completed| >= |cfg.instances| <==> completed == Ids(cfg.instances)
  {
    var all, union := Ids(cfg.instances), active + completed + failed;
    IdsCount(cfg.instances);
    assert |union| == |active| + |completed| + |failed|;
    assert |all - union| == |all| - |union|;
    assert |all - completed| == |all| - |completed|;
    if |completed| >= |all| { assert all - completed == {}; }
  }

  lemma ListsAreFaithful(cfg: Config, ids: set<Id>)
    requires ValidConfig(cfg) && ids <= Ids(cfg.instances)
    ensures |OrderedIds(cfg.instances, ids)| == |ids|
    ensures forall id :: id in OrderedIds(cfg.instances, ids) <==> id in ids
  {
    OrderedIdsCount(cfg.instances, ids);
    OrderedIdsAre(cfg.instances, ids);
    assert ids * Ids(cfg.instances) == ids;
  }

  lemma StatusIsGood(cfg: Config, active: set<Id>, completed: set<Id>, failed: set<Id>)
    requires ValidConfig(cfg)
    requires active + completed + failed <= Ids(cfg.instances)
    requires active !! completed !! failed
    ensures GoodStatus(cfg, StatusOf(cfg.instances, active, completed, failed))
  {
    CountsAddUp(cfg, active, completed, failed);
    ListsAreFaithful(cfg, completed);
    ListsAreFaithful(cfg, failed);
    assert completed == Ids(cfg.instances) <==> forall i | 0 <= i < |cfg.instances| :: cfg.instances[i] in completed;
  }

  lemma PlacesAreDisjoint(cfg: Config, s: Session)
    requires PlacesOk(cfg, s)
    ensures s.active + s.records.completed + s.failed <= Ids(cfg.instances)
    ensures s.active !! s.records.completed !! s.failed
  {
    forall id
      ensures One(id in s.active) + One(id in s.records.completed) + One(id in s.failed)
              <= One(id in Ids(cfg.instances))
    {
      assert Tally(s, id) == One(id in Ids(cfg.instances)) && RightlyActive(s, id);
    }
  }

  lemma SessionStatusIsGood(cfg: Config, s: Session)
    requires ValidConfig(cfg) && PlacesOk(cfg, s)
    ensures GoodStatus(cfg, SessionStatus(cfg, s))
  {
    PlacesAreDisjoint(cfg, s);
    StatusIsGood(cfg, s.active, s.records.completed, s.failed);
  }

  // ---------------------------------------------------------------- a clean end

  /** Exactly one row per instance, in order, and exactly one prediction each, from the same execution. */
  ghost predicate Complete(cfg: Config, disk: Disk) {
    var rows, preds := StoredRows(disk), StoredPreds(disk);
    && |rows| == |cfg.instances| && preds.Keys == Ids(cfg.instances)
    && forall i | 0 <= i < |rows| ::
         && rows[i].id == cfg.instances[i]
         && preds[cfg.instances[i]] == Pred(cfg.instances[i], rows[i].attempt)
  }

  ghost predicate WorldOk(cfg: Config, w: World) {
    && DiskOk(cfg, w.disk)
    && (w.process.Some? ==> SessionOk(cfg, w.process.value, w.disk))
    && StatusFileOk(cfg, w.disk)
  }

  ghost predicate StatusFileOk(cfg: Config, disk: Disk) {
    !disk.status.Corrupt? && (disk.status.Json? ==> GoodStatus(cfg, disk.status.content))
  }

  // ---------------------------------------------------------------- one step

  lemma {:induction false} LoadedRows(cfg: Config, r: Records, rows: seq<Row>, runFiles: map<Id, File<Pred>>)
    requires forall x | x in rows :: x.id != "" && x.id in runFiles && x.id in r.allPreds
    requires r.summaryById == map[] && r.completed == {}
    ensures LoadRows(r, rows, runFiles) == r.(summaryById := ById(rows), completed := ById(rows).Keys)
  {
    if rows != [] {
      var init, last := rows[..|rows| - 1], rows[|rows| - 1];
      assert rows == init + [last];
      LoadedRows(cfg, r, init, runFiles);
      assert last in rows;
    }
  }

  lemma LaunchPlaces(cfg: Config, r: Records, writes: seq<Inference.Write>)
    requires r.completed <= Ids(cfg.instances)
    ensures PlacesOk(cfg, Session(r, {}, {}, Ids(cfg.instances) - r.completed, map[], map[], writes))
  {
    var s := Session(r, {}, {}, Ids(cfg.instances) - r.completed, map[], map[], writes);
    forall id ensures Tally(s, id) == One(id in Ids(cfg.instances)) {}
  }

  /** What a restart reads back: nothing is lost, and nothing counts as completed without its row. */
  lemma LoadKeepsOk(cfg: Config, disk: Disk)
    requires ValidConfig(cfg) && DiskOk(cfg, disk)
    ensures var rows := StoredRows(disk);
            && LoadResumeState(disk) == Records(StoredPreds(disk), rows, ById(rows), ById(rows).Keys)
            && RecordsOk(cfg, LoadResumeState(disk), disk.runFiles.Keys)
  {
    var rows := StoredRows(disk);
    ByIdIndexes(rows);
    forall x | x in rows ensures x.id != "" {
      assert x.id in Ids(cfg.instances);
    }
    LoadedRows(cfg, Records(StoredPreds(disk), rows, map[], {}), rows, disk.runFiles);
    forall id | id in ById(rows) ensures ById(rows)[id] in rows {}
  }

  lemma LaunchKeepsOk(cfg: Config, disk: Disk)
    requires ValidConfig(cfg) && DiskOk(cfg, disk)
    ensures SessionOk(cfg, LaunchSession(cfg, disk), disk)
  {
    LoadKeepsOk(cfg, disk);
    ByIdIndexes(StoredRows(disk));
    var s := LaunchSession(cfg, disk);
    LaunchPlaces(cfg, s.records, s.writes);
  }

  lemma {:induction false} OrderedOfNothing(instances: seq<Id>)
    ensures Ordered(instances, map[]) == []
  {
    if instances != [] { OrderedOfNothing(instances[1..]); }
  }

  lemma PutPredsKeepsOk(cfg: Config, s: Session, disk: Disk)
    requires DiskOk(cfg, disk) && RecordsOk(cfg, s.records, disk.runFiles.Keys) && WritesOk(s, disk)
    requires s.writes != [] && s.writes[0] == WritePreds
    ensures DiskOk(cfg, Put(cfg, disk, s, WritePreds))
    ensures WritesOk(s.(writes := s.writes[1..]), Put(cfg, disk, s, WritePreds))
  {
    assert s.writes == [WritePreds] + s.writes[1..];
    forall r | r in StoredRows(disk)
      ensures r.id in s.records.allPreds && s.records.allPreds[r.id] == Pred(r.id, r.attempt)
    {
      assert s.records.summaryById[r.id] == r;
    }
  }

  /** When the summary is written the predictions are on disk already. */
  lemma PutSummaryKeepsOk(cfg: Config, s: Session, disk: Disk)
    requires DiskOk(cfg, disk) && RecordsOk(cfg, s.records, disk.runFiles.Keys) && WritesOk(s, disk)
    requires s.writes != [] && s.writes[0] == WriteSummary
    ensures DiskOk(cfg, Put(cfg, disk, s, WriteSummary))
    ensures WritesOk(s.(writes := s.writes[1..]), Put(cfg, disk, s, WriteSummary))
  {
    assert s.writes == [WriteSummary] + s.writes[1..];
    ByIdOfOrdered(cfg.instances, s.records.summaryById);
    OrderedRows(cfg.instances, s.records.summaryById);
  }

  lemma PutKeepsOk(cfg: Config, s: Session, disk: Disk)
    requires DiskOk(cfg, disk) && RecordsOk(cfg, s.records, disk.runFiles.Keys) && WritesOk(s, disk)
    requires s.writes != []
    ensures DiskOk(cfg, Put(cfg, disk, s, s.writes[0]))
    ensures WritesOk(s.(writes := s.writes[1..]), Put(cfg, disk, s, s.writes[0]))
  {
    match s.writes[0]
    case WritePreds => PutPredsKeepsOk(cfg, s, disk);
    case WriteSummary => PutSummaryKeepsOk(cfg, s, disk);
    case WriteStatus => assert s.writes == [WriteStatus] + s.writes[1..];
  }

  lemma PlacesIgnoreWrites(cfg: Config, s: Session, writes: seq<Inference.Write>)
    requires PlacesOk(cfg, s)
    ensures PlacesOk(cfg, s.(writes := writes))
  {
    forall x ensures Tally(s.(writes := writes), x) == Tally(s, x) && RightlyActive(s.(writes := writes), x) {
      assert RightlyActive(s, x);
    }
  }

  lemma WriteKeepsOk(cfg: Config, s: Session, disk: Disk)
    requires ValidConfig(cfg) && DiskOk(cfg, disk) && SessionOk(cfg, s, disk) && StatusFileOk(cfg, disk)
    requires s.writes != []
    ensures WorldOk(cfg, World(Put(cfg, disk, s, s.writes[0]), Some(s.(writes := s.writes[1..])), false))
  {
    var d, t := Put(cfg, disk, s, s.writes[0]), s.(writes := s.writes[1..]);
    assert d.runFiles == disk.runFiles && t.records == s.records;
    PutKeepsOk(cfg, s, disk);
    PlacesIgnoreWrites(cfg, s, s.writes[1..]);
    WriteKeepsStatus(cfg, s, disk);
  }

  lemma WriteKeepsStatus(cfg: Config, s: Session, disk: Disk)
    requires ValidConfig(cfg) && PlacesOk(cfg, s) && StatusFileOk(cfg, disk) && s.writes != []
    ensures StatusFileOk(cfg, Put(cfg, disk, s, s.writes[0]))
  {
    SessionStatusIsGood(cfg, s);
  }

  lemma RecordKeepsOk(cfg: Config, r: Records, ran: set<Id>, id: Id, attempt: nat)
    requires RecordsOk(cfg, r, ran) && id in Ids(cfg.instances) && id !in r.completed && id in ran
    ensures RecordsOk(cfg, Record(r, cfg.instances, Row(id, attempt), Pred(id, attempt)), ran)
  {
  }

  lemma HandlePlaces(cfg: Config, s: Session, id: Id)
    requires PlacesOk(cfg, s) && id in s.results && (s.results[id].Succeeded? ==> s.results[id].row.id == id)
    ensures PlacesOk(cfg, HandleResult(cfg, s, id))
  {
    var t := HandleResult(cfg, s, id);
    assert Tally(s, id) == One(id in Ids(cfg.instances)) <= 1;
    hide Tally, RightlyActive;
    forall x ensures Tally(t, x) == Tally(s, x) && RightlyActive(t, x) {
      HandleTally(cfg, s, id, x);
    }
  }

  /** What handling a result comes to, as the batch sees it. */
  lemma HandledPlaces(cfg: Config, s: Session, id: Id)
    requires PlacesOk(cfg, s) && id in s.results && (s.results[id].Succeeded? ==> s.results[id].row.id == id)
    ensures var t := HandleResult(cfg, s, id);
            && PlacesOk(cfg, t)
            && t.active + t.records.completed + t.failed <= Ids(cfg.instances)
            && t.active !! t.records.completed !! t.failed
            && t.active == s.active - {id}
            && (s.results[id].Failed? ==> t.failed == s.failed + {id} && t.records == s.records)
            && (s.results[id].Succeeded? ==>
                  && t.failed == s.failed - {id}
                  && t.records == Record(s.records, cfg.instances, s.results[id].row, s.results[id].pred))
  {
    HandlePlaces(cfg, s, id);
    hide PlacesOk;
    PlacesAreDisjoint(cfg, HandleResult(cfg, s, id));
  }

  lemma HandleTally(cfg: Config, s: Session, id: Id, x: Id)
    requires id in s.results && Tally(s, id) <= 1 && (s.results[id].Succeeded? ==> s.results[id].row.id == id)
    requires RightlyActive(s, x)
    ensures Tally(HandleResult(cfg, s, id), x) == Tally(s, x) && RightlyActive(HandleResult(cfg, s, id), x)
  {
  }

  lemma HandleWrites(cfg: Config, s: Session, disk: Disk, id: Id)
    requires RecordsOk(cfg, s.records, disk.runFiles.Keys) && WritesOk(s, disk) && s.writes == []
    requires id in s.results && id !in s.records.completed
    requires s.results[id].Succeeded? ==> s.results[id].row.id == id
    ensures WritesOk(HandleResult(cfg, s, id), disk)
  {
    var t := HandleResult(cfg, s, id);
    assert t.writes == [WriteStatus] || t.writes == [WritePreds, WriteSummary, WriteStatus];
    assert t.writes[1..] == [] || t.writes[1..] == [WriteSummary, WriteStatus];
  }

  lemma HandleKeepsOk(cfg: Config, s: Session, disk: Disk, id: Id)
    requires SessionOk(cfg, s, disk)
    requires id in s.results && s.writes == []
    ensures SessionOk(cfg, HandleResult(cfg, s, id), disk)
  {
    assert id in Ids(cfg.instances) && id !in s.records.completed;
    HandlePlaces(cfg, s, id);
    HandleWrites(cfg, s, disk, id);
    if s.results[id].Succeeded? {
      RecordKeepsOk(cfg, s.records, disk.runFiles.Keys, id, s.results[id].row.attempt);
    }
  }

  function Started(s: Session, id: Id): Session {
    s.(waiting := s.waiting - {id}, executing := s.executing[id := Running], active := s.active + {id})
  }

  lemma StartPlaces(cfg: Config, s: Session, id: Id)
    requires PlacesOk(cfg, s) && id in s.waiting && |s.executing| < cfg.maxConcurrency
    ensures PlacesOk(cfg, Started(s, id))
  {
    var t := Started(s, id);
    assert Tally(s, id) == One(id in Ids(cfg.instances)) <= 1;
    hide Tally, RightlyActive;
    forall x ensures Tally(t, x) == Tally(s, x) && RightlyActive(t, x) {
      StartTally(s, id, x);
    }
    OneMorePhase(s.executing, id, Running);
  }

  lemma StartTally(s: Session, id: Id, x: Id)
    requires id in s.waiting && Tally(s, id) <= 1 && RightlyActive(s, x)
    ensures var t := Started(s, id);
            Tally(t, x) == Tally(s, x) && RightlyActive(t, x)
  {
  }

  lemma OneMorePhase(executing: map<Id, Phase>, id: Id, phase: Phase)
    ensures |executing[id := phase]| <= |executing| + 1
    ensures |executing - {id}| <= |executing|
    ensures id in executing ==> |executing[id := phase]| == |executing|
  {
    assert executing[id := phase].Keys == executing.Keys + {id};
    assert (executing - {id}).Keys == executing.Keys - {id};
    assert |executing.Keys| == |executing|;
  }

  lemma StatusFileDoesNotMatter(cfg: Config, s: Session, disk: Disk, status: Status)
    requires DiskOk(cfg, disk) && SessionOk(cfg, s, disk)
    ensures DiskOk(cfg, disk.(status := Json(status))) && SessionOk(cfg, s, disk.(status := Json(status)))
  {
  }

  lemma StartKeepsOk(cfg: Config, s: Session, disk: Disk, id: Id)
    requires ValidConfig(cfg) && DiskOk(cfg, disk) && SessionOk(cfg, s, disk)
    requires id in s.waiting && |s.executing| < cfg.maxConcurrency
    ensures var t := Started(s, id);
            WorldOk(cfg, World(disk.(status := Json(SessionStatus(cfg, t))), Some(t), false))
  {
    var t := Started(s, id);
    StartPlaces(cfg, s, id);
    assert SessionOk(cfg, t, disk);
    StatusFileDoesNotMatter(cfg, t, disk, SessionStatus(cfg, t));
    SessionStatusIsGood(cfg, t);
  }

  lemma MoreRunFiles(cfg: Config, r: Records, rows: seq<Row>, preds: map<Id, Pred>, ran: set<Id>, more: set<Id>)
    requires RecordsOk(cfg, r, ran) && RowsOk(cfg, rows, preds, ran) && ran <= more
    ensures RecordsOk(cfg, r, more) && RowsOk(cfg, rows, preds, more)
  {
  }

  lemma PhaseResults(executing: map<Id, Phase>, results: map<Id, Result>, ran: set<Id>, id: Id, phase: Phase)
    requires ResultsOk(executing, results, ran) && id in executing
    ensures ResultsOk(executing[id := phase], results, ran + {id})
  {
  }

  lemma PhasePlaces(cfg: Config, s: Session, id: Id, phase: Phase)
    requires PlacesOk(cfg, s) && id in s.executing
    ensures PlacesOk(cfg, s.(executing := s.executing[id := phase]))
  {
    var t := s.(executing := s.executing[id := phase]);
    OneMorePhase(s.executing, id, phase);
    forall x ensures Tally(t, x) == Tally(s, x) && RightlyActive(t, x) {
      assert RightlyActive(s, x);
    }
  }

  /** A worker only touches the predictions file of its own instance, which no row mentions unread. */
  lemma RunFileKeepsOk(cfg: Config, s: Session, disk: Disk, id: Id, file: File<Pred>, phase: Phase)
    requires DiskOk(cfg, disk) && SessionOk(cfg, s, disk) && id in s.executing
    ensures var d := disk.(runFiles := disk.runFiles[id := file]);
            DiskOk(cfg, d) && SessionOk(cfg, s.(executing := s.executing[id := phase]), d)
  {
    PhasePlaces(cfg, s, id, phase);
    var more := disk.runFiles[id := file].Keys;
    assert more == disk.runFiles.Keys + {id};
    MoreRunFiles(cfg, s.records, StoredRows(disk), StoredPreds(disk), disk.runFiles.Keys, more);
    PhaseResults(s.executing, s.results, disk.runFiles.Keys, id, phase);
    hide PlacesOk, RowsOk, RecordsOk, ResultsOk;
  }

  lemma FinishPlaces(cfg: Config, s: Session, id: Id, result: Result)
    requires PlacesOk(cfg, s) && id in s.executing
    ensures PlacesOk(cfg, s.(executing := s.executing - {id}, results := s.results[id := result]))
  {
    var t := s.(executing := s.executing - {id}, results := s.results[id := result]);
    assert Tally(s, id) == One(id in Ids(cfg.instances)) <= 1;
    hide Tally, RightlyActive;
    forall x ensures Tally(t, x) == Tally(s, x) && RightlyActive(t, x) {
      FinishTally(s, id, result, x);
    }
    OneMorePhase(s.executing, id, Running);
  }

  lemma FinishTally(s: Session, id: Id, result: Result, x: Id)
    requires id in s.executing && Tally(s, id) <= 1 && RightlyActive(s, x)
    ensures var t := s.(executing := s.executing - {id}, results := s.results[id := result]);
            Tally(t, x) == Tally(s, x) && RightlyActive(t, x)
  {
  }

  lemma FinishKeepsOk(cfg: Config, s: Session, disk: Disk, id: Id, result: Result)
    requires SessionOk(cfg, s, disk) && id in s.executing
    requires result.Succeeded? ==>
               s.executing[id].Written? && result.row.id == id && result.pred == Pred(id, result.row.attempt)
    ensures SessionOk(cfg, s.(executing := s.executing - {id}, results := s.results[id := result]), disk)
  {
    FinishPlaces(cfg, s, id, result);
  }

  lemma WorkerKeepsOk(cfg: Config, w: World, a: Action)
    requires WorldOk(cfg, w) && Enabled(cfg, w, a)
    requires a.BeginRunFile? || a.EndRunFile? || a.Succeed? || a.Fail?
    ensures WorldOk(cfg, Step(cfg, w, a))
  {
    var s := w.process.value;
    match a
    case BeginRunFile(id) => RunFileKeepsOk(cfg, s, w.disk, id, Corrupt, Running);
    case EndRunFile(id, n) => RunFileKeepsOk(cfg, s, w.disk, id, Json(Pred(id, n)), Written(n));
    case Succeed(id) =>
      var n := s.executing[id].attempt;
      FinishKeepsOk(cfg, s, w.disk, id, Succeeded(Row(id, n), Pred(id, n)));
    case Fail(id) => FinishKeepsOk(cfg, s, w.disk, id, Failed);
  }

  lemma MainKeepsOk(cfg: Config, w: World, a: Action)
    requires ValidConfig(cfg) && WorldOk(cfg, w) && Enabled(cfg, w, a)
    requires a.Write? || a.Handle? || a.Start?
    ensures WorldOk(cfg, Step(cfg, w, a))
  {
    match a
    case Write => WriteKeepsOk(cfg, w.process.value, w.disk);
    case Handle(id) => HandleKeepsOk(cfg, w.process.value, w.disk, id);
    case Start(id) => StartKeepsOk(cfg, w.process.value, w.disk, id);
  }

  lemma StepKeepsOk(cfg: Config, w: World, a: Action)
    requires ValidConfig(cfg) && WorldOk(cfg, w)
    ensures WorldOk(cfg, Step(cfg, w, a))
  {
    if Enabled(cfg, w, a) {
      match a
      case Launch => LaunchKeepsOk(cfg, w.disk);
      case Write => MainKeepsOk(cfg, w, a);
      case Handle(_) => MainKeepsOk(cfg, w, a);
      case Start(_) => MainKeepsOk(cfg, w, a);
      case Exit =>
      case Crash =>
      case _ => WorkerKeepsOk(cfg, w, a);
    }
  }

  lemma {:induction false} RunsAreOk(cfg: Config, run: seq<Action>)
    requires ValidConfig(cfg)
    ensures WorldOk(cfg, After(cfg, run))
  {
    if run != [] {
      RunsAreOk(cfg, run[..|run| - 1]);
      StepKeepsOk(cfg, After(cfg, run[..|run| - 1]), run[|run| - 1]);
    } else {
      OrderedOfNothing(cfg.instances);
    }
  }

  // ---------------------------------------------------------------- main results

  /** At every status write, whatever has happened before. */
  lemma StatusIsAlwaysGood(cfg: Config, run: seq<Action>)
    requires ValidConfig(cfg)
    ensures var disk := After(cfg, run).disk; disk.status.Json? ==> GoodStatus(cfg, disk.status.content)
  {
    RunsAreOk(cfg, run);
  }

  /** A row on disk always has its prediction in the aggregate file, from the same execution. */
  lemma RowsHavePredictions(cfg: Config, run: seq<Action>, r: Row)
    requires ValidConfig(cfg) && r in StoredRows(After(cfg, run).disk)
    ensures var preds := StoredPreds(After(cfg, run).disk); r.id in preds && preds[r.id] == Pred(r.id, r.attempt)
  {
    RunsAreOk(cfg, run);
  }

  /** Everything recorded in d is recorded in e. */
  ghost predicate Keeps(d: Disk, e: Disk) {
    && StoredPreds(d).Keys <= StoredPreds(e).Keys
    && forall r | r in StoredRows(d) :: r in StoredRows(e)
  }

  lemma SummaryCoversDisk(cfg: Config, s: Session, disk: Disk)
    requires RecordsOk(cfg, s.records, disk.runFiles.Keys) && WritesOk(s, disk)
    ensures forall r | r in StoredRows(disk) :: r in s.records.summaries
  {
    OrderedRows(cfg.instances, s.records.summaryById);
    forall r | r in StoredRows(disk) ensures r in s.records.summaries {
      assert r.id in Ids(cfg.instances);
    }
  }

  lemma PutKeepsRecords(cfg: Config, s: Session, disk: Disk, w: Inference.Write)
    requires RecordsOk(cfg, s.records, disk.runFiles.Keys) && WritesOk(s, disk)
    ensures Keeps(disk, Put(cfg, disk, s, w))
  {
    SummaryCoversDisk(cfg, s, disk);
  }

  lemma StepKeepsRecords(cfg: Config, w: World, a: Action)
    requires WorldOk(cfg, w)
    ensures Keeps(w.disk, Step(cfg, w, a).disk)
  {
    if Enabled(cfg, w, a) && a.Write? {
      PutKeepsRecords(cfg, w.process.value, w.disk, w.process.value.writes[0]);
    }
  }

  lemma AfterOneMore(cfg: Config, run: seq<Action>, a: Action)
    ensures After(cfg, run + [a]) == Step(cfg, After(cfg, run), a)
  {
    assert (run + [a])[..|run + [a]| - 1] == run;
  }

  lemma StepPersists(cfg: Config, run: seq<Action>, a: Action)
    requires ValidConfig(cfg)
    ensures Keeps(After(cfg, run).disk, After(cfg, run + [a]).disk)
  {
    RunsAreOk(cfg, run);
    AfterOneMore(cfg, run, a);
    StepKeepsRecords(cfg, After(cfg, run), a);
  }

  lemma KeepsIsTransitive(c: Disk, d: Disk, e: Disk)
    requires Keeps(c, d) && Keeps(d, e)
    ensures Keeps(c, e)
  {
  }

  /** Nothing recorded is ever lost again: no prediction and no row, through any crash and restart. */
  lemma {:induction false} RecordsPersist(cfg: Config, run: seq<Action>, tail: seq<Action>)
    requires ValidConfig(cfg)
    ensures Keeps(After(cfg, run).disk, After(cfg, run + tail).disk)
  {
    if tail == [] {
      assert run + tail == run;
    } else {
      var init, a := tail[..|tail| - 1], tail[|tail| - 1];
      RecordsPersist(cfg, run, init);
      StepPersists(cfg, run + init, a);
      assert run + init + [a] == run + tail;
      KeepsIsTransitive(After(cfg, run).disk, After(cfg, run + init).disk, After(cfg, run + tail).disk);
    }
  }

  /** An instance with a row on disk is never executed again. */
  lemma RecordedIsNeverRerun(cfg: Config, run: seq<Action>, tail: seq<Action>, r: Row)
    requires ValidConfig(cfg) && r in StoredRows(After(cfg, run).disk)
    ensures var w := After(cfg, run + tail);
            w.process.Some? ==> r.id in w.process.value.records.completed && r.id !in w.process.value.executing
  {
    RecordsPersist(cfg, run, tail);
    RunsAreOk(cfg, run + tail);
    var w := After(cfg, run + tail);
    if w.process.Some? {
      var s := w.process.value;
      assert r.id in s.records.summaryById;
      assert Tally(s, r.id) == One(r.id in Ids(cfg.instances));
    }
  }

  lemma OverIsComplete(cfg: Config, s: Session, disk: Disk)
    requires DiskOk(cfg, disk) && SessionOk(cfg, s, disk) && Over(s) && s.failed == {}
    ensures Complete(cfg, disk)
  {
    AllRecorded(cfg, s);
    hide PlacesOk, ResultsOk, DiskOk;
    RecordsAreComplete(cfg, s.records, disk);
  }

  lemma RecordsAreComplete(cfg: Config, r: Records, disk: Disk)
    requires RecordsOk(cfg, r, disk.runFiles.Keys)
    requires forall i | 0 <= i < |cfg.instances| :: cfg.instances[i] in r.completed
    requires StoredPreds(disk) == r.allPreds && StoredRows(disk) == r.summaries
    ensures Complete(cfg, disk)
  {
    OrderedIsTotal(cfg.instances, r.summaryById);
    assert forall id | id in Ids(cfg.instances) :: id in r.summaryById;
  }

  lemma AllRecorded(cfg: Config, s: Session)
    requires PlacesOk(cfg, s) && Over(s) && s.failed == {}
    ensures forall i | 0 <= i < |cfg.instances| :: cfg.instances[i] in s.records.completed
  {
    forall i | 0 <= i < |cfg.instances| ensures cfg.instances[i] in s.records.completed {
      assert Tally(s, cfg.instances[i]) == One(cfg.instances[i] in Ids(cfg.instances)) == 1;
    }
  }

  /**
   Main result: a run that started from an empty directory and was resumed after every crash and failure leaves,
   as soon as one process ends without a failed instance, one row per instance in instance order and one
   prediction per instance.
   */
  lemma {:induction false} CleanEndIsComplete(cfg: Config, run: seq<Action>)
    requires ValidConfig(cfg) && After(cfg, run).clean
    ensures After(cfg, run).process.None? && Complete(cfg, After(cfg, run).disk)
  {
    if run != [] {
      var before, a := run[..|run| - 1], run[|run| - 1];
      var w := After(cfg, before);
      RunsAreOk(cfg, before);
      if Enabled(cfg, w, a) && a.Exit? {
        OverIsComplete(cfg, w.process.value, w.disk);
      } else {
        CleanKeepsStill(cfg, w, a);
        CleanEndIsComplete(cfg, before);
      }
    }
  }

  lemma CleanKeepsStill(cfg: Config, w: World, a: Action)
    requires Step(cfg, w, a).clean && !(Enabled(cfg, w, a) && a.Exit?)
    ensures w.clean && (w.process.None? ==> Step(cfg, w, a) == w)
  {
  }

  // ---------------------------------------------------------------- the status file is up to date

  /** The status is the last file of every batch of writes; between batches it is that of the session. */
  ghost predicate StatusUpToDate(cfg: Config, s: Session, disk: Disk) {
    if s.writes == [] then disk.status == Json(SessionStatus(cfg, s))
    else s.writes[|s.writes| - 1] == WriteStatus && WriteStatus !in s.writes[..|s.writes| - 1]
  }

  /** No row is recorded, on disk or in memory, before there is a status file. */
  ghost predicate StatusComesFirst(w: World) {
    StoredRows(w.disk) != [] || (w.process.Some? && w.process.value.records.summaries != []) ==> w.disk.status.Json?
  }

  ghost predicate StatusOk(cfg: Config, w: World) {
    && (w.process.Some? ==> StatusUpToDate(cfg, w.process.value, w.disk))
    && StatusComesFirst(w)
  }

  lemma {:induction false} LoadedSummaries(r: Records, rows: seq<Row>, runFiles: map<Id, File<Pred>>)
    ensures LoadRows(r, rows, runFiles).summaries == r.summaries
  {
    if rows != [] {
      LoadedSummaries(r, rows[..|rows| - 1], runFiles);
    }
  }

  lemma LaunchKeepsStatus(cfg: Config, w: World)
    requires StatusOk(cfg, w) && w.process.None?
    ensures StatusOk(cfg, Step(cfg, w, Launch))
  {
    LoadedSummaries(Records(StoredPreds(w.disk), StoredRows(w.disk), map[], {}), StoredRows(w.disk), w.disk.runFiles);
    hide LoadRows;
  }

  lemma WriteKeepsStatusOk(cfg: Config, w: World)
    requires StatusOk(cfg, w) && Enabled(cfg, w, Action.Write)
    ensures StatusOk(cfg, Step(cfg, w, Action.Write))
  {
    hide StatusOf;
    var s := w.process.value;
    var rest := s.writes[1..];
    if rest != [] {
      assert rest[..|rest| - 1] == s.writes[..|s.writes| - 1][1..];
      assert s.writes[0] == s.writes[..|s.writes| - 1][0];
    }
  }

  lemma OtherKeepsStatus(cfg: Config, w: World, a: Action)
    requires StatusOk(cfg, w) && !a.Launch? && !a.Write?
    ensures StatusOk(cfg, Step(cfg, w, a))
  {
    hide StatusOf, Record;
  }

  lemma {:induction false} StatusIsUpToDate(cfg: Config, run: seq<Action>)
    ensures StatusOk(cfg, After(cfg, run))
  {
    hide StatusOk, Step;
    if run == [] {
      NoStatusYet(cfg);
    } else {
      var w, a := After(cfg, run[..|run| - 1]), run[|run| - 1];
      StatusIsUpToDate(cfg, run[..|run| - 1]);
      if !Enabled(cfg, w, a) {
        DisabledDoesNothing(cfg, w, a);
      } else if a.Launch? {
        LaunchKeepsStatus(cfg, w);
      } else if a.Write? {
        WriteKeepsStatusOk(cfg, w);
      } else {
        OtherKeepsStatus(cfg, w, a);
      }
    }
  }

  lemma NoStatusYet(cfg: Config)
    ensures StatusOk(cfg, FRESH)
  {
  }

  lemma DisabledDoesNothing(cfg: Config, w: World, a: Action)
    requires !Enabled(cfg, w, a)
    ensures Step(cfg, w, a) == w
  {
  }

  /** After a clean end the status file tells the number of instances, and that all are done. */
  lemma {:induction false} CleanEndIsOnFile(cfg: Config, run: seq<Action>)
    requires ValidConfig(cfg) && After(cfg, run).clean
    ensures var status := After(cfg, run).disk.status;
            status.Json? && status.content.total == |cfg.instances| && status.content.done
  {
    hide Step, WorldOk, StatusOk;
    if run != [] {
      var before, a := run[..|run| - 1], run[|run| - 1];
      var w := After(cfg, before);
      if Enabled(cfg, w, a) && a.Exit? {
        RunsAreOk(cfg, before);
        StatusIsUpToDate(cfg, before);
        ExitIsOnFile(cfg, w);
      } else {
        CleanKeepsStill(cfg, w, a);
        CleanEndIsComplete(cfg, before);
        CleanEndIsOnFile(cfg, before);
      }
    }
  }

  lemma ExitIsOnFile(cfg: Config, w: World)
    requires ValidConfig(cfg) && WorldOk(cfg, w) && StatusOk(cfg, w)
    requires Enabled(cfg, w, Exit) && Step(cfg, w, Exit).clean
    ensures var status := Step(cfg, w, Exit).disk.status;
            status.Json? && status.content.total == |cfg.instances| && status.content.done
  {
    OverIsDone(cfg, w.process.value);
  }

  lemma OverIsDone(cfg: Config, s: Session)
    requires ValidConfig(cfg) && PlacesOk(cfg, s) && Over(s) && s.failed == {}
    ensures var st := SessionStatus(cfg, s); st.total == |cfg.instances| && st.done
  {
    AllRecorded(cfg, s);
    SessionStatusIsGood(cfg, s);
    forall i | 0 <= i < |cfg.instances| ensures cfg.instances[i] in SessionStatus(cfg, s).completed {
      OrderedIdsAre(cfg.instances, s.records.completed);
    }
  }

  lemma RowsAreKnown(cfg: Config, disk: Disk)
    requires DiskOk(cfg, disk)
    ensures forall r | r in StoredRows(disk) :: r.id in Ids(cfg.instances)
  {
    ByIdIndexes(StoredRows(disk));
  }

  /** The status on disk shows three disjoint sets of instances: those of the process that wrote it. */
  ghost predicate ShowsSome(cfg: Config, disk: Disk) {
    disk.status.Json? ==> exists active, completed, failed ::
      && active + completed + failed <= Ids(cfg.instances) && active !! completed !! failed
      && StatusShows(cfg, disk.status.content, active, completed, failed)
  }

  lemma SessionStatusShows(cfg: Config, s: Session)
    requires ValidConfig(cfg) && PlacesOk(cfg, s)
    ensures StatusShows(cfg, SessionStatus(cfg, s), s.active, s.records.completed, s.failed)
    ensures s.active + s.records.completed + s.failed <= Ids(cfg.instances)
    ensures s.active !! s.records.completed !! s.failed
  {
    PlacesAreDisjoint(cfg, s);
    StatusShowsSets(cfg, s.active, s.records.completed, s.failed);
  }

  lemma ShownByStatus(cfg: Config, s: Session, disk: Disk)
    requires ValidConfig(cfg) && PlacesOk(cfg, s)
    ensures ShowsSome(cfg, disk.(status := Json(SessionStatus(cfg, s))))
  {
    hide StatusShows, PlacesOk, StatusOf;
    SessionStatusShows(cfg, s);
  }

  lemma WriteKeepsShown(cfg: Config, w: World)
    requires ValidConfig(cfg) && w.process.Some? && PlacesOk(cfg, w.process.value) && ShowsSome(cfg, w.disk)
    ensures ShowsSome(cfg, Step(cfg, w, Action.Write).disk)
  {
    hide StatusShows, PlacesOk, SessionStatus;
    ShownByStatus(cfg, w.process.value, w.disk);
  }

  lemma StartKeepsShown(cfg: Config, w: World, id: Id)
    requires ValidConfig(cfg) && w.process.Some? && PlacesOk(cfg, w.process.value) && ShowsSome(cfg, w.disk)
    ensures ShowsSome(cfg, Step(cfg, w, Start(id)).disk)
  {
    if Enabled(cfg, w, Start(id)) {
      StartPlaces(cfg, w.process.value, id);
      hide StatusShows, PlacesOk, SessionStatus;
      ShownByStatus(cfg, Started(w.process.value, id), w.disk);
    }
  }

  lemma StepKeepsShown(cfg: Config, w: World, a: Action)
    requires ValidConfig(cfg) && WorldOk(cfg, w) && ShowsSome(cfg, w.disk)
    ensures ShowsSome(cfg, Step(cfg, w, a).disk)
  {
    if w.process.Some? && a.Write? {
      WriteKeepsShown(cfg, w);
    } else if w.process.Some? && a.Start? {
      StartKeepsShown(cfg, w, a.id);
    } else {
      hide ShowsSome, WorldOk;
      StatusStays(cfg, w, a);
      SameStatus(cfg, w.disk, Step(cfg, w, a).disk);
    }
  }

  lemma StatusStays(cfg: Config, w: World, a: Action)
    requires w.process.None? || !(a.Write? || a.Start?)
    ensures Step(cfg, w, a).disk.status == w.disk.status
  {
  }

  lemma SameStatus(cfg: Config, d: Disk, e: Disk)
    requires d.status == e.status && ShowsSome(cfg, d)
    ensures ShowsSome(cfg, e)
  {
  }

  /**
   In every run the status on disk shows, list by list and in instance order, disjoint sets of instances; between
   the writes of a process these are its own.
   */
  lemma {:induction false} StatusShowsSession(cfg: Config, run: seq<Action>)
    requires ValidConfig(cfg)
    ensures var w := After(cfg, run);
            && ShowsSome(cfg, w.disk)
            && (w.process.Some? && w.process.value.writes == [] ==>
                  var s := w.process.value;
                  && w.disk.status.Json?
                  && StatusShows(cfg, w.disk.status.content, s.active, s.records.completed, s.failed))
  {
    hide StatusShows, ShowsSome, WorldOk;
    if run == [] {
      NothingShown(cfg);
    } else {
      RunsAreOk(cfg, run[..|run| - 1]);
      StatusShowsSession(cfg, run[..|run| - 1]);
      StepKeepsShown(cfg, After(cfg, run[..|run| - 1]), run[|run| - 1]);
    }
    StatusIsUpToDate(cfg, run);
    RunsAreOk(cfg, run);
    hide Step;
    SessionShown(cfg, After(cfg, run));
  }

  lemma NothingShown(cfg: Config)
    ensures ShowsSome(cfg, FRESH.disk)
  {
  }

  lemma SessionShown(cfg: Config, w: World)
    requires ValidConfig(cfg) && WorldOk(cfg, w) && StatusOk(cfg, w)
    ensures w.process.Some? && w.process.value.writes == [] ==>
              var s := w.process.value;
              w.disk.status.Json? && StatusShows(cfg, w.disk.status.content, s.active, s.records.completed, s.failed)
  {
    if w.process.Some? && w.process.value.writes == [] {
      SessionStatusShows(cfg, w.process.value);
    }
  }

  /** Where there are rows, there is a status file, then and ever after. */
  lemma RowsHaveStatus(cfg: Config, run: seq<Action>, tail: seq<Action>)
    requires ValidConfig(cfg) && StoredRows(After(cfg, run).disk) != []
    ensures After(cfg, run + tail).disk.status.Json?
  {
    RecordsPersist(cfg, run, tail);
    StatusIsUpToDate(cfg, run + tail);
    assert StoredRows(After(cfg, run).disk)[0] in StoredRows(After(cfg, run + tail).disk);
  }

  /** The contents of the two files when an execution's results are given by rowOf and predOf. */
  function Contents<R, P>(disk: Disk, rowOf: Row -> R, predOf: Pred -> P): (seq<R>, map<Id, P>) {
    var rows, preds := StoredRows(disk), StoredPreds(disk);
    (seq(|rows|, i requires 0 <= i < |rows| => rowOf(rows[i])), map id | id in preds :: predOf(preds[id]))
  }

  /** Results of an instance do not depend on the execution that produced them. */
  ghost predicate Deterministic<R(!new), P(!new)>(rowOf: Row -> R, predOf: Pred -> P) {
    && (forall r: Row :: rowOf(r) == rowOf(Row(r.id, 0)))
    && (forall p: Pred :: predOf(p) == predOf(Pred(p.id, 0)))
  }

  /**
   With such results every history that comes to a clean end leaves the same contents: those of one
   uninterrupted run over the instances.
   */
  lemma EveryHistorySameOutcome<R(!new), P(!new)>(cfg: Config, run: seq<Action>, rowOf: Row -> R, predOf: Pred -> P)
    requires ValidConfig(cfg) && After(cfg, run).clean && Deterministic(rowOf, predOf)
    ensures var (rows, preds) := Contents(After(cfg, run).disk, rowOf, predOf);
            && |rows| == |cfg.instances| && preds.Keys == Ids(cfg.instances)
            && (forall i | 0 <= i < |rows| :: rows[i] == rowOf(Row(cfg.instances[i], 0)))
            && (forall id | id in preds :: preds[id] == predOf(Pred(id, 0)))
  {
    CleanEndIsComplete(cfg, run);
    var disk := After(cfg, run).disk;
    forall id | id in StoredPreds(disk) ensures predOf(StoredPreds(disk)[id]) == predOf(Pred(id, 0)) {
      var i :| 0 <= i < |cfg.instances| && cfg.instances[i] == id;
      assert StoredPreds(disk)[id] == Pred(id, StoredRows(disk)[i].attempt);
    }
  }

  // ---------------------------------------------------------------- what is bounded and what is not

  /** The thread pool bounds the instances that execute. */
  lemma ExecutingIsBounded(cfg: Config, run: seq<Action>)
    requires ValidConfig(cfg)
    ensures var w := After(cfg, run); w.process.Some? ==> |w.process.value.executing| <= cfg.maxConcurrency
  {
    RunsAreOk(cfg, run);
  }

  /** The active count of the status on disk is above the limit. */
  ghost predicate Exceeds(cfg: Config, run: seq<Action>) {
    var disk := After(cfg, run).disk;
    disk.status.Json? && disk.status.content.activeCount > cfg.maxConcurrency
  }

  /** The first n instances have started and failed, and none of them has been handled. */
  ghost predicate Unhandled(cfg: Config, s: Session, n: nat)
    requires n <= |cfg.instances|
  {
    && s.active == Ids(cfg.instances[..n]) && s.waiting == Ids(cfg.instances) - s.active
    && s.executing == map[] && s.writes == []
  }

  lemma NoneStarted(cfg: Config)
    ensures var w := After(cfg, [Launch, Action.Write]);
            w.process.Some? && Unhandled(cfg, w.process.value, 0)
  {
    AfterOneMore(cfg, [], Launch);
    AfterOneMore(cfg, [Launch], Action.Write);
    assert [] + [Launch] == [Launch] && [Launch] + [Action.Write] == [Launch, Action.Write];
    assert After(cfg, []) == FRESH;
    assert LaunchSession(cfg, FRESH.disk).writes == [WriteStatus];
  }

  lemma IdsOneMore(cfg: Config, n: nat)
    requires ValidConfig(cfg) && n < |cfg.instances|
    ensures Ids(cfg.instances[..n + 1]) == Ids(cfg.instances[..n]) + {cfg.instances[n]}
    ensures cfg.instances[n] in Ids(cfg.instances) - Ids(cfg.instances[..n])
    ensures |Ids(cfg.instances[..n + 1])| == n + 1
  {
    var ids := cfg.instances;
    assert forall i | 0 <= i < n :: ids[..n + 1][i] == ids[..n][i] == ids[i];
    assert ids[..n + 1][n] == ids[n];
    IdsCount(ids[..n + 1]);
  }

  /** The next instance starts, and its status is written, before any failed one is handled. */
  lemma StartNext(cfg: Config, run: seq<Action>, n: nat)
    requires ValidConfig(cfg) && n < |cfg.instances|
    requires var w := After(cfg, run); w.process.Some? && Unhandled(cfg, w.process.value, n)
    ensures var w := After(cfg, run + [Start(cfg.instances[n])]);
            && w.disk.status.Json? && w.disk.status.content.activeCount == n + 1
            && w.process.Some? && cfg.instances[n] in w.process.value.executing
            && Unhandled(cfg, w.process.value.(executing := map[]), n + 1)
            && w.process.value.executing.Keys == {cfg.instances[n]}
  {
    IdsOneMore(cfg, n);
    AfterOneMore(cfg, run, Start(cfg.instances[n]));
  }

  lemma {:induction false} ManyUnhandled(cfg: Config, n: nat) returns (run: seq<Action>)
    requires ValidConfig(cfg) && n <= |cfg.instances|
    ensures var w := After(cfg, run); w.process.Some? && Unhandled(cfg, w.process.value, n)
  {
    if n == 0 {
      run := [Launch, Action.Write];
      NoneStarted(cfg);
    } else {
      run := ManyUnhandled(cfg, n - 1);
      run := FailNext(cfg, run, n - 1);
    }
  }

  lemma FailNext(cfg: Config, run: seq<Action>, n: nat) returns (longer: seq<Action>)
    requires ValidConfig(cfg) && n < |cfg.instances|
    requires var w := After(cfg, run); w.process.Some? && Unhandled(cfg, w.process.value, n)
    ensures var w := After(cfg, longer); w.process.Some? && Unhandled(cfg, w.process.value, n + 1)
  {
    var id := cfg.instances[n];
    StartNext(cfg, run, n);
    longer := run + [Start(id)];
    AfterOneMore(cfg, longer, Fail(id));
    var w := After(cfg, longer);
    hide After;
    FailAlone(cfg, w, id);
    longer := longer + [Fail(id)];
  }

  lemma FailAlone(cfg: Config, w: World, id: Id)
    requires w.process.Some? && w.process.value.executing.Keys == {id}
    ensures var s := w.process.value;
            Step(cfg, w, Fail(id)).process
            == Some(s.(executing := map[], results := s.results[id := Result.Failed]))
  {
    assert w.process.value.executing - {id} == map[];
  }

  /**
   It does not bound the active count: a pool thread starts the next instance before the last one is handled.  The
   count can be above the limit exactly if there are more instances than the limit.
   */
  lemma ActiveExceedsExactly(cfg: Config)
    requires ValidConfig(cfg)
    ensures (exists run :: Exceeds(cfg, run)) <==> |cfg.instances| > cfg.maxConcurrency
  {
    if |cfg.instances| > cfg.maxConcurrency {
      var run := ManyUnhandled(cfg, cfg.maxConcurrency);
      StartNext(cfg, run, cfg.maxConcurrency);
      assert Exceeds(cfg, run + [Start(cfg.instances[cfg.maxConcurrency])]);
    }
    forall run | Exceeds(cfg, run) ensures |cfg.instances| > cfg.maxConcurrency {
      StatusIsAlwaysGood(cfg, run);
    }
  }

  // ---------------------------------------------------------------- a clean end is always possible

  /** A process that runs has nothing left to write and no instance started or failed. */
  ghost predicate Quiet(w: World) {
    w.process.Some? &&
    var s := w.process.value;
    s.writes == [] && s.executing == map[] && s.results == map[] && s.failed == {}
  }

  lemma {:induction false} WritesGetDone(cfg: Config, run: seq<Action>) returns (longer: seq<Action>)
    requires After(cfg, run).process.Some?
    ensures run <= longer
    ensures var w := After(cfg, longer);
            w.process == Some(After(cfg, run).process.value.(writes := []))
    decreases |After(cfg, run).process.value.writes|
  {
    longer := run;
    if After(cfg, run).process.value.writes != [] {
      AfterOneMore(cfg, run, Action.Write);
      longer := WritesGetDone(cfg, run + [Action.Write]);
    }
  }

  lemma Relaunched(cfg: Config, run: seq<Action>) returns (longer: seq<Action>)
    ensures run <= longer && Quiet(After(cfg, longer))
  {
    AfterOneMore(cfg, run, Crash);
    AfterOneMore(cfg, run + [Crash], Launch);
    longer := WritesGetDone(cfg, run + [Crash] + [Launch]);
  }

  lemma OneSucceeds(cfg: Config, run: seq<Action>, id: Id) returns (longer: seq<Action>)
    requires ValidConfig(cfg) && Quiet(After(cfg, run)) && id in After(cfg, run).process.value.waiting
    ensures run <= longer && Quiet(After(cfg, longer))
    ensures After(cfg, longer).process.value.waiting == After(cfg, run).process.value.waiting - {id}
  {
    hide Put;
    AfterOneMore(cfg, run, Start(id));
    longer := run + [Start(id)];
    AfterOneMore(cfg, longer, EndRunFile(id, 0));
    longer := longer + [EndRunFile(id, 0)];
    AfterOneMore(cfg, longer, Succeed(id));
    longer := longer + [Succeed(id)];
    AfterOneMore(cfg, longer, Handle(id));
    longer := WritesGetDone(cfg, longer + [Handle(id)]);
  }

  lemma {:induction false} AllSucceed(cfg: Config, run: seq<Action>) returns (longer: seq<Action>)
    requires ValidConfig(cfg) && Quiet(After(cfg, run))
    ensures run <= longer && After(cfg, longer).clean
    decreases |After(cfg, run).process.value.waiting|
  {
    var waiting := After(cfg, run).process.value.waiting;
    if waiting == {} {
      AfterOneMore(cfg, run, Exit);
      longer := run + [Exit];
    } else {
      var id :| id in waiting;
      longer := OneSucceeds(cfg, run, id);
      longer := AllSucceed(cfg, longer);
    }
  }

  /** Whatever has happened, crashing once more, resuming and succeeding comes to a clean end. */
  lemma CleanEndIsPossible(cfg: Config, run: seq<Action>) returns (longer: seq<Action>)
    requires ValidConfig(cfg)
    ensures run <= longer && After(cfg, longer).clean
  {
    longer := Relaunched(cfg, run);
    longer := AllSucceed(cfg, longer);
  }
}
