/**
 The inference batch: a thread pool runs the instances, the main thread records the results in files that are
 replaced atomically, and a process that dies at any point is started again with --resume.

 Every action sequence is a run: an action that is not enabled changes nothing.
 */
module Inference {
  import opened Options

  type Id = string

  /** A summary row and a prediction; `attempt` names the execution that produced them. */
  datatype Row = Row(id: Id, attempt: nat)
  datatype Pred = Pred(id: Id, attempt: nat)

  /** A JSON file as a reader finds it. */
  datatype File<+T> = Missing | Corrupt | Json(content: T)

  datatype Status = Status(
    total: nat,
    active: set<Id>, activeCount: nat,
    completed: seq<Id>, completedCount: nat,
    failed: seq<Id>, failedCount: nat,
    pendingCount: int,
    done: bool)

  /** The aggregate predictions, the summary, the status, and each instance's own predictions file. */
  datatype Disk = Disk(
    preds: File<map<Id, Pred>>,
    summary: File<seq<Row>>,
    status: File<Status>,
    runFiles: map<Id, File<Pred>>)

  datatype Write = WritePreds | WriteSummary | WriteStatus

  /** A running instance: before it has written its predictions file, and after. */
  datatype Phase = Running | Written(attempt: nat)

  datatype Result = Failed | Succeeded(row: Row, pred: Pred)

  /** What `load_resume_state` returns, and `run_batch` then keeps up to date. */
  datatype Records = Records(
    allPreds: map<Id, Pred>,
    summaries: seq<Row>,
    summaryById: map<Id, Row>,
    completed: set<Id>)

  /**
   One process.  `writes` are the file writes the main thread still has to make before it releases the
   lock (or, at the start, before it submits the instances); `results` are futures that are done but not handled.
   */
  datatype Session = Session(
    records: Records,
    active: set<Id>,
    failed: set<Id>,
    waiting: set<Id>,
    executing: map<Id, Phase>,
    results: map<Id, Result>,
    writes: seq<Write>)

  /** `clean` tells that the last process ran to its end without a failed instance. */
  datatype World = World(disk: Disk, process: Option<Session>, clean: bool)

  datatype Config = Config(instances: seq<Id>, maxConcurrency: nat)

  datatype Action =
    | Launch
    | Write
    | Start(id: Id)
    | BeginRunFile(id: Id)
    | EndRunFile(id: Id, attempt: nat)
    | Succeed(id: Id)
    | Fail(id: Id)
    | Handle(id: Id)
    | Exit
    | Crash

  const FRESH := World(Disk(Missing, Missing, Missing, map[]), None, false)

  ghost predicate ValidConfig(cfg: Config) {
    && cfg.maxConcurrency >= 1
    && (forall i | 0 <= i < |cfg.instances| :: cfg.instances[i] != "")
    && (forall i, j | 0 <= i < j < |cfg.instances| :: cfg.instances[i] != cfg.instances[j])
  }

  function Ids(instances: seq<Id>): set<Id> {
    set i | 0 <= i < |instances| :: instances[i]
  }

  // ---------------------------------------------------------------- the code's own functions

  /** The rows of the instances that have one, in instance order. */
  function Ordered(instances: seq<Id>, rows: map<Id, Row>): seq<Row> {
    if instances == [] then []
    else (if instances[0] in rows then [rows[instances[0]]] else []) + Ordered(instances[1..], rows)
  }

  function OrderedIds(instances: seq<Id>, ids: set<Id>): seq<Id> {
    if instances == [] then []
    else (if instances[0] in ids then [instances[0]] else []) + OrderedIds(instances[1..], ids)
  }

  /** One row of the loop in `load_resume_state`. */
  function LoadRow(r: Records, row: Row, runFiles: map<Id, File<Pred>>): Records {
    if row.id == "" then r
    else
      var s := r.(summaryById := r.summaryById[row.id := row]);
      if row.id !in runFiles then s
      else
        var t := s.(completed := s.completed + {row.id});
        if row.id !in t.allPreds && runFiles[row.id].Json? then
          t.(allPreds := t.allPreds[runFiles[row.id].content.id := runFiles[row.id].content])
        else t
  }

  function LoadRows(r: Records, rows: seq<Row>, runFiles: map<Id, File<Pred>>): Records {
    if rows == [] then r else LoadRow(LoadRows(r, rows[..|rows| - 1], runFiles), rows[|rows| - 1], runFiles)
  }

  function StoredPreds(disk: Disk): map<Id, Pred> {
    if disk.preds.Json? then disk.preds.content else map[]
  }

  function StoredRows(disk: Disk): seq<Row> {
    if disk.summary.Json? then disk.summary.content else []
  }

  /** `load_resume_state`: a file that is missing or cannot be parsed counts as empty. */
  function LoadResumeState(disk: Disk): Records {
    LoadRows(Records(StoredPreds(disk), StoredRows(disk), map[], {}), StoredRows(disk), disk.runFiles)
  }

  /** `write_inference_status` */
  function StatusOf(instances: seq<Id>, active: set<Id>, completed: set<Id>, failed: set<Id>): Status {
    var pending := |instances| - |active| - |completed|;
    Status(|instances|, active, |active|, OrderedIds(instances, completed), |completed|,
           OrderedIds(instances, failed), |failed|, if pending < 0 then 0 else pending,
           |completed| >= |instances|)
  }

  /** What the main thread records for a finished instance. */
  function Record(r: Records, instances: seq<Id>, row: Row, pred: Pred): Records {
    var byId := r.summaryById[row.id := row];
    Records(r.allPreds[pred.id := pred], Ordered(instances, byId), byId, r.completed + {row.id})
  }

  // ---------------------------------------------------------------- the system

  function SessionStatus(cfg: Config, s: Session): Status {
    StatusOf(cfg.instances, s.active, s.records.completed, s.failed)
  }

  function LaunchSession(cfg: Config, disk: Disk): Session {
    var r := LoadResumeState(disk);
    Session(r, {}, {}, Ids(cfg.instances) - r.completed, map[], map[],
            (if r.allPreds != map[] then [WritePreds] else []) +
            (if r.summaries != [] then [WriteSummary] else []) + [WriteStatus])
  }

  function Put(cfg: Config, disk: Disk, s: Session, w: Write): Disk {
    match w
    case WritePreds => disk.(preds := Json(s.records.allPreds))
    case WriteSummary => disk.(summary := Json(s.records.summaries))
    case WriteStatus => disk.(status := Json(SessionStatus(cfg, s)))
  }

  function HandleResult(cfg: Config, s: Session, id: Id): Session
    requires id in s.results
  {
    var t := s.(results := s.results - {id}, active := s.active - {id});
    match s.results[id]
    case Failed => t.(failed := t.failed + {id}, writes := [WriteStatus])
    case Succeeded(row, pred) =>
      t.(failed := t.failed - {id}, records := Record(t.records, cfg.instances, row, pred),
         writes := [WritePreds, WriteSummary, WriteStatus])
  }

  predicate Over(s: Session) {
    s.waiting == {} && s.executing == map[] && s.results == map[] && s.writes == []
  }

  predicate Enabled(cfg: Config, w: World, a: Action) {
    if a.Launch? then w.process.None?
    else
      w.process.Some? &&
      (var s := w.process.value;
       match a
       case Write => s.writes != []
       case Start(id) => id in s.waiting && |s.executing| < cfg.maxConcurrency && s.writes == []
       case BeginRunFile(id) => id in s.executing
       case EndRunFile(id, _) => id in s.executing
       case Succeed(id) => id in s.executing && s.executing[id].Written?
       case Fail(id) => id in s.executing
       case Handle(id) => id in s.results && s.writes == []
       case Exit => Over(s)
       case _ => true)
  }

  function Step(cfg: Config, w: World, a: Action): World {
    if !Enabled(cfg, w, a) then w
    else if a.Launch? then World(w.disk, Some(LaunchSession(cfg, w.disk)), false)
    else
      var s := w.process.value;
      match a
      case Write => w.(disk := Put(cfg, w.disk, s, s.writes[0]), process := Some(s.(writes := s.writes[1..])))
      case Start(id) =>
        var t := s.(waiting := s.waiting - {id}, executing := s.executing[id := Running], active := s.active + {id});
        w.(disk := Put(cfg, w.disk, t, WriteStatus), process := Some(t))
      case BeginRunFile(id) =>
        w.(disk := w.disk.(runFiles := w.disk.runFiles[id := Corrupt]),
           process := Some(s.(executing := s.executing[id := Running])))
      case EndRunFile(id, attempt) =>
        w.(disk := w.disk.(runFiles := w.disk.runFiles[id := Json(Pred(id, attempt))]),
           process := Some(s.(executing := s.executing[id := Written(attempt)])))
      case Succeed(id) =>
        var result := Succeeded(Row(id, s.executing[id].attempt), Pred(id, s.executing[id].attempt));
        w.(process := Some(s.(executing := s.executing - {id}, results := s.results[id := result])))
      case Fail(id) =>
        w.(process := Some(s.(executing := s.executing - {id}, results := s.results[id := Failed])))
      case Handle(id) => w.(process := Some(HandleResult(cfg, s, id)))
      case Exit => World(w.disk, None, s.failed == {})
      case _ => World(w.disk, None, false)
  }

  function After(cfg: Config, run: seq<Action>): World {
    if run == [] then FRESH else Step(cfg, After(cfg, run[..|run| - 1]), run[|run| - 1])
  }

  // ---------------------------------------------------------------- Ordered and its inverse

  /** Every key names its row. */
  ghost predicate Keyed(rows: map<Id, Row>) {
    forall id | id in rows :: rows[id].id == id
  }

  lemma {:induction false} OrderedRows(instances: seq<Id>, rows: map<Id, Row>)
    requires Keyed(rows)
    ensures forall r :: r in Ordered(instances, rows) <==> r.id in instances && r.id in rows && rows[r.id] == r
  {
    if instances != [] {
      OrderedRows(instances[1..], rows);
      assert forall id :: id in instances <==> id == instances[0] || id in instances[1..];
    }
  }

  /** With a row for every instance, the summary has exactly one row each, in instance order. */
  lemma {:induction false} OrderedIsTotal(instances: seq<Id>, rows: map<Id, Row>)
    requires Keyed(rows) && forall i | 0 <= i < |instances| :: instances[i] in rows
    ensures |Ordered(instances, rows)| == |instances|
    ensures forall i | 0 <= i < |instances| :: Ordered(instances, rows)[i] == rows[instances[i]]
  {
    if instances != [] {
      OrderedIsTotal(instances[1..], rows);
      var tail := Ordered(instances[1..], rows);
      forall i | 0 <= i < |instances| ensures Ordered(instances, rows)[i] == rows[instances[i]] {
        if i > 0 { assert tail[i - 1] == rows[instances[1..][i - 1]]; }
      }
    }
  }

  lemma {:induction false} OrderedIdsAre(instances: seq<Id>, ids: set<Id>)
    ensures forall id :: id in OrderedIds(instances, ids) <==> id in instances && id in ids
  {
    if instances != [] {
      OrderedIdsAre(instances[1..], ids);
      assert forall id :: id in instances <==> id == instances[0] || id in instances[1..];
    }
  }
}
