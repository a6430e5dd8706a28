/**
 The code of the inference batch: the variables of `run_batch` that the main thread and the pool threads
 share under one lock, and the loops over them.  Each method is proved to do what the step of `Inference`
 that stands for it does.
 */
module InferenceBatch {
  import opened Options
  import Inference
  import opened InferenceRuns

  type Id = Inference.Id

  class Batch {
    const instances: seq<Id>
    var allPreds: map<Id, Inference.Pred>
    var summaries: seq<Inference.Row>
    var summaryById: map<Id, Inference.Row>
    var completedIds: set<Id>
    var activeIds: set<Id>
    var failedIds: set<Id>

    constructor (instances: seq<Id>)
      ensures this.instances == instances
      ensures Recorded() == Inference.Records(map[], [], map[], {})
      ensures activeIds == {} && failedIds == {}
    {
      this.instances := instances;
      allPreds, summaries, summaryById, completedIds := map[], [], map[], {};
      activeIds, failedIds := {}, {};
    }

    ghost function Recorded(): Inference.Records
      reads this
    {
      Inference.Records(allPreds, summaries, summaryById, completedIds)
    }

    /** `load_resume_state` */
    method LoadResumeState(disk: Inference.Disk)
      modifies this`allPreds, this`summaries, this`summaryById, this`completedIds
      ensures Recorded() == Inference.LoadResumeState(disk)
    {
      allPreds := match disk.preds case Json(content) => content case _ => map[];
      summaries := match disk.summary case Json(content) => content case _ => [];
      summaryById, completedIds := map[], {};
      for i := 0 to |summaries|
        invariant summaries == Inference.StoredRows(disk)
        invariant Recorded() ==
                    Inference.LoadRows(
                      Inference.Records(Inference.StoredPreds(disk), summaries, map[], {}),
                      summaries[..i], disk.runFiles)
      {
        var row := summaries[i];
        assert summaries[..i + 1][..i] == summaries[..i];
        if row.id == "" {
          continue;
        }
        summaryById := summaryById[row.id := row];
        if row.id in disk.runFiles {
          completedIds := completedIds + {row.id};
          if row.id !in allPreds {
            match disk.runFiles[row.id]
            case Json(pred) => allPreds := allPreds[pred.id := pred];
            case _ =>
          }
        }
      }
      assert summaries[..|summaries|] == summaries;
    }

    /** The comprehensions that list ids in instance order. */
    method InOrder(ids: set<Id>) returns (ordered: seq<Id>)
      ensures ordered == Inference.OrderedIds(instances, ids)
    {
      ordered := [];
      for i := 0 to |instances|
        invariant ordered + Inference.OrderedIds(instances[i..], ids) == Inference.OrderedIds(instances, ids)
      {
        if instances[i] in ids { ordered := ordered + [instances[i]]; }
      }
    }

    /** `write_inference_status`: what it writes is a good status while the three sets are disjoint. */
    method WriteInferenceStatus(cfg: Inference.Config) returns (payload: Inference.Status)
      requires Inference.ValidConfig(cfg) && cfg.instances == instances
      requires activeIds + completedIds + failedIds <= Inference.Ids(instances)
      requires activeIds !! completedIds !! failedIds
      ensures payload == Inference.StatusOf(instances, activeIds, completedIds, failedIds)
      ensures GoodStatus(cfg, payload)
      ensures StatusShows(cfg, payload, activeIds, completedIds, failedIds)
    {
      StatusShowsSets(cfg, activeIds, completedIds, failedIds);
      hide StatusShows, GoodStatus, Inference.OrderedIds, Inference.ValidConfig;
      var orderedCompleted := InOrder(completedIds);
      var orderedFailed := InOrder(failedIds);
      var pending := |instances| - |activeIds| - |completedIds|;
      if pending < 0 { pending := 0; }
      payload := Inference.Status(|instances|, activeIds, |activeIds|, orderedCompleted, |completedIds|,
                                  orderedFailed, |failedIds|, pending, |completedIds| >= |instances|);
      StatusIsGood(cfg, activeIds, completedIds, failedIds);
    }

    /** The collections are those of the protocol's session. */
    ghost predicate Shows(s: Inference.Session)
      reads this
    {
      Recorded() == s.records && activeIds == s.active && failedIds == s.failed
    }

    /**
     A failed future: the batch handles it as the protocol's session s does.  The instance stays in one place only,
     nothing recorded changes, and the status written is consistent again.
     */
    method RecordFailure(cfg: Inference.Config, id: Id, ghost s: Inference.Session) returns (payload: Inference.Status)
      requires Inference.ValidConfig(cfg) && cfg.instances == instances
      requires Shows(s) && PlacesOk(cfg, s) && id in s.results && s.results[id].Failed?
      modifies this`activeIds, this`failedIds
      ensures var t := Inference.HandleResult(cfg, s, id);
              Shows(t) && PlacesOk(cfg, t) && payload == Inference.SessionStatus(cfg, t) && GoodStatus(cfg, payload)
    {
      hide PlacesOk, GoodStatus, Inference.StatusOf, Inference.HandleResult;
      HandledPlaces(cfg, s, id);
      activeIds := activeIds - {id};
      failedIds := failedIds + {id};
      payload := WriteInferenceStatus(cfg);
    }

    /**
     A successful future, handled as the protocol's session does: the rows are listed in instance order again, and
     the status written last is consistent.
     */
    method RecordSuccess(cfg: Inference.Config, id: Id, row: Inference.Row, pred: Inference.Pred,
                         ghost s: Inference.Session)
      returns (payload: Inference.Status)
      requires Inference.ValidConfig(cfg) && cfg.instances == instances && row.id == id
      requires Shows(s) && PlacesOk(cfg, s) && id in s.results && s.results[id] == Inference.Succeeded(row, pred)
      modifies this
      ensures activeIds == old(activeIds) - {id} && failedIds == old(failedIds) - {id}
      ensures Recorded() == Inference.Record(old(Recorded()), instances, row, pred)
      ensures var t := Inference.HandleResult(cfg, s, id);
              Shows(t) && PlacesOk(cfg, t) && payload == Inference.SessionStatus(cfg, t) && GoodStatus(cfg, payload)
    {
      hide PlacesOk, GoodStatus, Inference.StatusOf, Inference.Record, Inference.HandleResult;
      HandledPlaces(cfg, s, id);
      RecordRow(id, row, pred);
      payload := WriteInferenceStatus(cfg);
    }

    /** The five collections after a success. */
    method RecordRow(id: Id, row: Inference.Row, pred: Inference.Pred)
      requires row.id == id
      modifies this
      ensures activeIds == old(activeIds) - {id} && failedIds == old(failedIds) - {id}
      ensures Recorded() == Inference.Record(old(Recorded()), instances, row, pred)
    {
      activeIds := activeIds - {id};
      failedIds := failedIds - {id};
      completedIds := completedIds + {id};
      allPreds := allPreds[pred.id := pred];
      summaryById := summaryById[id := row];
      var ordered := [];
      for i := 0 to |instances|
        invariant summaryById == old(summaryById)[id := row]
        invariant ordered + Inference.Ordered(instances[i..], summaryById) == Inference.Ordered(instances, summaryById)
      {
        if instances[i] in summaryById { ordered := ordered + [summaryById[instances[i]]]; }
      }
      summaries := ordered;
    }
  }
}
