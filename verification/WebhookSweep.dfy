/**
 The periodic sweep that installs GitLab webhooks: it fetches the least recently stamped rows that still need one,
 checks each against GitLab, installs what is missing and stamps the row, whatever happened.
 */
module WebhookSweep {
  import opened Options
  import opened WebhookStore

  const CHUNK_SIZE := 100

  /** What GitLab answers to one question; Raised is any other exception, also one from the database. */
  datatype Reply = Raised | RateLimited | Said(yes: bool)

  /** The answers one row meets; install says whether a webhook id came back. */
  datatype Answers = Answers(
    serviceRaises: bool, resource: Reply, admin: Reply, hook: Reply, install: Reply, stampFails: bool)

  /** How the steps for a row end: all done, BreakLoopException, or an exception that leaves the loop. */
  datatype Verdict = Proceed | BreakLoop | Unexpected

  datatype World = World(table: Table, clock: nat)

  function Write(w: World, r: Resource, webhookExists: Option<bool>): World {
    World(Updated(w.table, r, webhookExists, w.clock + 1), w.clock + 1)
  }

  function Delete(w: World, r: Resource): World {
    w.(table := Deleted(w.table, r))
  }

  /** A check that deletes the row when the answer is no. */
  function CheckOrDelete(w: World, r: Resource, reply: Reply): (World, Verdict) {
    match reply
    case Raised => (w, Unexpected)
    case RateLimited => (w, BreakLoop)
    case Said(yes) => if yes then (w, Proceed) else (Delete(w, r), BreakLoop)
  }

  /** The row was fetched as not having a webhook, so only the answer yes is written. */
  function CheckHook(w: World, r: Resource, reply: Reply): (World, Verdict) {
    match reply
    case Raised => (w, Unexpected)
    case RateLimited => (w, BreakLoop)
    case Said(yes) => if yes then (Write(w, r, Some(true)), BreakLoop) else (w, Proceed)
  }

  function CreateHook(w: World, r: Resource, reply: Reply): (World, Verdict) {
    match reply
    case Raised => (w, Unexpected)
    case RateLimited => (w, BreakLoop)
    case Said(yes) => (if yes then Write(w, r, Some(true)) else w, Proceed)
  }

  /** The body of the `try`. */
  function Attempt(w: World, r: Resource, a: Answers): (World, Verdict) {
    if a.serviceRaises then (w, Unexpected) else
    var (w1, v1) := CheckOrDelete(w, r, a.resource);
    if !v1.Proceed? then (w1, v1) else
    var (w2, v2) := CheckOrDelete(w1, r, a.admin);
    if !v2.Proceed? then (w2, v2) else
    var (w3, v3) := CheckHook(w2, r, a.hook);
    if !v3.Proceed? then (w3, v3) else
    CreateHook(w3, r, a.install)
  }

  /** One row, with the stamp of the `finally`; the flag says that the exception goes on and ends the sweep. */
  function Process(w: World, webhook: Row, a: Answers): (World, bool) {
    var resource := DetermineResourceType(webhook);
    if resource.None? then (w, true) else
    var (w1, verdict) := Attempt(w, resource.value, a);
    (if a.stampFails then w1 else Write(w1, resource.value, None), verdict.Unexpected?)
  }

  function Sweep(w: World, rows: seq<Row>, answers: seq<Answers>): (World, bool)
    requires |rows| == |answers|
    decreases rows
  {
    if rows == [] then (w, false) else
    var (next, aborted) := Process(w, rows[0], answers[0]);
    if aborted then (next, true) else Sweep(next, rows[1..], answers[1..])
  }

  /** The rows as they were when they were fetched. */
  function Fetched(table: Table, rows: seq<RowId>): (webhooks: seq<Row>)
    requires forall i | 0 <= i < |rows| :: rows[i] in table
  {
    seq(|rows|, i requires 0 <= i < |rows| => table[rows[i]])
  }

  // ---------------------------------------------------------------- what becomes of a row

  /** The resource is gone or the user no longer administers it; GitLab's client also says so of unexpected errors. */
  predicate Refused(a: Answers) {
    !a.serviceRaises && (a.resource == Said(false) || (a.resource == Said(true) && a.admin == Said(false)))
  }

  predicate Allowed(a: Answers) {
    !a.serviceRaises && a.resource == Said(true) && a.admin == Said(true)
  }

  /** The webhook turns out to be there, or is installed. */
  predicate Confirmed(a: Answers) {
    Allowed(a) && (a.hook == Said(true) || (a.hook == Said(false) && a.install == Said(true)))
  }

  /** The last question that is asked raises. */
  predicate Raises(a: Answers) {
    || a.serviceRaises || a.resource.Raised?
    || (a.resource == Said(true) && a.admin.Raised?)
    || (Allowed(a) && (a.hook.Raised? || (a.hook == Said(false) && a.install.Raised?)))
  }

  /**
   A row is deleted exactly if it is refused, and otherwise has a webhook exactly if one is confirmed; all other
   rows stay as they are, and the row carries the latest stamp unless the stamp fails and nothing else is written.
   Only an unexpected exception ends the sweep.
   */
  lemma RowOutcome(w: World, id: RowId, a: Answers)
    requires Unique(w.table) && Pending(w.table, id) && DetermineResourceType(w.table[id]).Some?
    ensures var (next, aborted) := Process(w, w.table[id], a);
            && (aborted <==> Raises(a))
            && next.table == if Refused(a) then w.table - {id}
                             else w.table[id := w.table[id].(
                               webhookExists := Confirmed(a),
                               lastSynced :=
                                 if Confirmed(a) || !a.stampFails then next.clock else w.table[id].lastSynced)]
  {
    hide Unique, Updated, Deleted, Matches;
    var r := DetermineResourceType(w.table[id]).value;
    var (tried, verdict) := Attempt(w, r, a);
    WritesTouchOneRow(w.table, id, Some(true), w.clock + 1);
    if Refused(a) {
      NothingLeftToWrite(w.table, id, tried.clock + 1);
    } else {
      WritesKeepUnique(w.table, r, Some(true), w.clock + 1, id);
      WritesTouchOneRow(tried.table, id, None, tried.clock + 1);
    }
  }

  lemma NothingLeftToWrite(table: Table, id: RowId, now: nat)
    requires Unique(table) && id in table && DetermineResourceType(table[id]).Some?
    ensures Updated(table - {id}, DetermineResourceType(table[id]).value, None, now) == table - {id}
  {
    forall other | other in table - {id} ensures !Matches(table[other], DetermineResourceType(table[id]).value) {
      ResourceIdentifiesRow(table, id, other);
    }
  }

  // ---------------------------------------------------------------- the sweep as a loop

  class VerifyWebhookStatus {
    const store: GitlabWebhookStore

    constructor (store: GitlabWebhookStore)
      ensures this.store == store
    {
      this.store := store;
    }

    function View(): World
      reads store
    {
      World(store.table, store.clock)
    }

    method CheckIfResourceExists(webhook: Row, reply: Reply) returns (verdict: Verdict)
      requires DetermineResourceType(webhook).Some?
      modifies store
      ensures (View(), verdict) == CheckOrDelete(old(View()), DetermineResourceType(webhook).value, reply)
    {
      if reply.Raised? { return Unexpected; }
      if reply.RateLimited? { return BreakLoop; }
      if !reply.yes {
        var _ := store.DeleteWebhook(webhook);
        return BreakLoop;
      }
      return Proceed;
    }

    method CheckIfWebhookAlreadyExists(webhook: Row, reply: Reply) returns (verdict: Verdict)
      requires DetermineResourceType(webhook).Some? && !webhook.webhookExists
      modifies store
      ensures (View(), verdict) == CheckHook(old(View()), DetermineResourceType(webhook).value, reply)
    {
      if reply.Raised? { return Unexpected; }
      if reply.RateLimited? { return BreakLoop; }
      if reply.yes != webhook.webhookExists {
        var _ := store.UpdateWebhook(webhook, Some(reply.yes));
      }
      return if reply.yes then BreakLoop else Proceed;
    }

    method CreateNewWebhook(webhook: Row, reply: Reply) returns (verdict: Verdict)
      requires DetermineResourceType(webhook).Some?
      modifies store
      ensures (View(), verdict) == CreateHook(old(View()), DetermineResourceType(webhook).value, reply)
    {
      if reply.Raised? { return Unexpected; }
      if reply.RateLimited? { return BreakLoop; }
      if reply.yes {
        var _ := store.UpdateWebhook(webhook, Some(true));
      }
      return Proceed;
    }

    /** The body of the `try`. */
    method VerifyAndInstall(webhook: Row, a: Answers) returns (verdict: Verdict)
      requires DetermineResourceType(webhook).Some? && !webhook.webhookExists
      modifies store
      ensures (View(), verdict) == Attempt(old(View()), DetermineResourceType(webhook).value, a)
    {
      if a.serviceRaises { return Unexpected; }
      verdict := CheckIfResourceExists(webhook, a.resource);
      if !verdict.Proceed? { return; }
      verdict := CheckIfResourceExists(webhook, a.admin);
      if !verdict.Proceed? { return; }
      verdict := CheckIfWebhookAlreadyExists(webhook, a.hook);
      if !verdict.Proceed? { return; }
      verdict := CreateNewWebhook(webhook, a.install);
    }

    method InstallWebhooks(rows: seq<RowId>, answers: seq<Answers>) returns (aborted: bool)
      requires IsFetch(store.table, rows, CHUNK_SIZE) && |answers| == |rows|
      modifies store
      ensures (View(), aborted) == Sweep(old(View()), Fetched(old(store.table), rows), answers)
    {
      var webhooks := Fetched(store.table, rows);
      for i := 0 to |webhooks|
        invariant Sweep(View(), webhooks[i..], answers[i..]) == Sweep(old(View()), webhooks, answers)
      {
        var verdict := Unexpected;
        if DetermineResourceType(webhooks[i]).Some? {
          verdict := VerifyAndInstall(webhooks[i], answers[i]);
        }
        if !answers[i].stampFails {
          var _ := store.UpdateLastSynced(webhooks[i]);
        }
        if verdict.Unexpected? {
          return true;
        }
      }
      return false;
    }
  }
}
