/**
 Event polling: each poll looks up the highest event id in the local file store, asks the remote runtime for the
 events after it, and writes and processes them one by one, until it is through or an exception ends it.
 */
module EventPolling {
  import opened Options

  /** An event is its contents and, if it has one, its time; its id is its place in the remote list. */
  datatype Event = Event(contents: string, time: Option<int>)

  // ---------------------------------------------------------------- file names

  function Digit(d: nat): char
    requires d < 10
  {
    "0123456789"[d]
  }

  predicate IsDigit(c: char) { '0' <= c <= '9' }

  function Decimal(n: nat): string {
    if n < 10 then [Digit(n)] else Decimal(n / 10) + [Digit(n % 10)]
  }

  /** int(...) on plain digits; anything else stands for the ValueError. */
  function ParseDecimal(s: string): Option<nat> {
    if s == [] || !IsDigit(s[|s| - 1]) then None
    else
      var last := (s[|s| - 1] - '0') as nat;
      if |s| == 1 then Some(last)
      else
        var front := ParseDecimal(s[..|s| - 1]);
        if front.None? then None else Some(10 * front.value + last)
  }

  /** split(c)[-1] */
  function AfterLast(s: string, c: char): string {
    if s == [] || s[|s| - 1] == c then [] else AfterLast(s[..|s| - 1], c) + [s[|s| - 1]]
  }

  /** split(c)[0] */
  function BeforeFirst(s: string, c: char): string {
    if s == [] || s[0] == c then [] else [s[0]] + BeforeFirst(s[1..], c)
  }

  function EventFilename(dir: string, id: nat): string {
    dir + Decimal(id) + ".json"
  }

  function IdFromFilename(name: string): int {
    var id := ParseDecimal(BeforeFirst(AfterLast(name, '/'), '.'));
    if id.Some? then id.value else -1
  }

  lemma {:induction false} ParseOfDecimal(n: nat)
    ensures ParseDecimal(Decimal(n)) == Some(n)
    ensures forall i | 0 <= i < |Decimal(n)| :: IsDigit(Decimal(n)[i])
  {
    if n >= 10 {
      ParseOfDecimal(n / 10);
      assert Decimal(n)[..|Decimal(n)| - 1] == Decimal(n / 10);
    }
  }

  lemma {:induction false} AfterLastSlash(dir: string, name: string)
    requires dir != [] && dir[|dir| - 1] == '/' && forall i | 0 <= i < |name| :: name[i] != '/'
    ensures AfterLast(dir + name, '/') == name
    decreases |name|
  {
    if name == [] {
      assert dir + name == dir;
    } else {
      var s := dir + name;
      assert s[..|s| - 1] == dir + name[..|name| - 1];
      AfterLastSlash(dir, name[..|name| - 1]);
    }
  }

  lemma {:induction false} BeforeFirstDot(front: string, rest: string)
    requires forall i | 0 <= i < |front| :: front[i] != '.'
    ensures BeforeFirst(front + "." + rest, '.') == front
    decreases |front|
  {
    var s := front + "." + rest;
    if front != [] {
      assert s[1..] == front[1..] + "." + rest;
      BeforeFirstDot(front[1..], rest);
    }
  }

  /** The id is read back from the file name it was written under. */
  lemma IdOfFilename(dir: string, id: nat)
    requires dir != [] && dir[|dir| - 1] == '/'
    ensures IdFromFilename(EventFilename(dir, id)) == id
  {
    ParseOfDecimal(id);
    var name := Decimal(id) + ".json";
    assert dir + Decimal(id) + ".json" == dir + name;
    AfterLastSlash(dir, name);
    assert name == Decimal(id) + "." + "json";
    BeforeFirstDot(Decimal(id), "json");
  }

  lemma {:induction false} ParseExactly(s: string)
    ensures ParseDecimal(s).Some? <==> s != [] && forall i | 0 <= i < |s| :: '0' <= s[i] <= '9'
  {
    if |s| > 1 {
      ParseExactly(s[..|s| - 1]);
    }
  }

  /** A file that is not called by a number does not count. */
  lemma OtherFilesDoNotCount(dir: string, stem: string, rest: string)
    requires dir != [] && dir[|dir| - 1] == '/'
    requires forall i | 0 <= i < |stem| :: stem[i] != '.' && stem[i] != '/'
    requires forall i | 0 <= i < |rest| :: rest[i] != '/'
    requires stem == [] || exists i | 0 <= i < |stem| :: !('0' <= stem[i] <= '9')
    ensures IdFromFilename(dir + stem + "." + rest) == -1
  {
    var name := stem + "." + rest;
    assert dir + stem + "." + rest == dir + name;
    AfterLastSlash(dir, name);
    BeforeFirstDot(stem, rest);
    ParseExactly(stem);
  }

  // ---------------------------------------------------------------- one poll

  /** calls lists the ids handed to the event processing, in order; lastUpdated is the conversation's stored time. */
  datatype Mirror = Mirror(files: map<string, Event>, calls: seq<nat>, lastUpdated: int)

  /**
   Where an exception ends the poll: at an event before it is written, right after its write, in its processing,
   or in the update of the metadata at the end.
   */
  datatype Fault = BeforeWrite(at: nat) | AfterWrite(at: nat) | InProcessing(at: nat) | InUpdate

  function Later(time: int, e: Event): int {
    if e.time.Some? && e.time.value > time then e.time.value else time
  }

  /** The loop from event i on; the flag says whether it got through. */
  function CopyFrom(m: Mirror, dir: string, remote: seq<Event>, i: nat, fault: Option<Fault>): (Mirror, bool)
    decreases |remote| - i
  {
    if i >= |remote| then (m, true)
    else if fault == Some(BeforeWrite(i)) then (m, false)
    else
      var written := m.(files := m.files[EventFilename(dir, i) := remote[i]]);
      if fault == Some(AfterWrite(i)) then (written, false)
      else
        var called := written.(calls := m.calls + [i]);
        if fault == Some(InProcessing(i)) then (called, false)
        else CopyFrom(called, dir, remote, i + 1, fault)
  }

  function Latest(time: int, events: seq<Event>): int
    decreases events
  {
    if events == [] then time else Latest(Later(time, events[0]), events[1..])
  }

  /** One more than the highest id, or 0 if there is none. */
  ghost predicate IsStart(names: set<string>, start: nat) {
    && (forall name | name in names :: IdFromFilename(name) < start)
    && (start > 0 ==> exists name :: name in names && IdFromFilename(name) == start - 1)
  }

  /**
   A poll at the given time.  The update at its end stores the time of day; the latest event time, which the poll
   has worked out and passes on, is not looked at.
   */
  function PollFrom(m: Mirror, dir: string, remote: seq<Event>, start: nat, fault: Option<Fault>, now: int): Mirror {
    var (copied, through) := CopyFrom(m, dir, remote, start, fault);
    if through && fault != Some(InUpdate) then copied.(lastUpdated := now) else copied
  }

  class SaasNestedConversationManager {
    const eventsDir: string
    var files: map<string, Event>
    var calls: seq<nat>
    var lastUpdated: int

    constructor (eventsDir: string, lastUpdated: int)
      ensures this.eventsDir == eventsDir && View() == Mirror(map[], [], lastUpdated)
    {
      this.eventsDir := eventsDir;
      files, calls, this.lastUpdated := map[], [], lastUpdated;
    }

    function View(): Mirror
      reads this
    {
      Mirror(files, calls, lastUpdated)
    }

    /** The maximum over the listed names. */
    method StartId() returns (start: nat)
      ensures IsStart(files.Keys, start)
    {
      var todo := files.Keys;
      var highest := -1;
      while todo != {}
        invariant todo <= files.Keys && highest >= -1
        invariant forall name | name in files.Keys - todo :: IdFromFilename(name) <= highest
        invariant highest >= 0 ==> exists name :: name in files.Keys && IdFromFilename(name) == highest
        decreases todo
      {
        var name :| name in todo;
        if IdFromFilename(name) > highest { highest := IdFromFilename(name); }
        todo := todo - {name};
      }
      start := highest + 1;
    }

    /** The shared update: of the contents it is given it reads neither this time nor any other. */
    method UpdateConversationMetadata(lastUpdatedAt: int, now: int)
      modifies this`lastUpdated
      ensures lastUpdated == now
    {
      lastUpdated := now;
    }

    method PollAgentLoopEvents(remote: seq<Event>, fault: Option<Fault>, now: int)
      modifies this
      ensures exists start :: IsStart(old(files).Keys, start)
                              && View() == PollFrom(old(View()), eventsDir, remote, start, fault, now)
    {
      var start := StartId();
      var updated := lastUpdated;
      var i := start;
      while i < |remote|
        invariant start <= i && lastUpdated == old(lastUpdated)
        invariant CopyFrom(View(), eventsDir, remote, i, fault)
                  == CopyFrom(old(View()), eventsDir, remote, start, fault)
      {
        updated := Later(updated, remote[i]);
        if fault == Some(BeforeWrite(i)) { return; }
        files := files[EventFilename(eventsDir, i) := remote[i]];
        if fault == Some(AfterWrite(i)) { return; }
        calls := calls + [i];
        if fault == Some(InProcessing(i)) { return; }
        i := i + 1;
      }
      if fault == Some(InUpdate) { return; }
      UpdateConversationMetadata(updated, now);
    }
  }

  // ---------------------------------------------------------------- runs

  datatype Action = Grow(event: Event) | Poll(start: nat, fault: Option<Fault>, now: int)

  datatype World = World(remote: seq<Event>, mirror: Mirror)

  /** A poll starts after the highest local id. */
  ghost predicate Possible(w: World, a: Action) {
    a.Poll? ==> IsStart(w.mirror.files.Keys, a.start)
  }

  function Step(w: World, dir: string, a: Action): World {
    match a
    case Grow(event) => w.(remote := w.remote + [event])
    case Poll(start, fault, now) => w.(mirror := PollFrom(w.mirror, dir, w.remote, start, fault, now))
  }

  /** The local event files are those of the first k remote events; no event was handed on twice. */
  ghost predicate IsPrefix(w: World, dir: string, k: nat) {
    && k <= |w.remote|
    && (forall i | 0 <= i < k ::
          EventFilename(dir, i) in w.mirror.files && w.mirror.files[EventFilename(dir, i)] == w.remote[i])
    && (forall name | name in w.mirror.files :: IdFromFilename(name) < k)
    && (forall i | 0 <= i < |w.mirror.calls| :: w.mirror.calls[i] < k)
    && (forall i, j | 0 <= i < j < |w.mirror.calls| :: w.mirror.calls[i] < w.mirror.calls[j])
  }

  ghost predicate IsDir(dir: string) { dir != [] && dir[|dir| - 1] == '/' }

  /** The prefix determines where the next poll starts. */
  lemma StartIsLength(w: World, dir: string, k: nat, start: nat)
    requires IsDir(dir) && IsPrefix(w, dir, k) && IsStart(w.mirror.files.Keys, start)
    ensures start == k
  {
    if k > 0 {
      IdOfFilename(dir, k - 1);
    }
  }

  lemma CopyOne(w: World, dir: string, k: nat, called: bool)
    requires IsDir(dir) && IsPrefix(w, dir, k) && k < |w.remote|
    ensures var m := w.mirror.(files := w.mirror.files[EventFilename(dir, k) := w.remote[k]],
                               calls := if called then w.mirror.calls + [k] else w.mirror.calls);
            IsPrefix(w.(mirror := m), dir, k + 1)
  {
    IdOfFilename(dir, k);
    forall i | 0 <= i < k ensures EventFilename(dir, i) != EventFilename(dir, k) { IdOfFilename(dir, i); }
  }

  /** A fault that strikes event i right after its write, in a poll of the given range. */
  predicate Strikes(fault: Option<Fault>, i: nat, start: nat, end: nat) {
    fault == Some(AfterWrite(i)) && start <= i < end
  }

  /** Of the events copied, k to n, all are handed on but the one that the fault strikes, and that is the last. */
  ghost predicate CallsAdded(calls: seq<nat>, more: seq<nat>, k: nat, n: nat, end: nat, fault: Option<Fault>) {
    && (forall i: nat :: i in more <==> i in calls || (k <= i < n && !Strikes(fault, i, k, end)))
    && (forall i: nat | Strikes(fault, i, k, end) :: n == i + 1)
  }

  lemma {:induction false} CopyKeepsPrefix(w: World, dir: string, k: nat, fault: Option<Fault>) returns (n: nat)
    requires IsDir(dir) && IsPrefix(w, dir, k)
    ensures var (m, through) := CopyFrom(w.mirror, dir, w.remote, k, fault);
            && IsPrefix(w.(mirror := m), dir, n) && k <= n && (through ==> n == |w.remote|)
            && CallsAdded(w.mirror.calls, m.calls, k, n, |w.remote|, fault)
            && m.lastUpdated == w.mirror.lastUpdated
    decreases |w.remote| - k
  {
    hide IsPrefix, EventFilename, CallsAdded;
    n := k;
    PrefixIsBounded(w, dir, k);
    NoneAdded(w.mirror.calls, k, |w.remote|, fault);
    if k < |w.remote| && fault != Some(BeforeWrite(k)) {
      CopyOne(w, dir, k, false);
      CopyOne(w, dir, k, true);
      n := k + 1;
      if fault != Some(AfterWrite(k)) && fault != Some(InProcessing(k)) {
        var written := w.mirror.files[EventFilename(dir, k) := w.remote[k]];
        var m := w.mirror.(files := written, calls := w.mirror.calls + [k]);
        n := CopyKeepsPrefix(w.(mirror := m), dir, k + 1, fault);
        OneAdded(w.mirror.calls, CopyFrom(m, dir, w.remote, k + 1, fault).0.calls, k, n, |w.remote|, fault);
      }
    }
  }

  lemma NoneAdded(calls: seq<nat>, k: nat, end: nat, fault: Option<Fault>)
    ensures k >= end || !(fault.Some? && fault.value.AfterWrite?) || fault == Some(AfterWrite(k)) ==>
              CallsAdded(calls, calls, k, if k < end && fault == Some(AfterWrite(k)) then k + 1 else k, end, fault)
    ensures k < end && fault == Some(InProcessing(k)) ==> CallsAdded(calls, calls + [k], k, k + 1, end, fault)
  {
  }

  lemma OneAdded(calls: seq<nat>, more: seq<nat>, k: nat, n: nat, end: nat, fault: Option<Fault>)
    requires CallsAdded(calls + [k], more, k + 1, n, end, fault) && k < n && fault != Some(AfterWrite(k))
    ensures CallsAdded(calls, more, k, n, end, fault)
  {
    forall i: nat ensures i in more <==> i in calls || (k <= i < n && !Strikes(fault, i, k, end)) {
      assert i in calls + [k] <==> i in calls || i == k;
    }
  }

  lemma PrefixIsBounded(w: World, dir: string, k: nat)
    requires IsPrefix(w, dir, k)
    ensures k <= |w.remote|
  {
  }

  function After(w: World, dir: string, run: seq<Action>): World {
    if run == [] then w else Step(After(w, dir, run[..|run| - 1]), dir, run[|run| - 1])
  }

  ghost predicate IsRun(w: World, dir: string, run: seq<Action>) {
    forall i | 0 <= i < |run| :: Possible(After(w, dir, run[..i]), run[i])
  }

  /** No event yet, here or there; other files may lie in the directory. */
  ghost predicate IsFresh(w: World) {
    && w.remote == [] && w.mirror.calls == []
    && forall name | name in w.mirror.files :: IdFromFilename(name) < 0
  }

  /** Action j is a poll in which an exception strikes event i between its write and its processing. */
  ghost predicate LosesAt(w: World, dir: string, run: seq<Action>, i: nat, j: nat) {
    j < |run| && run[j].Poll? && Strikes(run[j].fault, i, run[j].start, |After(w, dir, run[..j]).remote|)
  }

  ghost predicate Lost(w: World, dir: string, run: seq<Action>, i: nat) {
    exists j :: LosesAt(w, dir, run, i, j)
  }

  /** Exactly the events that some poll lost are copied and not handed on. */
  ghost predicate LostExactly(w: World, dir: string, run: seq<Action>, k: nat) {
    var calls := After(w, dir, run).mirror.calls;
    forall i: nat :: Lost(w, dir, run, i) <==> i < k && i !in calls
  }

  lemma RunOfPrefix(w: World, dir: string, run: seq<Action>)
    requires IsRun(w, dir, run) && run != []
    ensures IsRun(w, dir, run[..|run| - 1])
    ensures Possible(After(w, dir, run[..|run| - 1]), run[|run| - 1])
  {
    var before := run[..|run| - 1];
    forall i | 0 <= i < |before| ensures Possible(After(w, dir, before[..i]), before[i]) {
      assert before[..i] == run[..i];
    }
  }

  lemma GrowKeepsPrefix(w: World, dir: string, e: Event, k: nat)
    requires IsPrefix(w, dir, k)
    ensures IsPrefix(Step(w, dir, Grow(e)), dir, k)
  {
  }

  /**
   Main result: whatever polls are cut short and wherever, the local files are an exact prefix of the remote list,
   and every event in it was handed to the processing once and in order, except exactly those that an exception
   struck between their write and their processing: these are never handed on.
   */
  lemma {:induction false} LocalIsPrefix(dir: string, origin: World, run: seq<Action>) returns (k: nat)
    requires IsDir(dir) && IsFresh(origin) && IsRun(origin, dir, run)
    ensures var w := After(origin, dir, run);
            IsPrefix(w, dir, k) && LostExactly(origin, dir, run, k)
    decreases |run|
  {
    hide IsPrefix, IsRun, CopyFrom, PollFrom, LostExactly, CallsAdded;
    if run == [] {
      k := 0;
      NothingYet(dir, origin);
    } else {
      var before, a := run[..|run| - 1], run[|run| - 1];
      var w := After(origin, dir, before);
      RunOfPrefix(origin, dir, run);
      var n := LocalIsPrefix(dir, origin, before);
      k := n;
      if a.Grow? {
        GrowKeepsPrefix(w, dir, a.event, n);
        GrowLosesNone(origin, dir, run, n);
      } else {
        StartIsLength(w, dir, n, a.start);
        k := PollKeepsPrefix(w, dir, n, a.fault, a.now);
        PrefixBoundsCalls(w, dir, n);
        PollLosesOne(origin, dir, run, n, k);
      }
    }
  }

  lemma LostOneMore(w: World, dir: string, run: seq<Action>, i: nat)
    requires run != []
    ensures Lost(w, dir, run, i) <==> Lost(w, dir, run[..|run| - 1], i) || LosesAt(w, dir, run, i, |run| - 1)
  {
    hide After;
    var before := run[..|run| - 1];
    forall j: nat | j < |before| ensures LosesAt(w, dir, run, i, j) <==> LosesAt(w, dir, before, i, j) {
      assert run[..j] == before[..j];
    }
    if Lost(w, dir, before, i) {
      var j: nat :| LosesAt(w, dir, before, i, j);
      assert LosesAt(w, dir, run, i, j);
    }
  }

  lemma GrowLosesNone(w: World, dir: string, run: seq<Action>, k: nat)
    requires run != [] && run[|run| - 1].Grow? && LostExactly(w, dir, run[..|run| - 1], k)
    ensures LostExactly(w, dir, run, k)
  {
    hide Lost;
    forall i: nat ensures Lost(w, dir, run, i) <==> Lost(w, dir, run[..|run| - 1], i) {
      LostOneMore(w, dir, run, i);
    }
  }

  lemma PollLosesOne(w: World, dir: string, run: seq<Action>, n: nat, k: nat)
    requires run != [] && run[|run| - 1].Poll? && run[|run| - 1].start == n <= k
    requires var v := After(w, dir, run[..|run| - 1]);
             && LostExactly(w, dir, run[..|run| - 1], n) && (forall i | i in v.mirror.calls :: i < n)
             && CallsAdded(v.mirror.calls, After(w, dir, run).mirror.calls, n, k, |v.remote|, run[|run| - 1].fault)
    ensures LostExactly(w, dir, run, k)
  {
    hide Lost, PollFrom;
    forall i: nat ensures Lost(w, dir, run, i) <==> i < k && i !in After(w, dir, run).mirror.calls {
      LostOneMore(w, dir, run, i);
    }
  }

  lemma PrefixBoundsCalls(w: World, dir: string, k: nat)
    requires IsPrefix(w, dir, k)
    ensures forall i | i in w.mirror.calls :: i < k
  {
  }

  lemma NothingYet(dir: string, origin: World)
    requires IsFresh(origin)
    ensures IsPrefix(origin, dir, 0) && LostExactly(origin, dir, [], 0)
  {
  }

  lemma PollKeepsPrefix(w: World, dir: string, k: nat, fault: Option<Fault>, now: int) returns (n: nat)
    requires IsDir(dir) && IsPrefix(w, dir, k)
    ensures var m := PollFrom(w.mirror, dir, w.remote, k, fault, now);
            && IsPrefix(w.(mirror := m), dir, n) && k <= n && (Completes(w.remote, k, fault) ==> n == |w.remote|)
            && CallsAdded(w.mirror.calls, m.calls, k, n, |w.remote|, fault)
  {
    n := CopyKeepsPrefix(w, dir, k, fault);
    ThroughExactly(w.mirror, dir, w.remote, k, fault);
  }

  /** No exception strikes a poll from the given start. */
  predicate Completes(remote: seq<Event>, start: nat, fault: Option<Fault>) {
    fault.None? || !(fault.value.InUpdate? || start <= fault.value.at < |remote|)
  }

  lemma {:induction false} ThroughExactly(m: Mirror, dir: string, remote: seq<Event>, i: nat, fault: Option<Fault>)
    ensures Completes(remote, i, fault) <==> CopyFrom(m, dir, remote, i, fault).1 && fault != Some(InUpdate)
    decreases |remote| - i
  {
    if i < |remote| {
      var called := m.(files := m.files[EventFilename(dir, i) := remote[i]], calls := m.calls + [i]);
      ThroughExactly(called, dir, remote, i + 1, fault);
    }
  }

  /** A poll without an exception catches up with the remote list, whatever happened before it. */
  lemma CatchesUp(dir: string, origin: World, run: seq<Action>, start: nat, now: int)
    requires IsDir(dir) && IsFresh(origin) && IsRun(origin, dir, run)
    requires Possible(After(origin, dir, run), Poll(start, None, now))
    ensures var w := After(origin, dir, run + [Poll(start, None, now)]);
            IsPrefix(w, dir, |w.remote|)
  {
    var w := After(origin, dir, run);
    var k := LocalIsPrefix(dir, origin, run);
    StartIsLength(w, dir, k, start);
    var n := PollKeepsPrefix(w, dir, k, None, now);
    assert (run + [Poll(start, None, now)])[..|run|] == run;
  }

  // ---------------------------------------------------------------- the stored time

  /** Action i is a poll that no exception strikes. */
  ghost predicate CompletedAt(w: World, dir: string, run: seq<Action>, i: nat) {
    i < |run| && run[i].Poll? && Completes(After(w, dir, run[..i]).remote, run[i].start, run[i].fault)
  }

  ghost predicate LastCompleted(w: World, dir: string, run: seq<Action>, i: nat) {
    CompletedAt(w, dir, run, i) && forall j | i < j < |run| :: !CompletedAt(w, dir, run, j)
  }

  lemma {:induction false} CopyKeepsTime(m: Mirror, dir: string, remote: seq<Event>, i: nat, fault: Option<Fault>)
    ensures CopyFrom(m, dir, remote, i, fault).0.lastUpdated == m.lastUpdated
    decreases |remote| - i
  {
    if i < |remote| {
      var called := m.(files := m.files[EventFilename(dir, i) := remote[i]], calls := m.calls + [i]);
      CopyKeepsTime(called, dir, remote, i + 1, fault);
    }
  }

  /**
   Main result: the stored time is that of the last poll that no exception struck, even if it copied nothing, and
   no event has a say in it.
   */
  lemma {:induction false} TimeIsOfLastPoll(w: World, dir: string, run: seq<Action>)
    ensures var time := After(w, dir, run).mirror.lastUpdated;
            if exists i: nat :: CompletedAt(w, dir, run, i)
            then exists i: nat :: LastCompleted(w, dir, run, i) && time == run[i].now
            else time == w.mirror.lastUpdated
    decreases |run|
  {
    hide CopyFrom, Completes;
    if run != [] {
      var before, a := run[..|run| - 1], run[|run| - 1];
      var v := After(w, dir, before);
      TimeIsOfLastPoll(w, dir, before);
      forall i | 0 <= i < |before| ensures run[..i] == before[..i] {}
      assert forall i | 0 <= i < |before| :: CompletedAt(w, dir, run, i) <==> CompletedAt(w, dir, before, i);
      if a.Poll? {
        ThroughExactly(v.mirror, dir, v.remote, a.start, a.fault);
        CopyKeepsTime(v.mirror, dir, v.remote, a.start, a.fault);
      }
      if CompletedAt(w, dir, run, |run| - 1) {
        assert LastCompleted(w, dir, run, |run| - 1);
      } else if i: nat :| LastCompleted(w, dir, before, i) && v.mirror.lastUpdated == before[i].now {
        assert LastCompleted(w, dir, run, i);
      }
    }
  }

  lemma {:induction false} LatestIsMaximum(time: int, events: seq<Event>)
    ensures var latest := Latest(time, events);
            && time <= latest && (forall e | e in events && e.time.Some? :: e.time.value <= latest)
            && (latest == time || exists e :: e in events && e.time == Some(latest))
    decreases events
  {
    if events != [] {
      LatestIsMaximum(Later(time, events[0]), events[1..]);
      assert forall e :: e in events <==> e == events[0] || e in events[1..];
    }
  }

  /**
   So the stored time is the one the poll worked out exactly if the poll was made at that very moment: nothing is
   later than the poll, and an event, or the time stored before, is of the same instant.
   */
  lemma WorkedOutTimeIsStored(m: Mirror, dir: string, remote: seq<Event>, start: nat, fault: Option<Fault>, now: int)
    requires start <= |remote| && Completes(remote, start, fault)
    ensures var copied := remote[start..];
            PollFrom(m, dir, remote, start, fault, now).lastUpdated == Latest(m.lastUpdated, copied)
            <==> && m.lastUpdated <= now && (forall e | e in copied && e.time.Some? :: e.time.value <= now)
                 && (m.lastUpdated == now || exists e :: e in copied && e.time == Some(now))
  {
    ThroughExactly(m, dir, remote, start, fault);
    LatestIsMaximum(m.lastUpdated, remote[start..]);
  }
}
