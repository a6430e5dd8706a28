/**
 Routing between the old and the new conversation manager: whether a conversation runs in legacy mode is asked of
 the runtime and remembered for an hour.
 */
module LegacyCache {
  import opened Options

  type Id = string

  const LEGACY_ENTRY_TIMEOUT_SECONDS := 3600.0

  datatype Entry = Entry(isLegacy: bool, timestamp: real)

  type Cache = map<Id, Entry>

  // ---------------------------------------------------------------- one lookup

  function Cleaned(cache: Cache, now: real): Cache {
    map id | id in cache && now - cache[id].timestamp <= LEGACY_ENTRY_TIMEOUT_SECONDS :: cache[id]
  }

  /** The part of a lookup before the runtime is asked; the clock is read once for the cleanup and once more. */
  function Cached(cache: Cache, id: Id, now: real, later: real): Option<bool> {
    var cleaned := Cleaned(cache, now);
    if id in cleaned && later - cleaned[id].timestamp <= LEGACY_ENTRY_TIMEOUT_SECONDS then Some(cleaned[id].isLegacy)
    else None
  }

  datatype Runtime = NoRuntime | Runtime(command: string)

  /** part in text */
  predicate Contains(text: string, part: string) {
    part <= text || (text != [] && Contains(text[1..], part))
  }

  function IsLegacyRuntime(runtime: Runtime): bool {
    runtime.Runtime? && !Contains(runtime.command, "openhands.server")
  }

  /** The text has the part at some place. */
  ghost predicate Occurs(text: string, part: string) {
    exists i | 0 <= i <= |text| :: part <= text[i..]
  }

  lemma {:induction false} ContainsExactly(text: string, part: string)
    ensures Contains(text, part) <==> Occurs(text, part)
    decreases |text|
  {
    assert text[0..] == text;
    if text != [] {
      ContainsExactly(text[1..], part);
      forall i | 0 <= i < |text| ensures text[1..][i..] == text[i + 1..] {}
      if Occurs(text, part) && !(part <= text) {
        var i :| 0 <= i <= |text| && part <= text[i..];
        assert part <= text[1..][i - 1..];
      }
      if Occurs(text[1..], part) {
        var i :| 0 <= i <= |text| - 1 && part <= text[1..][i..];
        assert part <= text[i + 1..];
      }
    }
  }

  /** A runtime is a legacy one exactly if it exists and its command does not mention the new server. */
  lemma LegacyExactly(runtime: Runtime)
    ensures IsLegacyRuntime(runtime) <==> RunsLegacy(runtime)
  {
    if runtime.Runtime? { ContainsExactly(runtime.command, "openhands.server"); }
  }

  ghost predicate RunsLegacy(runtime: Runtime) {
    runtime.Runtime? && !Occurs(runtime.command, "openhands.server")
  }

  predicate Passes(filter: Option<set<Id>>, id: Id) {
    filter.None? || id in filter.value
  }

  function Filtered(loops: set<Id>, filter: Option<set<Id>>): set<Id> {
    set id | id in loops && Passes(filter, id)
  }

  /** nestedLoops and legacyLoops are the conversations of the user that each of the two managers runs. */
  class LegacyConversationManager {
    var cache: Cache
    var nestedLoops: set<Id>
    var legacyLoops: set<Id>

    constructor (nestedLoops: set<Id>, legacyLoops: set<Id>)
      ensures cache == map[] && this.nestedLoops == nestedLoops && this.legacyLoops == legacyLoops
    {
      cache, this.nestedLoops, this.legacyLoops := map[], nestedLoops, legacyLoops;
    }

    method CleanupExpiredCacheEntries(now: real)
      modifies this`cache
      ensures cache == Cleaned(old(cache), now)
    {
      var expired := set id | id in cache && now - cache[id].timestamp > LEGACY_ENTRY_TIMEOUT_SECONDS;
      while expired != {}
        invariant expired <= cache.Keys <= old(cache).Keys
        invariant forall id | id in cache :: cache[id] == old(cache)[id]
        invariant forall id | id in old(cache) ::
                    now - old(cache)[id].timestamp > LEGACY_ENTRY_TIMEOUT_SECONDS <==> id in expired || id !in cache
        decreases expired
      {
        var id :| id in expired;
        cache := cache - {id};
        expired := expired - {id};
      }
    }

    /** now, later and end are the three readings of the clock; runtime is what the runtime answers if asked. */
    method ShouldStartInLegacyMode(id: Id, runtime: Runtime, now: real, later: real, end: real) returns (isLegacy: bool)
      modifies this`cache
      ensures isLegacy == Cached(old(cache), id, now, later).GetOr(IsLegacyRuntime(runtime))
      ensures cache == if Cached(old(cache), id, now, later).Some? then Cleaned(old(cache), now)
                       else Cleaned(old(cache), now)[id := Entry(isLegacy, end)]
      ensures (&& id in old(cache) && now - old(cache)[id].timestamp <= 3600.0
               && later - old(cache)[id].timestamp <= 3600.0) ==>
                isLegacy == old(cache)[id].isLegacy
      ensures (id in old(cache) && now - old(cache)[id].timestamp <= 3600.0 ==>
                 later - old(cache)[id].timestamp > 3600.0) ==>
                isLegacy == RunsLegacy(runtime)
    {
      LegacyExactly(runtime);
      CleanupExpiredCacheEntries(now);
      if id in cache {
        var entry := cache[id];
        if later - entry.timestamp <= LEGACY_ENTRY_TIMEOUT_SECONDS {
          return entry.isLegacy;
        }
      }
      isLegacy := IsLegacyRuntime(runtime);
      cache := cache[id := Entry(isLegacy, end)];
    }

    /** Nothing remembered contradicts what the runtimes say at present. */
    ghost predicate Agrees(runtimes: Id -> Runtime)
      reads this
    {
      forall id | id in cache :: cache[id].isLegacy == IsLegacyRuntime(runtimes(id))
    }

    /**
     While modes do not change, both the lookup of a single conversation and the merge of the two managers yield
     the conversations that run in the manager their own mode selects.
     */
    method GetRunningAgentLoops(filter: Option<set<Id>>, runtimes: Id -> Runtime, now: real) returns (result: set<Id>)
      requires Agrees(runtimes)
      modifies this`cache
      ensures Agrees(runtimes)
      ensures forall id :: id in result <==>
                             && (filter.None? || id in filter.value)
                             && id in if RunsLegacy(runtimes(id)) then legacyLoops else nestedLoops
    {
      forall id ensures RunsLegacy(runtimes(id)) == IsLegacyRuntime(runtimes(id)) { LegacyExactly(runtimes(id)); }
      if filter.Some? && |filter.value| == 1 {
        var id :| id in filter.value;
        OnlyOne(filter.value, id);
        var legacy := ShouldStartInLegacyMode(id, runtimes(id), now, now, now);
        return Filtered(if legacy then legacyLoops else nestedLoops, filter);
      }
      var nested, legacies := Filtered(nestedLoops, filter), Filtered(legacyLoops, filter);
      var fromLegacy := SelectByMode(legacies, true, runtimes, now);
      var fromNested := SelectByMode(nested, false, runtimes, now);
      result := fromLegacy + fromNested;
    }

    /** Either loop of the merge: the conversations whose mode is the wanted one. */
    method SelectByMode(loops: set<Id>, wanted: bool, runtimes: Id -> Runtime, now: real) returns (selected: set<Id>)
      requires Agrees(runtimes)
      modifies this`cache
      ensures Agrees(runtimes)
      ensures forall id :: id in selected <==> id in loops && IsLegacyRuntime(runtimes(id)) == wanted
    {
      selected := {};
      var todo := loops;
      while todo != {}
        invariant todo <= loops && Agrees(runtimes)
        invariant forall id :: id in selected <==> id in loops - todo && IsLegacyRuntime(runtimes(id)) == wanted
        decreases todo
      {
        var id :| id in todo;
        var legacy := ShouldStartInLegacyMode(id, runtimes(id), now, now, now);
        if legacy == wanted {
          selected := selected + {id};
        }
        todo := todo - {id};
      }
    }
  }

  lemma OnlyOne(ids: set<Id>, id: Id)
    requires id in ids && |ids| == 1
    ensures ids == {id}
  {
    assert |ids - {id}| == 0;
  }

  // ---------------------------------------------------------------- lookups that overlap

  /** A lookup that found nothing remembered: the runtime has still to be asked, or has been at the given time. */
  datatype Call = Asking(id: Id) | Told(id: Id, isLegacy: bool, at: real)

  /** What a lookup answered, when, and when the runtime was asked for it. */
  datatype Answer = Answer(id: Id, isLegacy: bool, at: real, asked: real)

  /** asked gives, for each entry of the cache, the time at which the runtime was asked. */
  datatype State = State(
    now: real, cache: Cache, asked: map<Id, real>, calls: map<nat, Call>,
    observed: set<(Id, bool, real)>, answers: seq<Answer>)

  datatype Action =
    | Wait(delay: real)
    | Look(call: nat, id: Id, delay: real)
    | Ask(call: nat, runtime: Runtime)
    | Remember(call: nat)

  predicate Enabled(s: State, a: Action) {
    match a
    case Wait(delay) => delay >= 0.0
    case Look(call, _, delay) => call !in s.calls && delay >= 0.0
    case Ask(call, _) => call in s.calls && s.calls[call].Asking?
    case Remember(call) => call in s.calls && s.calls[call].Told?
  }

  function Look1(s: State, call: nat, id: Id, delay: real): State {
    var cleaned := Cleaned(s.cache, s.now);
    var cached := Cached(s.cache, id, s.now, s.now + delay);
    var next := s.(now := s.now + delay, cache := cleaned);
    if cached.Some? && id in s.asked then
      next.(answers := s.answers + [Answer(id, cached.value, s.now + delay, s.asked[id])])
    else next.(calls := s.calls[call := Asking(id)])
  }

  function Step(s: State, a: Action): State {
    if !Enabled(s, a) then s else
    match a
    case Wait(delay) => s.(now := s.now + delay)
    case Look(call, id, delay) => Look1(s, call, id, delay)
    case Ask(call, runtime) =>
      var id, legacy := s.calls[call].id, IsLegacyRuntime(runtime);
      s.(calls := s.calls[call := Told(id, legacy, s.now)], observed := s.observed + {(id, legacy, s.now)})
    case Remember(call) =>
      var told := s.calls[call];
      s.(cache := s.cache[told.id := Entry(told.isLegacy, s.now)], asked := s.asked[told.id := told.at],
         calls := s.calls - {call}, answers := s.answers + [Answer(told.id, told.isLegacy, s.now, told.at)])
  }

  function Start(now: real): State { State(now, map[], map[], map[], {}, []) }

  function After(now: real, run: seq<Action>): State {
    if run == [] then Start(now) else Step(After(now, run[..|run| - 1]), run[|run| - 1])
  }

  /** No runtime took longer than the given time to answer. */
  ghost predicate Prompt(now: real, run: seq<Action>, latency: real) {
    forall i | 0 <= i < |run| && run[i].Remember? ::
      var s := After(now, run[..i]);
      Enabled(s, run[i]) ==> s.now - s.calls[run[i].call].at <= latency
  }

  ghost predicate EntriesOk(s: State, latency: real) {
    forall id | id in s.cache ::
      && id in s.asked && (id, s.cache[id].isLegacy, s.asked[id]) in s.observed
      && s.cache[id].timestamp - s.asked[id] <= latency
  }

  ghost predicate CallsOk(s: State) {
    forall c | c in s.calls && s.calls[c].Told? :: (s.calls[c].id, s.calls[c].isLegacy, s.calls[c].at) in s.observed
  }

  ghost predicate AnswersOk(s: State, latency: real) {
    forall i | 0 <= i < |s.answers| ::
      var a := s.answers[i];
      (a.id, a.isLegacy, a.asked) in s.observed && a.at - a.asked <= LEGACY_ENTRY_TIMEOUT_SECONDS + latency
  }

  lemma StepKeepsOk(s: State, a: Action, latency: real)
    requires EntriesOk(s, latency) && CallsOk(s) && AnswersOk(s, latency)
    requires a.Remember? && Enabled(s, a) ==> s.now - s.calls[a.call].at <= latency
    ensures EntriesOk(Step(s, a), latency) && CallsOk(Step(s, a)) && AnswersOk(Step(s, a), latency)
  {
  }

  lemma PromptPrefix(now: real, run: seq<Action>, latency: real)
    requires Prompt(now, run, latency) && run != []
    ensures Prompt(now, run[..|run| - 1], latency)
  {
    var before := run[..|run| - 1];
    forall i | 0 <= i < |before| ensures before[..i] == run[..i] {}
  }

  /**
   Main result: with runtimes that answer within latency, every lookup in every interleaving answers what some
   runtime query for that conversation said at most an hour and that latency earlier.
   */
  lemma {:induction false} AnswersAreRecent(now: real, run: seq<Action>, latency: real)
    requires Prompt(now, run, latency)
    ensures var s := After(now, run);
            EntriesOk(s, latency) && CallsOk(s) && AnswersOk(s, latency)
    decreases |run|
  {
    hide EntriesOk, CallsOk, AnswersOk;
    if run == [] {
      StartIsOk(now, latency);
    } else {
      var before := run[..|run| - 1];
      PromptPrefix(now, run, latency);
      AnswersAreRecent(now, before, latency);
      StepKeepsOk(After(now, before), run[|run| - 1], latency);
    }
  }

  lemma StartIsOk(now: real, latency: real)
    ensures EntriesOk(Start(now), latency) && CallsOk(Start(now)) && AnswersOk(Start(now), latency)
  {
  }

  /** A lookup asks nobody exactly if the answer was remembered within the hour, and then gives that answer. */
  lemma RememberedExactly(now: real, run: seq<Action>, call: nat, id: Id, delay: real)
    requires Enabled(After(now, run), Look(call, id, delay))
    ensures var s := After(now, run);
            var next := Step(s, Look(call, id, delay));
            && (next.calls == s.calls <==>
                  id in s.cache && next.now - s.cache[id].timestamp <= 3600.0)
            && (next.calls == s.calls ==>
                  next.answers == s.answers + [Answer(id, s.cache[id].isLegacy, next.now, s.asked[id])])
            && (next.calls != s.calls ==> next.calls == s.calls[call := Asking(id)] && next.answers == s.answers)
  {
    EveryEntryWasAsked(now, run);
    var s := After(now, run);
    assert s.calls[call := Asking(id)] != s.calls by {
      assert call in s.calls[call := Asking(id)];
    }
  }

  lemma {:induction false} EveryEntryWasAsked(now: real, run: seq<Action>)
    ensures After(now, run).cache.Keys <= After(now, run).asked.Keys
  {
    if run != [] {
      EveryEntryWasAsked(now, run[..|run| - 1]);
    }
  }

  function Lagging(latency: real): seq<Action> {
    [Look(0, "", 0.0), Ask(0, NoRuntime), Wait(latency), Remember(0), Wait(3600.0), Look(1, "", 0.0)]
  }

  lemma AskedAndWaited(latency: real)
    requires latency >= 0.0
    ensures After(0.0, Lagging(latency)[..3])
            == State(latency, map[], map[], map[0 := Told("", false, 0.0)], {("", false, 0.0)}, [])
  {
    var run := Lagging(latency);
    AfterSteps(0.0, run);
    hide After;
    assert map[][0 := Asking("")][0 := Told("", false, 0.0)] == map[0 := Told("", false, 0.0)];
    assert {} + {("", false, 0.0)} == {("", false, 0.0)};
  }

  /** The latency counts: an entry is stamped when the answer is in, so an answer can be that much older. */
  lemma LatencyCounts(latency: real)
    requires latency >= 0.0
    ensures var s := After(0.0, Lagging(latency));
            && Prompt(0.0, Lagging(latency), latency)
            && |s.answers| == 2 && s.answers[1].at - s.answers[1].asked == LEGACY_ENTRY_TIMEOUT_SECONDS + latency
  {
    var run := Lagging(latency);
    AfterSteps(0.0, run);
    var s3 := After(0.0, run[..3]);
    AskedAndWaited(latency);
    hide After;
    var s4 := Step(s3, run[3]);
    assert s4.cache[""] == Entry(false, latency);
    assert forall i | 0 <= i < |run| && run[i].Remember? :: i == 3;
  }

  /** In every prompt run every answer is at most so old. */
  ghost predicate AnswersWithin(latency: real, age: real) {
    forall now, run | Prompt(now, run, latency) :: Within(After(now, run), age)
  }

  ghost predicate Within(s: State, age: real) {
    forall i | 0 <= i < |s.answers| :: s.answers[i].at - s.answers[i].asked <= age
  }

  /** Main result: the bound on the age of answers is exactly an hour and the time a runtime may take. */
  lemma AnswersWithinExactly(latency: real, age: real)
    requires latency >= 0.0
    ensures AnswersWithin(latency, age) <==> age >= 3600.0 + latency
  {
    if age >= LEGACY_ENTRY_TIMEOUT_SECONDS + latency {
      forall now, run | Prompt(now, run, latency) ensures Within(After(now, run), age) {
        AnswersAreRecent(now, run, latency);
      }
    } else {
      LatencyCounts(latency);
      assert !Within(After(0.0, Lagging(latency)), age);
    }
  }

  lemma AfterSteps(now: real, run: seq<Action>)
    requires |run| == 6
    ensures After(now, run[..3]) == Step(Step(Step(Start(now), run[0]), run[1]), run[2])
    ensures After(now, run) == Step(Step(Step(After(now, run[..3]), run[3]), run[4]), run[5])
  {
    hide Step;
    assert run[..1][..0] == [] && After(now, run[..1]) == Step(Start(now), run[0]);
    assert run[..2][..1] == run[..1] && After(now, run[..2]) == Step(After(now, run[..1]), run[1]);
    assert run[..3][..2] == run[..2] && After(now, run[..3]) == Step(After(now, run[..2]), run[2]);
    assert run[..4][..3] == run[..3] && After(now, run[..4]) == Step(After(now, run[..3]), run[3]);
    assert run[..5][..4] == run[..4] && After(now, run[..5]) == Step(After(now, run[..4]), run[4]);
  }
}
