/**
 The token store: concurrent loads of one row of identity-provider tokens, each a transaction that locks the row,
 may present the refresh token to the identity provider, writes what it got and commits.
 */
module TokenStore {
  import opened Options

  type Token = string
  type Caller = nat

  datatype Tokens = Tokens(access: string, refresh: Token, accessExpiresAt: int, refreshExpiresAt: int)

  // ---------------------------------------------------------------- one call on its own

  /** What one load does to the row and returns, given what the check answered. */
  function Load(row: Option<Tokens>, answer: Option<Tokens>): (Option<Tokens>, Option<Tokens>) {
    if row.None? then (None, None)
    else if answer.Some? then (answer, answer)
    else (row, row)
  }

  /** What the check, if there is one, answers for the row. */
  function Checked(row: Option<Tokens>, check: Option<(Token, int, int) -> Option<Tokens>>): Option<Tokens> {
    if row.None? || check.None? then None
    else check.value(row.value.refresh, row.value.accessExpiresAt, row.value.refreshExpiresAt)
  }

  class AuthTokenStore {
    var row: Option<Tokens>

    method StoreTokens(access: string, refresh: Token, accessExpiresAt: int, refreshExpiresAt: int)
      modifies this
      ensures row == Some(Tokens(access, refresh, accessExpiresAt, refreshExpiresAt))
    {
      if row.Some? {
        row := Some(row.value.(access := access, refresh := refresh,
                    accessExpiresAt := accessExpiresAt, refreshExpiresAt := refreshExpiresAt));
      } else {
        row := Some(Tokens(access, refresh, accessExpiresAt, refreshExpiresAt));
      }
    }

    /** The check is optional; without it nothing is refreshed. */
    method LoadTokens(check: Option<(Token, int, int) -> Option<Tokens>>) returns (result: Option<Tokens>)
      modifies this
      ensures (row, result) == Load(old(row), Checked(old(row), check))
      ensures old(row).None? ==> row == None && result == None
      ensures old(row).Some? && check.None? ==> row == old(row) == result
      ensures old(row).Some? && check.Some? ==>
                var t := old(row).value;
                var answer := check.value(t.refresh, t.accessExpiresAt, t.refreshExpiresAt);
                row == result == if answer.Some? then answer else Some(t)
    {
      if row.None? {
        return None;
      }
      var record := row.value;
      var refreshed := None;
      if check.Some? {
        refreshed := check.value(record.refresh, record.accessExpiresAt, record.refreshExpiresAt);
      }
      if refreshed.Some? {
        row := refreshed;
        return refreshed;
      }
      return Some(record);
    }
  }

  // ---------------------------------------------------------------- many calls at once

  /** How far a call has come.  Everything past Waiting happens under the row lock. */
  datatype Phase =
    | Waiting
    | Locked(read: Tokens)
    | Presented(read: Tokens)
    | Issued(read: Tokens, answer: Tokens)
    | Updated(read: Tokens, answer: Tokens)

  /** What took effect, in the order of commits. */
  datatype Entry =
    | Loaded(caller: Caller, answer: Option<Tokens>, result: Option<Tokens>)
    | Stored(tokens: Tokens)

  /**
   row is the committed row, written the version that the transaction holding the lock has not committed yet.
   seen holds every refresh token ever handed out, presented counts presentations to the identity provider, lost
   those whose call then failed, and spent holds the tokens whose replacement was committed.
   */
  datatype State = State(
    row: Option<Tokens>, lock: Option<Caller>, written: Option<Tokens>, calls: map<Caller, Phase>,
    seen: set<Token>, presented: multiset<Token>, lost: multiset<Token>, spent: set<Token>, log: seq<Entry>)

  datatype Action =
    | Begin(caller: Caller)
    | Lock(caller: Caller)
    | Present(caller: Caller)
    | Answer(caller: Caller, tokens: Tokens)
    | Update(caller: Caller)
    | Commit(caller: Caller)
    | Fail(caller: Caller)
    | Store(tokens: Tokens)

  function Start(row: Option<Tokens>): State {
    State(row, None, None, map[], if row.Some? then {row.value.refresh} else {}, multiset{}, multiset{}, {}, [])
  }

  /** The identity provider hands out tokens never seen before; a store has to wait for the row lock too. */
  predicate Enabled(s: State, a: Action) {
    if a.Store? then s.lock.None? && a.tokens.refresh !in s.seen
    else if a.Begin? then a.caller !in s.calls
    else
      && a.caller in s.calls
      && var phase := s.calls[a.caller];
         match a
         case Lock(_) => phase.Waiting? && s.lock.None?
         case Present(_) => phase.Locked?
         case Answer(_, tokens) => phase.Presented? && tokens.refresh !in s.seen
         case Update(_) => phase.Issued?
         case Commit(_) => phase.Locked? || phase.Updated?
         case _ => true
  }

  function Finished(s: State, c: Caller, e: Entry): State {
    s.(calls := s.calls - {c}, log := s.log + [e])
  }

  function Effect(s: State, a: Action): State
    requires Enabled(s, a)
  {
    match a
    case Store(tokens) => s.(row := Some(tokens), seen := s.seen + {tokens.refresh}, log := s.log + [Stored(tokens)])
    case Begin(c) => s.(calls := s.calls[c := Waiting])
    case Lock(c) =>
      if s.row.None? then Finished(s, c, Loaded(c, None, None))
      else s.(lock := Some(c), calls := s.calls[c := Locked(s.row.value)])
    case Present(c) =>
      var read := s.calls[c].read;
      s.(calls := s.calls[c := Presented(read)], presented := s.presented + multiset{read.refresh})
    case Answer(c, tokens) =>
      s.(calls := s.calls[c := Issued(s.calls[c].read, tokens)], seen := s.seen + {tokens.refresh})
    case Update(c) =>
      s.(calls := s.calls[c := Updated(s.calls[c].read, s.calls[c].answer)], written := Some(s.calls[c].answer))
    case Commit(c) => Committed(s, c)
    case Fail(c) => Failed(s, c)
  }

  function Committed(s: State, c: Caller): State
    requires c in s.calls && (s.calls[c].Locked? || s.calls[c].Updated?)
  {
    var phase := s.calls[c];
    if phase.Updated? then
      Finished(s, c, Loaded(c, Some(phase.answer), Some(phase.answer)))
        .(row := s.written, written := None, lock := None, spent := s.spent + {phase.read.refresh})
    else
      Finished(s, c, Loaded(c, None, Some(phase.read))).(lock := None)
  }

  /** An exception anywhere in the call: the transaction is rolled back. */
  function Failed(s: State, c: Caller): State
    requires c in s.calls
  {
    var phase := s.calls[c];
    if phase.Waiting? then s.(calls := s.calls - {c})
    else s.(calls := s.calls - {c}, lock := None, written := None,
            lost := if phase.Locked? then s.lost else s.lost + multiset{phase.read.refresh})
  }

  function Step(s: State, a: Action): State {
    if Enabled(s, a) then Effect(s, a) else s
  }

  function After(s: State, run: seq<Action>): State {
    if run == [] then s else Step(After(s, run[..|run| - 1]), run[|run| - 1])
  }

  // ---------------------------------------------------------------- what every step keeps

  /** Only the call that holds the lock is past waiting, and the row is still what it read. */
  ghost predicate LockOk(s: State) {
    && (forall c | c in s.calls :: s.calls[c].Waiting? <==> s.lock != Some(c))
    && (s.lock.Some? ==> s.lock.value in s.calls && s.row == Some(s.calls[s.lock.value].read))
    && s.written == (if s.lock.Some? && s.calls[s.lock.value].Updated? then Some(s.calls[s.lock.value].answer)
                     else None)
  }

  /** The token that a call under the lock has presented and not yet seen replaced. */
  ghost function InFlight(s: State): Option<Token>
    requires LockOk(s)
  {
    if s.lock.None? || s.calls[s.lock.value].Locked? then None
    else Some(s.calls[s.lock.value].read.refresh)
  }

  /** The token that the identity provider has answered with and that is not in the row yet. */
  ghost function Coming(s: State): Option<Token>
    requires LockOk(s)
  {
    if s.lock.Some? && (s.calls[s.lock.value].Issued? || s.calls[s.lock.value].Updated?)
    then Some(s.calls[s.lock.value].answer.refresh) else None
  }

  function One(b: bool): nat { if b then 1 else 0 }

  /** Where each presentation went. */
  ghost predicate TokenOk(s: State, t: Token)
    requires LockOk(s)
  {
    && s.presented[t] == s.lost[t] + One(t in s.spent) + One(InFlight(s) == Some(t))
    && (s.presented[t] > 0 ==> t in s.seen)
    && (s.row.Some? && s.row.value.refresh == t ==> t in s.seen && t !in s.spent)
    && (Coming(s) == Some(t) ==> t in s.seen && s.presented[t] == 0)
  }

  ghost predicate Ok(s: State) {
    LockOk(s) && forall t :: TokenOk(s, t)
  }

  lemma StepKeepsLock(s: State, a: Action)
    requires LockOk(s)
    ensures LockOk(Step(s, a))
  {
  }

  lemma StepKeepsToken(s: State, a: Action, t: Token)
    requires Ok(s)
    ensures LockOk(Step(s, a)) && TokenOk(Step(s, a), t)
  {
    StepKeepsLock(s, a);
    assert TokenOk(s, t);
    if s.row.Some? { assert TokenOk(s, s.row.value.refresh); }
  }

  lemma StepKeepsOk(s: State, a: Action)
    requires Ok(s)
    ensures Ok(Step(s, a))
  {
    StepKeepsLock(s, a);
    forall t ensures TokenOk(Step(s, a), t) { StepKeepsToken(s, a, t); }
  }

  lemma {:induction false} RunsAreOk(s: State, run: seq<Action>)
    requires Ok(s)
    ensures Ok(After(s, run))
  {
    hide Ok, Step;
    if run != [] {
      RunsAreOk(s, run[..|run| - 1]);
      StepKeepsOk(After(s, run[..|run| - 1]), run[|run| - 1]);
    }
  }

  lemma StartIsOk(row: Option<Tokens>)
    ensures Ok(Start(row))
  {
  }

  // ---------------------------------------------------------------- one presentation per token

  /**
   Main result: in every interleaving a refresh token is presented at most once more than calls failed after
   presenting it; so never twice unless some call did.
   */
  lemma PresentedOncePerFailure(row: Option<Tokens>, run: seq<Action>, t: Token)
    ensures var s := After(Start(row), run);
            s.lost[t] <= s.presented[t] <= s.lost[t] + 1
  {
    StartIsOk(row);
    RunsAreOk(Start(row), run);
    assert TokenOk(After(Start(row), run), t);
  }

  /** A token that has left the row for good. */
  ghost predicate Gone(s: State, t: Token) {
    && LockOk(s) && t in s.seen
    && (s.row.Some? ==> s.row.value.refresh != t)
    && Coming(s) != Some(t)
  }

  lemma StepKeepsGone(s: State, a: Action, t: Token)
    requires Gone(s, t)
    ensures Gone(Step(s, a), t) && Step(s, a).presented[t] == s.presented[t]
  {
    StepKeepsLock(s, a);
  }

  lemma {:induction false} GoneStaysGone(s: State, tail: seq<Action>, t: Token)
    requires Gone(s, t)
    ensures Gone(After(s, tail), t) && After(s, tail).presented[t] == s.presented[t]
  {
    hide Gone, Step;
    if tail != [] {
      GoneStaysGone(s, tail[..|tail| - 1], t);
      StepKeepsGone(After(s, tail[..|tail| - 1]), tail[|tail| - 1], t);
    }
  }

  /** A continuation in which the token of the row is presented. */
  lemma Presentable(s: State) returns (tail: seq<Action>)
    requires Ok(s) && s.row.Some?
    ensures After(s, tail).presented[s.row.value.refresh] > s.presented[s.row.value.refresh]
  {
    var t := s.row.value.refresh;
    if s.lock.Some? {
      var c := s.lock.value;
      tail := PresentAs(Step(s, Fail(c)), c);
      AfterFirst(s, Fail(c), tail);
      tail := [Fail(c)] + tail;
    } else if s.calls == map[] {
      tail := PresentAs(s, 0);
    } else {
      var c :| c in s.calls;
      var failed := Step(s, Fail(c));
      tail := PresentAs(failed, c);
      AfterFirst(s, Fail(c), tail);
      tail := [Fail(c)] + tail;
    }
  }

  lemma PresentAs(s: State, c: Caller) returns (tail: seq<Action>)
    requires LockOk(s) && s.lock.None? && c !in s.calls && s.row.Some?
    ensures var t := s.row.value.refresh;
            After(s, tail).presented[t] == s.presented[t] + 1
  {
    tail := [Begin(c), Lock(c), Present(c)];
    assert tail[..2] == [Begin(c), Lock(c)] && tail[..2][..1] == [Begin(c)] && tail[..2][..1][..0] == [];
    assert After(s, tail[..2][..1]) == Step(s, Begin(c));
    assert After(s, tail[..2]) == Step(Step(s, Begin(c)), Lock(c));
  }

  lemma {:induction false} AfterFirst(s: State, a: Action, tail: seq<Action>)
    ensures After(s, [a] + tail) == After(Step(s, a), tail)
  {
    hide Step;
    var run := [a] + tail;
    if tail == [] {
      assert run[..0] == [];
    } else {
      assert run[..|run| - 1] == [a] + tail[..|tail| - 1];
      AfterFirst(s, a, tail[..|tail| - 1]);
    }
  }

  /**
   Exactly when a token that has been presented can be presented once more: as long as it is in the row.  A
   commit or a store takes it out; a failure leaves it in.
   */
  lemma PresentedAgainExactly(row: Option<Tokens>, run: seq<Action>, t: Token)
    requires After(Start(row), run).presented[t] > 0
    ensures var s := After(Start(row), run);
            (exists tail :: After(s, tail).presented[t] > s.presented[t]) <==> (s.row.Some? && s.row.value.refresh == t)
  {
    var s := After(Start(row), run);
    StartIsOk(row);
    RunsAreOk(Start(row), run);
    if s.row.Some? && s.row.value.refresh == t {
      var tail := Presentable(s);
    } else {
      assert TokenOk(s, t);
      forall tail ensures After(s, tail).presented[t] == s.presented[t] { GoneStaysGone(s, tail, t); }
    }
  }

  /** A call that fails after presenting leaves the token in the row. */
  lemma FailureLeavesToken(row: Option<Tokens>, run: seq<Action>, c: Caller)
    requires var s := After(Start(row), run);
             c in s.calls && (s.calls[c].Presented? || s.calls[c].Issued? || s.calls[c].Updated?)
    ensures var s := After(Start(row), run);
            var failed := Step(s, Fail(c));
            && failed.row == Some(s.calls[c].read)
            && failed.presented[s.calls[c].read.refresh] > 0
  {
    StartIsOk(row);
    RunsAreOk(Start(row), run);
    var s := After(Start(row), run);
    assert TokenOk(s, s.calls[c].read.refresh);
  }

  // ---------------------------------------------------------------- the order of commits explains everything

  function Applied(row: Option<Tokens>, e: Entry): Option<Tokens> {
    if e.Stored? then Some(e.tokens) else Load(row, e.answer).0
  }

  function Replay(row: Option<Tokens>, log: seq<Entry>): Option<Tokens> {
    if log == [] then row else Applied(Replay(row, log[..|log| - 1]), log[|log| - 1])
  }

  /** Each call in the log returned what it would have returned on its own. */
  ghost predicate Explained(row: Option<Tokens>, log: seq<Entry>) {
    forall i | 0 <= i < |log| && log[i].Loaded? ::
      log[i].result == Load(Replay(row, log[..i]), log[i].answer).1
  }

  lemma LogOneMore(row: Option<Tokens>, log: seq<Entry>, e: Entry)
    requires Explained(row, log)
    requires e.Loaded? ==> e.result == Load(Replay(row, log), e.answer).1
    ensures Replay(row, log + [e]) == Applied(Replay(row, log), e)
    ensures Explained(row, log + [e])
  {
    var longer := log + [e];
    assert longer[..|log|] == log;
    forall i | 0 <= i < |longer| && longer[i].Loaded?
      ensures longer[i].result == Load(Replay(row, longer[..i]), longer[i].answer).1
    {
      if i < |log| { assert longer[..i] == log[..i]; }
    }
  }

  lemma StepKeepsExplained(row: Option<Tokens>, s: State, a: Action)
    requires LockOk(s) && s.row == Replay(row, s.log) && Explained(row, s.log)
    ensures Step(s, a).row == Replay(row, Step(s, a).log) && Explained(row, Step(s, a).log)
  {
    hide Explained, Replay;
    var next := Step(s, a);
    if |next.log| > |s.log| {
      LogOneMore(row, s.log, next.log[|s.log|]);
    }
  }

  /**
   Main result: every interleaving amounts to the same calls made one after the other in the order of their
   commits: the row is what that leaves, and each call returns what it returns there.
   */
  lemma {:induction false} InterleavingsAreSerial(row: Option<Tokens>, run: seq<Action>)
    ensures var s := After(Start(row), run);
            s.row == Replay(row, s.log) && Explained(row, s.log)
  {
    hide Explained, Replay, Step, Ok;
    if run == [] {
      NothingLogged(row);
    } else {
      InterleavingsAreSerial(row, run[..|run| - 1]);
      StartIsOk(row);
      RunsAreOk(Start(row), run[..|run| - 1]);
      var s := After(Start(row), run[..|run| - 1]);
      assert LockOk(s) by { OkIsLockOk(s); }
      StepKeepsExplained(row, s, run[|run| - 1]);
    }
  }

  lemma NothingLogged(row: Option<Tokens>)
    ensures Replay(row, []) == row && Explained(row, [])
  {
  }

  lemma OkIsLockOk(s: State)
    requires Ok(s)
    ensures LockOk(s)
  {
  }

  /** So each caller gets the row as its own commit leaves it, or nothing if there is no row. */
  lemma ResultIsRowAtCommit(row: Option<Tokens>, run: seq<Action>, a: Action)
    requires !a.Store? && Step(After(Start(row), run), a).log != After(Start(row), run).log
    ensures var s := After(Start(row), run);
            var next := Step(s, a);
            && |next.log| == |s.log| + 1
            && var e := next.log[|s.log|];
               e.Loaded? && e.caller == a.caller && e.result == next.row
  {
    StartIsOk(row);
    RunsAreOk(Start(row), run);
  }
}
