/**
 The trace view: every model request repeats the whole conversation, and the viewer shows only what each
 request adds to the previous request and its reply.
 */
module TraceView {
  import opened CanonicalJson
  import opened Options

  /** One traced call with its parsed request and response bodies. */
  datatype Trace = Trace(request: Json, response: Json)

  /** What the view keeps of a call: the messages it adds and the reply, if it has one. */
  datatype Turn = Turn(added: seq<Json>, reply: Option<Json>)

  // ---------------------------------------------------------------- reading a trace

  function Lookup(fields: seq<Field>, key: string): Option<Json> {
    if fields == [] then None
    else if fields[0].key == key then Some(fields[0].value)
    else Lookup(fields[1..], key)
  }

  function Get(j: Json, key: string): Option<Json> {
    if j.Dict? then Lookup(j.fields, key) else None
  }

  function Messages(request: Json): seq<Json> {
    match Get(request, "messages")
    case Some(List(items)) => items
    case _ => []
  }

  /** A number token whose mantissa has no digit but zero. */
  predicate ZeroToken(token: string) {
    token == [] || token[0] == 'e' || token[0] == 'E' || (token[0] in "0.-+" && ZeroToken(token[1..]))
  }

  predicate Truthy(j: Json) {
    match j
    case Null => false
    case Bool(b) => b
    case Number(token) => !ZeroToken(token)
    case Str(text) => text != ""
    case List(items) => items != []
    case Dict(fields) => fields != []
  }

  /** The message the view takes the assistant to have added: none unless the response has content. */
  function Reply(response: Json): Option<Json> {
    match Get(response, "content")
    case Some(List(items)) =>
      if items == [] then None
      else
        var role :=
          match Get(response, "role")
          case Some(r) => if Truthy(r) then r else Str("assistant")
          case None => Str("assistant");
        Some(Dict([Field("role", role), Field("content", List(items))]))
    case _ => None
  }

  function Tail(reply: Option<Json>): seq<Json> {
    match reply case Some(m) => [m] case None => []
  }

  /** The conversation a call leaves behind: its request and its reply. */
  function Known(t: Trace): seq<Json> {
    Messages(t.request) + Tail(Reply(t.response))
  }

  lemma {:induction false} LookupIsValid(fields: seq<Field>, key: string)
    requires ValidFields(fields)
    ensures var r := Lookup(fields, key); r.Some? ==> Valid(r.value)
  {
    if fields != [] && fields[0].key != key { LookupIsValid(fields[1..], key); }
  }

  predicate ValidTrace(t: Trace) {
    Valid(t.request) && Valid(t.response)
  }

  lemma {:induction false} ItemsAreValid(items: seq<Json>)
    requires ValidItems(items)
    ensures forall i | 0 <= i < |items| :: Valid(items[i])
  {
    if items != [] {
      ItemsAreValid(items[1..]);
      assert forall i | 0 < i < |items| :: items[i] == items[1..][i - 1];
    }
  }

  lemma ReplyIsValid(role: Json, items: seq<Json>)
    requires Valid(role) && ValidItems(items)
    ensures Valid(Dict([Field("role", role), Field("content", List(items))]))
  {
    var fields := [Field("role", role), Field("content", List(items))];
    assert fields[1..] == [Field("content", List(items))];
    assert ValidFields(fields[1..][1..]) && |"role"| != |"content"|;
    assert !HasKey(fields[1..], "role");
    assert Valid(fields[1].value) && Valid(fields[0].value);
    assert ValidFields(fields[1..]);
    assert ValidFields(fields);
  }

  lemma KnownIsValid(t: Trace)
    requires ValidTrace(t)
    ensures forall i | 0 <= i < |Known(t)| :: Valid(Known(t)[i])
  {
    if t.request.Dict? { LookupIsValid(t.request.fields, "messages"); }
    ItemsAreValid(Messages(t.request));
    if t.response.Dict? && Reply(t.response).Some? {
      LookupIsValid(t.response.fields, "content");
      LookupIsValid(t.response.fields, "role");
      var fields := Reply(t.response).value.fields;
      ReplyIsValid(fields[0].value, fields[1].value.items);
    }
  }

  // ---------------------------------------------------------------- what a trace contains

  ghost predicate HasField(j: Json, key: string, value: Json) {
    j.Dict? && exists i | 0 <= i < |j.fields| :: j.fields[i] == Field(key, value)
  }

  /** The messages of a request: the list under "messages", and none without such a list. */
  ghost predicate Requests(request: Json, items: seq<Json>) {
    if exists list :: HasField(request, "messages", List(list)) then HasField(request, "messages", List(items))
    else items == []
  }

  /** Zero in any notation: no character before an exponent is a digit from 1 to 9, or a letter. */
  ghost predicate IsZero(token: string) {
    forall i | 0 <= i < |token| && InMantissa(token, i) :: token[i] in "0.-+"
  }

  ghost predicate InMantissa(token: string, i: nat) {
    i < |token| && forall j | 0 <= j <= i :: token[j] != 'e' && token[j] != 'E'
  }

  /** What Python takes for false. */
  ghost predicate IsFalse(j: Json) {
    j == Null || j == Bool(false) || j == Str("") || j == List([]) || j == Dict([]) || (j.Number? && IsZero(j.token))
  }

  /** The role a response names, or the assistant's if it names none that counts as true. */
  ghost predicate SpeaksAs(response: Json, role: Json) {
    if exists r :: HasField(response, "role", r) && !IsFalse(r) then HasField(response, "role", role) && !IsFalse(role)
    else role == Str("assistant")
  }

  /** The reply of a response: its role and its content, if that is a list with something in it. */
  ghost predicate Replies(response: Json, reply: Option<Json>) {
    if exists list :: list != [] && HasField(response, "content", List(list)) then
      exists role, list ::
        && list != [] && HasField(response, "content", List(list)) && SpeaksAs(response, role)
        && reply == Some(Dict([Field("role", role), Field("content", List(list))]))
    else reply == None
  }

  lemma {:induction false} ZeroExactly(token: string)
    ensures ZeroToken(token) <==> IsZero(token)
    decreases |token|
  {
    if token != [] && token[0] != 'e' && token[0] != 'E' {
      var rest := token[1..];
      ZeroExactly(rest);
      if token[0] in "0.-+" {
        ZeroShift(token);
      } else {
        assert !IsZero(token);
      }
    }
  }

  lemma ZeroShift(token: string)
    requires token != [] && token[0] in "0.-+"
    ensures IsZero(token) <==> IsZero(token[1..])
  {
    var rest := token[1..];
    forall i: nat | i < |rest| ensures InMantissa(rest, i) <==> InMantissa(token, i + 1) {
      forall j | 1 <= j <= i + 1 ensures token[j] == rest[j - 1] {}
      forall j | 0 <= j <= i ensures rest[j] == token[j + 1] {}
    }
    if IsZero(token) {
      forall i | 0 <= i < |rest| && InMantissa(rest, i) ensures rest[i] in "0.-+" {
        assert InMantissa(token, i + 1) && token[i + 1] == rest[i];
      }
    }
    if IsZero(rest) {
      forall i | 0 <= i < |token| && InMantissa(token, i) ensures token[i] in "0.-+" {
        if i > 0 { assert InMantissa(rest, i - 1) && rest[i - 1] == token[i]; }
      }
    }
  }

  lemma TruthyExactly(j: Json)
    ensures Truthy(j) <==> !IsFalse(j)
  {
    if j.Number? { ZeroExactly(j.token); }
  }

  /** Keys are not repeated, so a lookup finds the one field there is. */
  lemma {:induction false} LookupExactly(fields: seq<Field>, key: string, value: Json)
    requires ValidFields(fields)
    ensures Lookup(fields, key) == Some(value) <==> HasField(Dict(fields), key, value)
    decreases |fields|
  {
    if fields != [] {
      LookupExactly(fields[1..], key, value);
      if HasField(Dict(fields[1..]), key, value) {
        var i :| 0 <= i < |fields| - 1 && fields[1..][i] == Field(key, value);
        assert fields[i + 1] == Field(key, value);
        KeyIsThere(fields[1..], i);
      }
      if HasField(Dict(fields), key, value) {
        var i :| 0 <= i < |fields| && fields[i] == Field(key, value);
        if i > 0 {
          assert fields[1..][i - 1] == Field(key, value);
          KeyIsThere(fields[1..], i - 1);
        }
      }
    }
  }

  lemma KeyIsThere(fields: seq<Field>, i: nat)
    requires i < |fields|
    ensures HasKey(fields, fields[i].key)
  {
  }

  lemma GetExactly(j: Json, key: string, value: Json)
    requires Valid(j)
    ensures Get(j, key) == Some(value) <==> HasField(j, key, value)
  {
    if j.Dict? { LookupExactly(j.fields, key, value); }
  }

  lemma MessagesExactly(request: Json)
    requires Valid(request)
    ensures Requests(request, Messages(request))
  {
    forall value ensures Get(request, "messages") == Some(value) <==> HasField(request, "messages", value) {
      GetExactly(request, "messages", value);
    }
  }

  lemma ReplyExactly(response: Json)
    requires Valid(response)
    ensures Replies(response, Reply(response))
  {
    forall key, value ensures Get(response, key) == Some(value) <==> HasField(response, key, value) {
      GetExactly(response, key, value);
    }
    forall j ensures Truthy(j) <==> !IsFalse(j) { TruthyExactly(j); }
    hide Truthy, IsFalse, HasField, Get;
    if Reply(response).Some? {
      var fields := Reply(response).value.fields;
      assert SpeaksAs(response, fields[0].value);
    }
  }

  // ---------------------------------------------------------------- the code

  /** The first n messages agree, up to `cache_control` and the order of fields. */
  predicate Agree(left: seq<Json>, right: seq<Json>, n: nat) {
    && n <= |left| && n <= |right|
    && forall i | 0 <= i < n :: Meaning(left[i]) == Meaning(right[i])
  }

  predicate Same(left: seq<Json>, right: seq<Json>) {
    |left| == |right| && Agree(left, right, |left|)
  }

  /** n is the number of leading messages in which two conversations agree. */
  predicate IsCommonPrefix(left: seq<Json>, right: seq<Json>, n: nat) {
    Agree(left, right, n) && (n < |left| && n < |right| ==> Meaning(left[n]) != Meaning(right[n]))
  }

  /** `common_prefix_len`: comparing canonical texts finds the longest prefix equal up to `cache_control`. */
  method CommonPrefixLen(left: seq<Json>, right: seq<Json>) returns (n: nat)
    requires forall i | 0 <= i < |left| :: Valid(left[i])
    requires forall i | 0 <= i < |right| :: Valid(right[i])
    ensures IsCommonPrefix(left, right, n)
  {
    var limit := if |left| < |right| then |left| else |right|;
    for index := 0 to limit
      invariant Agree(left, right, index)
    {
      CanonicalIsFaithful(left[index], right[index]);
      if Canonical(left[index]) != Canonical(right[index]) {
        return index;
      }
    }
    return limit;
  }

  /** What the viewer has to go on when it reaches call i. */
  function Before(traces: seq<Trace>, i: nat): seq<Json>
    requires i <= |traces|
  {
    if i == 0 then [] else Known(traces[i - 1])
  }

  /** The turn adds exactly what follows the longest common prefix. */
  predicate IsDelta(before: seq<Json>, t: Trace, turn: Turn) {
    var current := Messages(t.request);
    && turn.reply == Reply(t.response)
    && |turn.added| <= |current|
    && IsCommonPrefix(before, current, |current| - |turn.added|)
    && turn.added == current[|current| - |turn.added|..]
  }

  /** One round of the loop of `load_case_trace_view`. */
  method ViewTurn(before: seq<Json>, t: Trace) returns (turn: Turn, known: seq<Json>)
    requires ValidTrace(t) && forall i | 0 <= i < |before| :: Valid(before[i])
    ensures IsDelta(before, t, turn)
    ensures known == Known(t) && forall i | 0 <= i < |known| :: Valid(known[i])
  {
    var current := Messages(t.request);
    KnownIsValid(t);
    assert forall i | 0 <= i < |current| :: current[i] == Known(t)[i];
    var prefixLen := CommonPrefixLen(before, current);
    var assistantMessage := Reply(t.response);
    turn := Turn(current[prefixLen..], assistantMessage);
    known := current;
    if assistantMessage.Some? {
      known := known + [assistantMessage.value];
    }
  }

  /** Each turn is the delta of its call. */
  ghost predicate AreDeltas(traces: seq<Trace>, turns: seq<Turn>) {
    |turns| <= |traces| &&
    (turns == [] ||
     var n := |turns| - 1;
     AreDeltas(traces, turns[..n]) && IsDelta(Before(traces, n), traces[n], turns[n]))
  }

  lemma {:induction false} EveryTurnIsDelta(traces: seq<Trace>, turns: seq<Turn>, i: nat)
    requires AreDeltas(traces, turns) && i < |turns|
    ensures IsDelta(Before(traces, i), traces[i], turns[i])
    decreases |turns|
  {
    hide IsDelta;
    if i < |turns| - 1 { EveryTurnIsDelta(traces, turns[..|turns| - 1], i); }
  }

  /** The request and the reply of the previous call, if there is one, as the viewer looks back on them. */
  ghost predicate LooksBackOn(previous: Option<Trace>, before: seq<Json>) {
    if previous.None? then before == []
    else
      exists items, reply ::
        && Requests(previous.value.request, items) && Replies(previous.value.response, reply)
        && before == if reply.Some? then items + [reply.value] else items
  }

  /**
   The turn shows the call: what the list of its request has after the longest common prefix with the previous
   request and reply, and its own reply.
   */
  ghost predicate IsShown(previous: Option<Trace>, t: Trace, turn: Turn) {
    && Replies(t.response, turn.reply)
    && exists before, items ::
         && LooksBackOn(previous, before) && Requests(t.request, items) && |turn.added| <= |items|
         && IsCommonPrefix(before, items, |items| - |turn.added|)
         && turn.added == items[|items| - |turn.added|..]
  }

  function Previous(traces: seq<Trace>, i: nat): Option<Trace>
    requires i < |traces|
  {
    if i == 0 then None else Some(traces[i - 1])
  }

  lemma KnownLooksBack(t: Trace)
    requires ValidTrace(t)
    ensures LooksBackOn(Some(t), Known(t))
  {
    MessagesExactly(t.request);
    ReplyExactly(t.response);
    hide Requests, Replies, Messages, Reply, Valid;
    assert Known(t) == if Reply(t.response).Some? then Messages(t.request) + [Reply(t.response).value]
                       else Messages(t.request);
  }

  lemma LooksBack(traces: seq<Trace>, i: nat)
    requires i < |traces| && (i > 0 ==> ValidTrace(traces[i - 1]))
    ensures LooksBackOn(Previous(traces, i), Before(traces, i))
  {
    hide Requests, Replies, Known, Valid, ValidTrace;
    if i > 0 { KnownLooksBack(traces[i - 1]); }
  }

  lemma DeltaOfCall(before: seq<Json>, previous: Option<Trace>, t: Trace, turn: Turn)
    requires LooksBackOn(previous, before) && ValidTrace(t) && IsDelta(before, t, turn)
    ensures IsShown(previous, t, turn)
  {
    hide LooksBackOn, Requests, Replies, IsCommonPrefix, Messages, Reply, Valid;
    MessagesExactly(t.request);
    ReplyExactly(t.response);
  }

  lemma DeltaIsShown(traces: seq<Trace>, i: nat, turn: Turn)
    requires i < |traces| && (forall j | 0 <= j < |traces| :: ValidTrace(traces[j]))
    requires IsDelta(Before(traces, i), traces[i], turn)
    ensures IsShown(Previous(traces, i), traces[i], turn)
  {
    hide LooksBackOn, IsDelta, IsShown, ValidTrace, Before, Previous;
    LooksBack(traces, i);
    DeltaOfCall(Before(traces, i), Previous(traces, i), traces[i], turn);
  }

  /** The loop of `load_case_trace_view`. */
  method LoadCaseTraceView(traces: seq<Trace>) returns (turns: seq<Turn>)
    requires forall i | 0 <= i < |traces| :: ValidTrace(traces[i])
    ensures |turns| == |traces| && AreDeltas(traces, turns)
    ensures forall i | 0 <= i < |traces| :: IsShown(Previous(traces, i), traces[i], turns[i])
  {
    turns := [];
    var prevMessages: seq<Json> := [];
    for index := 0 to |traces|
      invariant |turns| == index
      invariant prevMessages == Before(traces, index)
      invariant forall i | 0 <= i < |prevMessages| :: Valid(prevMessages[i])
      invariant AreDeltas(traces, turns)
    {
      var turn;
      turn, prevMessages := ViewTurn(prevMessages, traces[index]);
      turns := turns + [turn];
      assert turns[..index] == turns[..|turns| - 1];
    }
    forall i | 0 <= i < |traces| ensures IsShown(Previous(traces, i), traces[i], turns[i]) {
      EveryTurnIsDelta(traces, turns, i);
      DeltaIsShown(traces, i, turns[i]);
    }
  }

  // ---------------------------------------------------------------- nothing lost, nothing repeated

  /**
   Every request is, up to `cache_control`, a part of what was known followed by what its turn adds, and no
   longer part of what was known would do.
   */
  lemma TurnLosesNothing(before: seq<Json>, t: Trace, turn: Turn) returns (kept: nat)
    requires IsDelta(before, t, turn)
    ensures kept <= |before| && Same(Messages(t.request), before[..kept] + turn.added)
    ensures forall n: nat | Agree(before, Messages(t.request), n) :: n <= kept
  {
    kept := |Messages(t.request)| - |turn.added|;
  }

  predicate Extends(before: seq<Json>, current: seq<Json>) {
    Agree(before, current, |before|)
  }

  /** The messages and replies of the turns, in order. */
  function Rebuilt(turns: seq<Turn>): seq<Json> {
    if turns == [] then []
    else
      var n := |turns| - 1;
      Rebuilt(turns[..n]) + turns[n].added + Tail(turns[n].reply)
  }

  /** Every one of the first n requests extends what was known before it. */
  ghost predicate AllExtend(traces: seq<Trace>, n: nat)
    requires n <= |traces|
  {
    n == 0 || (AllExtend(traces, n - 1) && Extends(Before(traces, n - 1), Messages(traces[n - 1].request)))
  }

  lemma DeltaOfExtension(before: seq<Json>, t: Trace, turn: Turn)
    requires IsDelta(before, t, turn) && Extends(before, Messages(t.request))
    ensures Same(Messages(t.request), before + turn.added)
  {
    var kept := TurnLosesNothing(before, t, turn);
    assert kept == |before| && before[..kept] == before;
  }

  lemma SameSum(a: seq<Json>, b: seq<Json>, c: seq<Json>)
    requires Same(a, b)
    ensures Same(a + c, b + c)
  {
  }

  lemma RebuildTurn(rebuilt: seq<Json>, before: seq<Json>, t: Trace, turn: Turn)
    requires Same(rebuilt, before)
    requires IsDelta(before, t, turn) && Extends(before, Messages(t.request))
    ensures Same(rebuilt + turn.added + Tail(turn.reply), Known(t))
  {
    DeltaOfExtension(before, t, turn);
    SameSum(rebuilt, before, turn.added);
    assert Same(rebuilt + turn.added, Messages(t.request));
    SameSum(rebuilt + turn.added, Messages(t.request), Tail(turn.reply));
  }

  lemma NothingToRebuild()
    ensures Same([], [])
  {
  }

  /**
   Main result: when every request extends the one before it with its reply, the turns together are the whole
   conversation, each message once and in order, up to `cache_control`.
   */
  lemma {:induction false} TurnsRebuildConversation(traces: seq<Trace>, turns: seq<Turn>)
    requires AreDeltas(traces, turns) && AllExtend(traces, |turns|)
    ensures Same(Rebuilt(turns), Before(traces, |turns|))
    decreases |turns|
  {
    hide Same, IsDelta, Extends, Known;
    if turns == [] {
      NothingToRebuild();
    } else {
      var n := |turns| - 1;
      TurnsRebuildConversation(traces, turns[..n]);
      RebuildTurn(Rebuilt(turns[..n]), Before(traces, n), traces[n], turns[n]);
    }
  }
}
