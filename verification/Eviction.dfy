/** Eviction: starting one conversation too many closes the least recently updated ones of the user. */
module Eviction {
  import opened Options

  /** lastUpdatedAt is a timestamp, or None when the conversation was never updated. */
  datatype Conversation = Conversation(id: string, lastUpdatedAt: Option<int>)

  function LastUpdatedAtKey(c: Conversation): int {
    if c.lastUpdatedAt.None? then 0 else c.lastUpdatedAt.value
  }

  // ---------------------------------------------------------------- the sort

  /** Into a list with the most recent first: behind the conversations that are as recent. */
  function Insert(sorted: seq<Conversation>, c: Conversation): (r: seq<Conversation>)
    ensures |r| == |sorted| + 1
  {
    if sorted == [] || LastUpdatedAtKey(sorted[0]) < LastUpdatedAtKey(c) then [c] + sorted
    else [sorted[0]] + Insert(sorted[1..], c)
  }

  /** The stable sort by descending key. */
  function NewestFirst(cs: seq<Conversation>): (r: seq<Conversation>)
    ensures |r| == |cs|
  {
    if cs == [] then [] else Insert(NewestFirst(cs[..|cs| - 1]), cs[|cs| - 1])
  }

  ghost predicate Descending(cs: seq<Conversation>) {
    forall i, j | 0 <= i < j < |cs| :: LastUpdatedAtKey(cs[i]) >= LastUpdatedAtKey(cs[j])
  }

  lemma {:induction false} InsertPermutes(sorted: seq<Conversation>, c: Conversation)
    ensures multiset(Insert(sorted, c)) == multiset(sorted) + multiset{c}
  {
    if sorted != [] && LastUpdatedAtKey(sorted[0]) >= LastUpdatedAtKey(c) {
      InsertPermutes(sorted[1..], c);
      assert sorted == [sorted[0]] + sorted[1..];
    }
  }

  /** Every element of the result is the new one or an old one. */
  lemma InsertedFrom(sorted: seq<Conversation>, c: Conversation, i: nat)
    requires i <= |sorted|
    ensures Insert(sorted, c)[i] == c || Insert(sorted, c)[i] in sorted
  {
    InsertPermutes(sorted, c);
    assert Insert(sorted, c)[i] in multiset(Insert(sorted, c));
  }

  lemma {:induction false} InsertKeepsDescending(sorted: seq<Conversation>, c: Conversation)
    requires Descending(sorted)
    ensures Descending(Insert(sorted, c))
  {
    if sorted != [] && LastUpdatedAtKey(sorted[0]) >= LastUpdatedAtKey(c) {
      var first, rest := sorted[0], Insert(sorted[1..], c);
      InsertKeepsDescending(sorted[1..], c);
      forall i | 0 <= i < |rest| ensures LastUpdatedAtKey(first) >= LastUpdatedAtKey(rest[i]) {
        InsertedFrom(sorted[1..], c, i);
      }
    }
  }

  lemma NothingSorted()
    ensures Descending([])
  {
  }

  lemma {:induction false} NewestFirstSorts(cs: seq<Conversation>)
    ensures Descending(NewestFirst(cs)) && multiset(NewestFirst(cs)) == multiset(cs)
  {
    hide Insert, Descending;
    if cs == [] {
      NothingSorted();
    } else {
      var front, last := cs[..|cs| - 1], cs[|cs| - 1];
      NewestFirstSorts(front);
      InsertKeepsDescending(NewestFirst(front), last);
      InsertPermutes(NewestFirst(front), last);
      assert cs == front + [last];
    }
  }

  /** The conversations of one stored time, in order. */
  function OfTime(cs: seq<Conversation>, time: Option<int>): seq<Conversation> {
    if cs == [] then []
    else (if cs[0].lastUpdatedAt == time then [cs[0]] else []) + OfTime(cs[1..], time)
  }

  lemma {:induction false} OfTimeSum(a: seq<Conversation>, b: seq<Conversation>, time: Option<int>)
    ensures OfTime(a + b, time) == OfTime(a, time) + OfTime(b, time)
  {
    if a == [] {
      assert a + b == b;
    } else {
      var all := a + b;
      var first := if a[0].lastUpdatedAt == time then [a[0]] else [];
      assert all[1..] == a[1..] + b && all[0] == a[0];
      OfTimeSum(a[1..], b, time);
      assert first + (OfTime(a[1..], time) + OfTime(b, time)) == (first + OfTime(a[1..], time)) + OfTime(b, time);
    }
  }

  /** A list in which all times sort after one has nothing of it. */
  lemma {:induction false} OlderOnly(cs: seq<Conversation>, c: Conversation)
    requires forall i | 0 <= i < |cs| :: LastUpdatedAtKey(cs[i]) < LastUpdatedAtKey(c)
    ensures OfTime(cs, c.lastUpdatedAt) == []
  {
    if cs != [] {
      OlderOnly(cs[1..], c);
    }
  }

  lemma {:induction false} InsertIsStable(sorted: seq<Conversation>, c: Conversation, time: Option<int>)
    requires Descending(sorted)
    ensures OfTime(Insert(sorted, c), time) == OfTime(sorted, time) + if c.lastUpdatedAt == time then [c] else []
  {
    if sorted == [] || LastUpdatedAtKey(sorted[0]) < LastUpdatedAtKey(c) {
      assert ([c] + sorted)[1..] == sorted;
      OlderOnly(sorted, c);
    } else {
      var r := Insert(sorted, c);
      assert r[1..] == Insert(sorted[1..], c) && r[0] == sorted[0];
      InsertIsStable(sorted[1..], c, time);
      hide Insert, Descending;
      var first := if sorted[0].lastUpdatedAt == time then [sorted[0]] else [];
      var last := if c.lastUpdatedAt == time then [c] else [];
      assert first + (OfTime(sorted[1..], time) + last) == (first + OfTime(sorted[1..], time)) + last;
    }
  }

  /** The sort keeps the order of conversations of one time, so of those the last listed is closed first. */
  lemma {:induction false} SortIsStable(cs: seq<Conversation>, time: Option<int>)
    ensures OfTime(NewestFirst(cs), time) == OfTime(cs, time)
  {
    if cs != [] {
      var front, last := cs[..|cs| - 1], cs[|cs| - 1];
      SortIsStable(front, time);
      NewestFirstSorts(front);
      InsertIsStable(NewestFirst(front), last, time);
      OfTimeSum(front, [last], time);
      assert cs == front + [last];
    }
  }

  /** c was updated no later than d; one that was never updated counts as updated at time 0. */
  predicate NoLater(c: Conversation, d: Conversation) {
    match (c.lastUpdatedAt, d.lastUpdatedAt)
    case (Some(t), Some(u)) => t <= u
    case (Some(t), None) => t <= 0
    case (None, Some(u)) => 0 <= u
    case (None, None) => true
  }

  // ---------------------------------------------------------------- the loop

  /** How the call ends; EmptyPop stands for the IndexError of popping an empty list. */
  datatype Ending = Below | EmptyPop

  function Reversed(cs: seq<Conversation>): seq<Conversation> {
    if cs == [] then [] else [cs[|cs| - 1]] + Reversed(cs[..|cs| - 1])
  }

  /** How many of n conversations are left running. */
  function Kept(n: nat, limit: int): (kept: nat)
    ensures kept <= n
  {
    if limit <= 0 then 0 else if n < limit then n else limit - 1
  }

  class ConversationLimiter {
    const maxConcurrentConversations: int
    var closed: seq<Conversation>

    constructor (limit: int)
      ensures maxConcurrentConversations == limit && closed == []
    {
      maxConcurrentConversations, closed := limit, [];
    }

    method CloseSession(c: Conversation)
      modifies this
      ensures closed == old(closed) + [c]
    {
      closed := closed + [c];
    }

    /** listed is the metadata of the running conversations, in the order in which it came. */
    method EnsureNumConversationsBelowLimit(listed: seq<Conversation>) returns (ending: Ending)
      modifies this
      ensures closed == old(closed) + Reversed(NewestFirst(listed)[Kept(|listed|, maxConcurrentConversations)..])
      ensures 1 <= maxConcurrentConversations <= |listed| ==>
                var now := closed[|old(closed)|..];
                && |now| == |listed| - maxConcurrentConversations + 1 && multiset(now) <= multiset(listed)
                && (forall c, d | c in now && d in multiset(listed) - multiset(now) :: NoLater(c, d))
                && forall i, j | 0 <= i < j < |now| :: NoLater(now[i], now[j])
      ensures |listed| < maxConcurrentConversations ==> closed == old(closed)
      ensures ending.EmptyPop? <==> maxConcurrentConversations <= 0
    {
      hide NewestFirst, Reversed;
      ghost var sorted := NewestFirst(listed);
      NothingReversed(sorted);
      ending := Below;
      if |listed| >= maxConcurrentConversations {
        var conversations := NewestFirst(listed);
        while |conversations| >= maxConcurrentConversations
          invariant |conversations| <= |sorted| && conversations == sorted[..|conversations|]
          invariant closed == old(closed) + Reversed(sorted[|conversations|..])
          invariant |conversations| >= maxConcurrentConversations - 1
          decreases |conversations|
        {
          if conversations == [] {
            return EmptyPop;
          }
          var oldest := conversations[|conversations| - 1];
          ReversedOneMore(sorted, |conversations|);
          conversations := conversations[..|conversations| - 1];
          CloseSession(oldest);
        }
      }
      if 1 <= maxConcurrentConversations <= |listed| {
        ClosesTheOldest(listed, maxConcurrentConversations);
        ClosesOldestFirst(listed, maxConcurrentConversations);
        assert closed[|old(closed)|..] == Reversed(sorted[Kept(|listed|, maxConcurrentConversations)..]);
      }
    }
  }

  lemma {:induction false} ReversedAt(cs: seq<Conversation>, i: nat)
    requires i < |cs|
    ensures |Reversed(cs)| == |cs| && Reversed(cs)[i] == cs[|cs| - 1 - i]
    decreases |cs|
  {
    if i > 0 {
      ReversedAt(cs[..|cs| - 1], i - 1);
    } else {
      ReversedKeepsAll(cs);
    }
  }

  lemma ClosesOldestFirst(listed: seq<Conversation>, limit: nat)
    requires 1 <= limit <= |listed|
    ensures var closed := Reversed(NewestFirst(listed)[Kept(|listed|, limit)..]);
            forall i, j | 0 <= i < j < |closed| :: NoLater(closed[i], closed[j])
  {
    hide NewestFirst;
    NewestFirstSorts(listed);
    var back := NewestFirst(listed)[Kept(|listed|, limit)..];
    ReversedKeepsAll(back);
    forall i, j | 0 <= i < j < |back| ensures NoLater(Reversed(back)[i], Reversed(back)[j]) {
      ReversedAt(back, i);
      ReversedAt(back, j);
    }
  }

  lemma NothingReversed(cs: seq<Conversation>)
    ensures Reversed(cs[|cs|..]) == []
  {
  }

  lemma {:induction false} ReversedOneMore(cs: seq<Conversation>, k: nat)
    requires 0 < k <= |cs|
    ensures Reversed(cs[k - 1..]) == Reversed(cs[k..]) + [cs[k - 1]]
    decreases |cs|
  {
    var longer, shorter := cs[k - 1..], cs[k..];
    if shorter == [] {
      assert longer == [cs[k - 1]];
    } else {
      var front := cs[..|cs| - 1];
      ReversedOneMore(front, k);
      assert longer[..|longer| - 1] == front[k - 1..] && shorter[..|shorter| - 1] == front[k..];
    }
  }

  lemma {:induction false} ReversedKeepsAll(cs: seq<Conversation>)
    ensures multiset(Reversed(cs)) == multiset(cs) && |Reversed(cs)| == |cs|
  {
    if cs != [] {
      ReversedKeepsAll(cs[..|cs| - 1]);
      assert cs == cs[..|cs| - 1] + [cs[|cs| - 1]];
    }
  }

  /** Whatever is in the back of the sorted list is no more recent than what is in its front. */
  lemma BackIsOlder(sorted: seq<Conversation>, k: nat, c: Conversation, d: Conversation)
    requires Descending(sorted) && k <= |sorted| && c in sorted[k..] && d in sorted[..k]
    ensures LastUpdatedAtKey(c) <= LastUpdatedAtKey(d)
  {
    var i :| 0 <= i < |sorted| - k && sorted[k..][i] == c;
    var j :| 0 <= j < k && sorted[..k][j] == d;
    assert sorted[k + i] == c && sorted[j] == d;
  }

  /**
   Main result: with a limit of at least one, n >= limit running conversations lose exactly n - limit + 1, fewer
   than the limit stay, and none that is closed is more recent than one that stays.
   */
  lemma ClosesTheOldest(listed: seq<Conversation>, limit: nat)
    requires 1 <= limit <= |listed|
    ensures var k := Kept(|listed|, limit);
            var closed, left := Reversed(NewestFirst(listed)[k..]), NewestFirst(listed)[..k];
            && |closed| == |listed| - limit + 1 && |left| < limit
            && multiset(closed) + multiset(left) == multiset(listed)
            && forall c, d | c in closed && d in left :: NoLater(c, d)
  {
    hide NewestFirst, Descending, Reversed;
    NewestFirstSorts(listed);
    var sorted, k := NewestFirst(listed), Kept(|listed|, limit);
    ReversedKeepsAll(sorted[k..]);
    assert sorted == sorted[..k] + sorted[k..];
    forall c, d | c in Reversed(sorted[k..]) && d in sorted[..k] ensures NoLater(c, d) {
      assert c in multiset(Reversed(sorted[k..]));
      BackIsOlder(sorted, k, c, d);
    }
  }

  /** Without one everything is closed, and then the call fails on the empty list. */
  lemma NoLimitClosesAll(listed: seq<Conversation>, limit: int)
    requires limit <= 0
    ensures multiset(Reversed(NewestFirst(listed)[Kept(|listed|, limit)..])) == multiset(listed)
  {
    NewestFirstSorts(listed);
    ReversedKeepsAll(NewestFirst(listed));
    assert NewestFirst(listed)[0..] == NewestFirst(listed);
  }
}
