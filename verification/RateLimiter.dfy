/** The gateway's per-client rate limiter (`RateLimiter.allow`): a pruned, evicting table of deques. */
module RateLimiter {
  import opened Prelude

  type Client = string

  /** Every call ever allowed, oldest first. */
  type Log = seq<(Client, int)>

  function Times(log: Log, client: Client): seq<int>
  {
    if log == [] then []
    else
      var init, last := Times(log[..|log| - 1], client), log[|log| - 1];
      if last.0 == client then init + [last.1] else init
  }

  /** The client's allowed calls after `cutoff`. */
  function Live(log: Log, client: Client, cutoff: int): seq<int>
  {
    Since(Times(log, client), cutoff + 1)
  }

  function LiveClients(log: Log, cutoff: int): set<Client>
  {
    set i | 0 <= i < |log| && log[i].1 > cutoff :: log[i].0
  }

  /** The decision a limiter that never forgets would make. */
  predicate Admits(log: Log, client: Client, now: int, limit: int, window: int, clientLimit: int)
  {
    var live := Live(log, client, now - window);
    |live| < limit && (live != [] || |LiveClients(log, now - window)| < clientLimit)
  }

  /** The client's calls in the window. */
  ghost function Calls(log: Log, client: Client, cutoff: int): set<int>
  {
    set i | 0 <= i < |log| && log[i].0 == client && log[i].1 > cutoff
  }

  lemma {:induction false} LiveCalls(log: Log, client: Client, cutoff: int)
    ensures |Live(log, client, cutoff)| == |Calls(log, client, cutoff)|
  {
    if log != [] {
      var n := |log| - 1;
      var e := log[n];
      LiveCalls(log[..n], client, cutoff);
      if e.0 == client { SinceAppend(Times(log[..n], client), e.1, cutoff + 1); }
      assert Calls(log, client, cutoff) ==
        Calls(log[..n], client, cutoff) + if e.0 == client && e.1 > cutoff then {n} else {};
    }
  }

  /**
   * A call is admitted exactly when its client has fewer than `limit` calls in the window, and has one there
   * or finds fewer than `clientLimit` clients with calls there.
   */
  lemma AdmitsExactly(log: Log, client: Client, now: int, limit: int, window: int, clientLimit: int)
    ensures Admits(log, client, now, limit, window, clientLimit) <==>
      && |Calls(log, client, now - window)| < limit
      && (|Calls(log, client, now - window)| > 0 ||
          |set i | 0 <= i < |log| && now - log[i].1 < window :: log[i].0| < clientLimit)
  {
    LiveCalls(log, client, now - window);
    assert LiveClients(log, now - window) == set i | 0 <= i < |log| && now - log[i].1 < window :: log[i].0;
  }

  lemma TimesAppend(log: Log, e: (Client, int), client: Client)
    ensures Times(log + [e], client) == Times(log, client) + if e.0 == client then [e.1] else []
  {
    assert (log + [e])[..|log|] == log;
  }

  lemma {:induction false} TimesMember(log: Log, client: Client, t: int)
    ensures t in Times(log, client) <==> (client, t) in log
  {
    if log != [] {
      TimesMember(log[..|log| - 1], client, t);
      assert log == log[..|log| - 1] + [log[|log| - 1]];
    }
  }

  /** A client is live exactly when it has a live call. */
  lemma LiveMember(log: Log, client: Client, cutoff: int)
    ensures client in LiveClients(log, cutoff) <==> Live(log, client, cutoff) != []
    ensures client in LiveClients(log, cutoff) <==> exists t :: t in Times(log, client) && t > cutoff
  {
    if client in LiveClients(log, cutoff) {
      var i :| 0 <= i < |log| && log[i].1 > cutoff && log[i].0 == client;
      TimesMember(log, client, log[i].1);
      SinceMembers(Times(log, client), cutoff + 1, log[i].1);
    }
    if t :| t in Times(log, client) && t > cutoff {
      TimesMember(log, client, t);
      SinceMembers(Times(log, client), cutoff + 1, t);
    }
    if Live(log, client, cutoff) != [] {
      SinceMembers(Times(log, client), cutoff + 1, Live(log, client, cutoff)[0]);
    }
  }

  lemma {:induction false} TimesOrdered(log: Log, client: Client, clock: int)
    requires InTimeOrder(log, clock)
    ensures Nondecreasing(Times(log, client))
    ensures forall i :: 0 <= i < |Times(log, client)| ==> Times(log, client)[i] <= clock
  {
    if log != [] {
      var last := log[|log| - 1];
      TimesOrdered(log[..|log| - 1], client, last.1);
    }
  }

  ghost predicate InTimeOrder(log: Log, clock: int)
  {
    && (forall i, j :: 0 <= i < j < |log| ==> log[i].1 <= log[j].1)
    && (forall i :: 0 <= i < |log| ==> log[i].1 <= clock)
  }

  /** A deque holds the recent end of its client's calls; everything dropped is past `cutoff`. */
  ghost predicate Tail(events: seq<int>, times: seq<int>, cutoff: int)
  {
    exists k :: Dropped(events, times, cutoff, k)
  }

  ghost predicate Dropped(events: seq<int>, times: seq<int>, cutoff: int, k: int)
  {
    0 <= k <= |times| && events == times[k..] && forall i :: 0 <= i < k ==> times[i] <= cutoff
  }

  /** Pruning the deque finds exactly the live calls. */
  lemma TailPrune(events: seq<int>, times: seq<int>, cutoff: int, k: nat)
    requires Nondecreasing(times) && Tail(events, times, cutoff) && k <= |events|
    requires forall i :: 0 <= i < k ==> events[i] <= cutoff
    requires k < |events| ==> events[k] > cutoff
    ensures events[k..] == Since(times, cutoff + 1) && Tail(events[k..], times, cutoff)
  {
    var d :| Dropped(events, times, cutoff, d);
    DropMore(events, times, cutoff, d, k);
    assert k < |events| ==> times[d + k] == events[k];
    SinceSuffix(times, cutoff + 1, d + k);
  }

  lemma DropMore(events: seq<int>, times: seq<int>, cutoff: int, d: int, k: nat)
    requires Dropped(events, times, cutoff, d) && k <= |events|
    requires forall i :: 0 <= i < k ==> events[i] <= cutoff
    ensures Dropped(events[k..], times, cutoff, d + k)
  {
    assert events[k..] == times[d + k..];
    forall i | 0 <= i < d + k ensures times[i] <= cutoff {
      if d <= i { assert times[i] == events[i - d]; }
    }
  }

  lemma SubsetSize(a: set<Client>, b: set<Client>)
    requires a <= b
    ensures |a| <= |b|
  {
    assert b == a + (b - a);
  }

  lemma TailLast(events: seq<int>, times: seq<int>, cutoff: int)
    requires Nondecreasing(times) && Tail(events, times, cutoff)
    ensures (exists t :: t in times && t > cutoff) <==> events != [] && events[|events| - 1] > cutoff
  {
    var k :| Dropped(events, times, cutoff, k);
    if events != [] {
      assert events[|events| - 1] == times[|times| - 1];
      assert times[|times| - 1] in times;
    }
  }

  /** The last call of a deque decides whether its client is live. */
  lemma LastDecides(log: Log, client: Client, events: seq<int>, clock: int, cutoff: int)
    requires InTimeOrder(log, clock) && Tail(events, Times(log, client), cutoff)
    ensures client in LiveClients(log, cutoff) <==> events != [] && events[|events| - 1] > cutoff
  {
    TimesOrdered(log, client, clock);
    LiveMember(log, client, cutoff);
    TailLast(events, Times(log, client), cutoff);
  }

  lemma NotLive(times: seq<int>, cutoff: int)
    requires forall i :: 0 <= i < |times| ==> times[i] <= cutoff
    ensures Tail([], times, cutoff)
  {
    assert Dropped([], times, cutoff, |times|);
  }

  /** Each tracked client has a deque of its recent calls; an untracked client has no live call. */
  ghost predicate Remembers(events: map<Client, seq<int>>, log: Log, cutoff: int)
  {
    forall c :: Recalls(events, log, cutoff, c)
  }

  ghost predicate Recalls(events: map<Client, seq<int>>, log: Log, cutoff: int, c: Client)
  {
    if c in events then events[c] != [] && Tail(events[c], Times(log, c), cutoff)
    else Tail([], Times(log, c), cutoff)
  }

  lemma RemembersLater(events: map<Client, seq<int>>, log: Log, cutoff: int, later: int)
    requires Remembers(events, log, cutoff) && cutoff <= later
    ensures Remembers(events, log, later)
  {
    forall c ensures Recalls(events, log, later, c) {
      assert Recalls(events, log, cutoff, c);
      var held, times := if c in events then events[c] else [], Times(log, c);
      var k :| Dropped(held, times, cutoff, k);
      assert Dropped(held, times, later, k);
    }
  }

  /** Live clients are tracked, so an admissible request finds room for the live ones and its own. */
  lemma LiveFits(events: map<Client, seq<int>>, log: Log, clock: int, cutoff: int, client: Client, clientLimit: int)
    requires Remembers(events, log, cutoff) && InTimeOrder(log, clock)
    requires client in events || |events| < clientLimit
    requires |events| <= Max(0, clientLimit)
    ensures Live(log, client, cutoff) != [] || |LiveClients(log, cutoff)| < clientLimit
  {
    LiveMember(log, client, cutoff);
    var live := LiveClients(log, cutoff);
    forall c | c in live ensures c in events {
      assert Recalls(events, log, cutoff, c);
      LastDecides(log, c, if c in events then events[c] else [], clock, cutoff);
    }
    if client !in live {
      SubsetSize(live, events.Keys - {client});
      assert |events.Keys| == |events|;
    }
  }

  /** A pruned deque that still has a call is as good as the one it replaces. */
  lemma RemembersPruned(events: map<Client, seq<int>>, log: Log, cutoff: int, client: Client, deque: seq<int>)
    requires Remembers(events, log, cutoff) && deque != [] && Tail(deque, Times(log, client), cutoff)
    ensures Remembers(events[client := deque], log, cutoff)
  {
    var after := events[client := deque];
    forall c ensures Recalls(after, log, cutoff, c) { assert Recalls(events, log, cutoff, c); }
  }

  /** Recording an allowed call keeps every client's deque. */
  lemma RemembersCall(events: map<Client, seq<int>>, log: Log, cutoff: int, client: Client, now: int, deque: seq<int>)
    requires Remembers(events, log, cutoff) && Tail(deque, Times(log, client), cutoff)
    ensures Remembers(events[client := deque + [now]], log + [(client, now)], cutoff)
  {
    var after := events[client := deque + [now]];
    forall c ensures Recalls(after, log + [(client, now)], cutoff, c) {
      TimesAppend(log, (client, now), c);
      assert Recalls(events, log, cutoff, c);
      if c == client {
        var times := Times(log, c);
        var k :| Dropped(deque, times, cutoff, k);
        assert Dropped(deque + [now], times + [now], cutoff, k);
      }
    }
  }

  /** The clients whose last call is after `cutoff`, with their deques. */
  function Evicted(events: map<Client, seq<int>>, cutoff: int): map<Client, seq<int>>
  {
    map c | c in events && events[c] != [] && events[c][|events[c]| - 1] > cutoff :: events[c]
  }

  /** Eviction keeps exactly the live clients and forgets no live call. */
  lemma EvictedIsLive(events: map<Client, seq<int>>, log: Log, clock: int, cutoff: int)
    requires Remembers(events, log, cutoff) && InTimeOrder(log, clock)
    ensures Evicted(events, cutoff).Keys == LiveClients(log, cutoff)
    ensures Remembers(Evicted(events, cutoff), log, cutoff)
    ensures |Evicted(events, cutoff)| <= |events|
  {
    var after := Evicted(events, cutoff);
    forall c ensures c in after <==> c in LiveClients(log, cutoff) {
      assert Recalls(events, log, cutoff, c);
      LastDecides(log, c, if c in events then events[c] else [], clock, cutoff);
    }
    forall c ensures Recalls(after, log, cutoff, c) {
      assert Recalls(events, log, cutoff, c);
      if c !in after {
        LiveMember(log, c, cutoff);
        forall i | 0 <= i < |Times(log, c)| ensures Times(log, c)[i] <= cutoff {
          assert Times(log, c)[i] in Times(log, c);
        }
        NotLive(Times(log, c), cutoff);
      }
    }
    SubsetSize(after.Keys, events.Keys);
    assert |after| == |after.Keys| && |events| == |events.Keys|;
  }

  lemma RemembersNothing(cutoff: int)
    ensures Remembers(map[], [], cutoff)
  {
    forall c ensures Recalls(map[], [], cutoff, c) { NotLive([], cutoff); }
  }

  class Limiter {
    const limit: int
    const window: int
    const clientLimit: int
    var events: map<Client, seq<int>>

    ghost var log: Log
    ghost var clock: int

    /** No live call is ever forgotten, and the table stays within its bound. */
    ghost predicate Valid()
      reads this
    {
      && limit >= 1 && |events| <= Max(0, clientLimit)
      && InTimeOrder(log, clock) && Remembers(events, log, clock - window)
    }

    constructor (limit: int, window: int, clientLimit: int, now: int)
      requires limit >= 1
      ensures Valid() && log == [] && clock == now
      ensures this.limit == limit && this.window == window && this.clientLimit == clientLimit
    {
      this.limit, this.window, this.clientLimit := limit, window, clientLimit;
      events, log, clock := map[], [], now;
      RemembersNothing(now - window);
    }

    /** Pop the expired calls off a deque. */
    static method Prune(events: seq<int>, cutoff: int) returns (live: seq<int>, ghost k: nat)
      ensures k <= |events| && live == events[k..]
      ensures forall i :: 0 <= i < k ==> events[i] <= cutoff
      ensures live != [] ==> live[0] > cutoff
    {
      live, k := events, 0;
      while live != [] && live[0] <= cutoff
        invariant k <= |events| && live == events[k..]
        invariant forall i :: 0 <= i < k ==> events[i] <= cutoff
        decreases |live|
      {
        live, k := live[1..], k + 1;
      }
    }

    /** The live calls of a client, as the table has them. */
    method LiveDeque(client: Client, cutoff: int) returns (deque: seq<int>)
      requires InTimeOrder(log, clock) && Recalls(events, log, cutoff, client)
      ensures deque == Live(log, client, cutoff) && Tail(deque, Times(log, client), cutoff)
    {
      var held := if client in events then events[client] else [];
      ghost var k;
      deque, k := Prune(held, cutoff);
      TimesOrdered(log, client, clock);
      TailPrune(held, Times(log, client), cutoff, k);
    }

    /** Answer a client that is tracked or for whom the table has room. */
    method Admit(client: Client, now: int) returns (ok: bool)
      requires Valid() && clock == now
      requires client in events || |events| < clientLimit
      modifies this`events, this`log
      ensures Valid()
      ensures ok <==> |Live(old(log), client, now - window)| < limit
      ensures log == old(log) + if ok then [(client, now)] else []
    {
      var cutoff := now - window;
      assert Recalls(events, log, cutoff, client);
      var deque := LiveDeque(client, cutoff);
      ok := |deque| < limit;
      if ok {
        RemembersCall(events, log, cutoff, client, now, deque);
        events := events[client := deque + [now]];
        log := log + [(client, now)];
      } else {
        RemembersPruned(events, log, cutoff, client, deque);
        events := events[client := deque];
      }
    }

    /** For nondecreasing times the table answers exactly as the complete log would. */
    method Allow(client: Client, now: int) returns (ok: bool)
      requires Valid() && clock <= now
      modifies this
      ensures Valid() && clock == now
      ensures ok <==> Admits(old(log), client, now, limit, window, clientLimit)
      ensures log == old(log) + if ok then [(client, now)] else []
    {
      var cutoff := now - window;
      RemembersLater(events, log, clock - window, cutoff);
      clock := now;
      if client !in events && |events| >= clientLimit {
        assert Recalls(events, log, cutoff, client);
        LastDecides(log, client, [], now, cutoff);
        LiveMember(log, client, cutoff);
        EvictedIsLive(events, log, now, cutoff);
        events := Evicted(events, cutoff);
        assert |events| == |events.Keys|;
        if |events| >= clientLimit { return false; }
      }
      LiveFits(events, log, now, cutoff, client, clientLimit);
      ok := Admit(client, now);
    }
  }

  datatype Call = Call(client: Client, now: int)

  /** The complete log a limiter that never forgets would have after these calls. */
  function Ideal(calls: seq<Call>, limit: int, window: int, clientLimit: int): Log
  {
    if calls == [] then []
    else
      var log, c := Ideal(calls[..|calls| - 1], limit, window, clientLimit), calls[|calls| - 1];
      if Admits(log, c.client, c.now, limit, window, clientLimit) then log + [(c.client, c.now)] else log
  }

  predicate Answers(calls: seq<Call>, i: nat, limit: int, window: int, clientLimit: int)
    requires i < |calls|
  {
    Admits(Ideal(calls[..i], limit, window, clientLimit), calls[i].client, calls[i].now, limit, window, clientLimit)
  }

  lemma IdealStep(calls: seq<Call>, i: nat, limit: int, window: int, clientLimit: int)
    requires i < |calls|
    ensures Ideal(calls[..i + 1], limit, window, clientLimit) ==
      Ideal(calls[..i], limit, window, clientLimit)
      + if Answers(calls, i, limit, window, clientLimit) then [(calls[i].client, calls[i].now)] else []
  {
    assert calls[..i + 1][..i] == calls[..i];
  }

  ghost predicate Answered(calls: seq<Call>, answers: seq<bool>, limit: int, window: int, clientLimit: int)
  {
    && |answers| <= |calls|
    && forall i :: 0 <= i < |answers| ==> answers[i] == Answers(calls, i, limit, window, clientLimit)
  }

  /** Over any run of calls at nondecreasing times, every answer is the one the complete log gives. */
  method Serve(calls: seq<Call>, limit: int, window: int, clientLimit: int) returns (answers: seq<bool>)
    requires limit >= 1
    requires forall i, j :: 0 <= i < j < |calls| ==> calls[i].now <= calls[j].now
    ensures |answers| == |calls| && Answered(calls, answers, limit, window, clientLimit)
  {
    answers := [];
    if calls == [] { return; }
    var limiter := new Limiter(limit, window, clientLimit, calls[0].now);
    for i := 0 to |calls|
      invariant fresh(limiter) && limiter.Valid()
      invariant limiter.limit == limit && limiter.window == window && limiter.clientLimit == clientLimit
      invariant i < |calls| ==> limiter.clock <= calls[i].now
      invariant limiter.log == Ideal(calls[..i], limit, window, clientLimit)
      invariant |answers| == i && Answered(calls, answers, limit, window, clientLimit)
    {
      IdealStep(calls, i, limit, window, clientLimit);
      var ok := limiter.Allow(calls[i].client, calls[i].now);
      answers := answers + [ok];
    }
  }
}
