/** The gateway's in-flight slots (`InflightLimiter`) and the discipline of `do_POST` around them. */
module Inflight {
  import opened Prelude

  type Client = string

  datatype Slots = Slots(total: int, perClient: map<Client, int>)

  datatype Scope = Total | PerClient

  function Held(perClient: map<Client, int>, client: Client): int
  {
    if client in perClient then perClient[client] else 0
  }

  function Exhausted(s: Slots, client: Client, totalLimit: int, clientLimit: int): Option<Scope>
  {
    if s.total >= totalLimit then Some(Total)
    else if Held(s.perClient, client) >= clientLimit then Some(PerClient)
    else None
  }

  function Taken(s: Slots, client: Client): Slots
  {
    Slots(s.total + 1, s.perClient[client := Held(s.perClient, client) + 1])
  }

  function Released(s: Slots, client: Client): Slots
  {
    var remaining := Held(s.perClient, client) - 1;
    Slots(Max(0, s.total - 1),
          if remaining > 0 then s.perClient[client := remaining] else s.perClient - {client})
  }

  class InflightLimiter {
    const totalLimit: int
    const clientLimit: int
    var total: int
    var perClient: map<Client, int>

    function Value(): Slots reads this { Slots(total, perClient) }

    constructor (totalLimit: int, clientLimit: int)
      ensures this.totalLimit == totalLimit && this.clientLimit == clientLimit && Value() == Slots(0, map[])
    {
      this.totalLimit, this.clientLimit := totalLimit, clientLimit;
      total, perClient := 0, map[];
    }

    method Acquire(client: Client) returns (exhausted: Option<Scope>)
      modifies this
      ensures exhausted == Exhausted(old(Value()), client, totalLimit, clientLimit)
      ensures Value() == if exhausted.None? then Taken(old(Value()), client) else old(Value())
    {
      if total >= totalLimit { return Some(Total); }
      var held := if client in perClient then perClient[client] else 0;
      if held >= clientLimit { return Some(PerClient); }
      total := total + 1;
      perClient := perClient[client := held + 1];
      exhausted := None;
    }

    method Release(client: Client)
      modifies this
      ensures Value() == Released(old(Value()), client)
    {
      total := if total - 1 > 0 then total - 1 else 0;
      var remaining := (if client in perClient then perClient[client] else 0) - 1;
      if remaining > 0 {
        perClient := perClient[client := remaining];
      } else {
        perClient := perClient - {client};
      }
    }
  }

  // ---- every interleaving of handlers ----

  /** A handler arrives for a client, or finishes and releases in its `finally`. */
  datatype Step = Arrive(handler: nat, client: Client) | Leave(handler: nat)

  /** The slots, and the handlers now inside `handle_submit` with the client each serves. */
  datatype World = World(slots: Slots, serving: map<nat, Client>)

  function Next(w: World, step: Step, totalLimit: int, clientLimit: int): World
  {
    match step
    case Arrive(h, client) =>
      if h in w.serving || Exhausted(w.slots, client, totalLimit, clientLimit).Some? then w
      else World(Taken(w.slots, client), w.serving[h := client])
    case Leave(h) =>
      if h !in w.serving then w
      else World(Released(w.slots, w.serving[h]), w.serving - {h})
  }

  function Run(steps: seq<Step>, totalLimit: int, clientLimit: int): World
  {
    if steps == [] then World(Slots(0, map[]), map[])
    else Next(Run(steps[..|steps| - 1], totalLimit, clientLimit), steps[|steps| - 1], totalLimit, clientLimit)
  }

  /** The handlers serving one client. */
  function Serving(serving: map<nat, Client>, client: Client): set<nat>
  {
    set h | h in serving && serving[h] == client
  }

  /** Sum of a table's values. */
  ghost function Sum(m: map<Client, int>): int
    decreases |m|
  {
    if m == map[] then 0
    else
      var c :| c in m;
      m[c] + Sum(m - {c})
  }

  /** The sum does not depend on which entry is taken out first. */
  lemma {:induction false} SumWithout(m: map<Client, int>, c: Client)
    requires c in m
    ensures Sum(m) == m[c] + Sum(m - {c})
    decreases |m|
  {
    var d :| d in m && Sum(m) == m[d] + Sum(m - {d});
    if d != c {
      SumWithout(m - {d}, c);
      SumWithout(m - {c}, d);
      assert m - {d} - {c} == m - {c} - {d};
    }
  }

  lemma SumUpdate(m: map<Client, int>, c: Client, v: int)
    ensures Sum(m[c := v]) == Sum(m) - Held(m, c) + v
    ensures Sum(m - {c}) == Sum(m) - Held(m, c)
  {
    SumWithout(m[c := v], c);
    assert m[c := v] - {c} == m - {c};
    if c in m {
      SumWithout(m, c);
    } else {
      assert m - {c} == m;
    }
  }

  /** Each client's entry is the number of its handlers inside. */
  ghost predicate Attributed(perClient: map<Client, int>, serving: map<nat, Client>)
  {
    forall c :: Held(perClient, c) == |Serving(serving, c)|
  }

  ghost predicate Conserved(w: World, totalLimit: int, clientLimit: int)
  {
    && w.slots.total == Sum(w.slots.perClient) == |w.serving|
    && w.slots.total <= Max(0, totalLimit)
    && (forall c :: c in w.slots.perClient ==> 1 <= w.slots.perClient[c] <= clientLimit)
    && Attributed(w.slots.perClient, w.serving)
  }

  lemma ServingArrival(serving: map<nat, Client>, h: nat, client: Client, c: Client)
    requires h !in serving
    ensures |Serving(serving[h := client], c)| == |Serving(serving, c)| + if c == client then 1 else 0
  {
    assert Serving(serving[h := client], c) == Serving(serving, c) + if c == client then {h} else {};
  }

  lemma AttributedArrival(perClient: map<Client, int>, serving: map<nat, Client>, h: nat, client: Client)
    requires Attributed(perClient, serving) && h !in serving
    ensures Attributed(perClient[client := Held(perClient, client) + 1], serving[h := client])
  {
    var after := perClient[client := Held(perClient, client) + 1];
    forall c ensures Held(after, c) == |Serving(serving[h := client], c)| {
      ServingArrival(serving, h, client, c);
      assert Held(perClient, c) == |Serving(serving, c)|;
    }
  }

  lemma AttributedDeparture(perClient: map<Client, int>, after: map<Client, int>, serving: map<nat, Client>, h: nat)
    requires Attributed(perClient, serving) && h in serving
    requires forall c :: Held(after, c) == Held(perClient, c) - if c == serving[h] then 1 else 0
    ensures Attributed(after, serving - {h}) && Held(perClient, serving[h]) >= 1
  {
    forall c ensures Held(after, c) == |Serving(serving - {h}, c)| {
      assert Held(perClient, c) == |Serving(serving, c)|;
      assert Serving(serving - {h}, c) == Serving(serving, c) - {h};
      assert h in Serving(serving, c) <==> c == serving[h];
    }
    assert Held(after, serving[h]) == |Serving(serving - {h}, serving[h])|;
  }

  lemma {:induction false} ArriveKeeps(w: World, h: nat, client: Client, totalLimit: int, clientLimit: int)
    requires Conserved(w, totalLimit, clientLimit)
    ensures Conserved(Next(w, Arrive(h, client), totalLimit, clientLimit), totalLimit, clientLimit)
  {
    if h !in w.serving && Exhausted(w.slots, client, totalLimit, clientLimit).None? {
      SumUpdate(w.slots.perClient, client, Held(w.slots.perClient, client) + 1);
      AttributedArrival(w.slots.perClient, w.serving, h, client);
    }
  }

  /** A release gives back the handler's own slot; its clamp at zero never takes effect. */
  lemma {:induction false} LeaveKeeps(w: World, h: nat, totalLimit: int, clientLimit: int)
    requires Conserved(w, totalLimit, clientLimit) && h in w.serving
    ensures w.slots.total - 1 >= 0 && Held(w.slots.perClient, w.serving[h]) >= 1
    ensures Next(w, Leave(h), totalLimit, clientLimit).serving == w.serving - {h}
    ensures Conserved(Next(w, Leave(h), totalLimit, clientLimit), totalLimit, clientLimit)
  {
    var client, perClient := w.serving[h], w.slots.perClient;
    var after := Released(w.slots, client).perClient;
    assert w.serving.Keys == (w.serving - {h}).Keys + {h};
    assert Held(perClient, client) >= 1 by {
      assert Held(perClient, client) == |Serving(w.serving, client)|;
      assert h in Serving(w.serving, client);
    }
    AttributedDeparture(perClient, after, w.serving, h);
    SumUpdate(perClient, client, Held(perClient, client) - 1);
  }

  /** In every interleaving of handlers the slots in use are exactly those the handlers hold. */
  lemma {:induction false} EveryRun(steps: seq<Step>, totalLimit: int, clientLimit: int)
    ensures Conserved(Run(steps, totalLimit, clientLimit), totalLimit, clientLimit)
  {
    if steps != [] {
      var w, step := Run(steps[..|steps| - 1], totalLimit, clientLimit), steps[|steps| - 1];
      EveryRun(steps[..|steps| - 1], totalLimit, clientLimit);
      match step
      case Arrive(h, client) => ArriveKeeps(w, h, client, totalLimit, clientLimit);
      case Leave(h) => if h in w.serving { LeaveKeeps(w, h, totalLimit, clientLimit); }
    }
  }

  /**
   * In every interleaving an arriving handler is admitted exactly when fewer handlers than each cap are
   * inside: in all, and of its own client.
   */
  lemma AdmittedExactly(steps: seq<Step>, totalLimit: int, clientLimit: int, h: nat, client: Client)
    requires h !in Run(steps, totalLimit, clientLimit).serving
    ensures var w := Run(steps, totalLimit, clientLimit);
      Run(steps + [Arrive(h, client)], totalLimit, clientLimit).serving ==
        if |w.serving| < totalLimit && |Serving(w.serving, client)| < clientLimit then w.serving[h := client]
        else w.serving
  {
    assert (steps + [Arrive(h, client)])[..|steps|] == steps;
    EveryRun(steps, totalLimit, clientLimit);
    var w := Run(steps, totalLimit, clientLimit);
    assert Held(w.slots.perClient, client) == |Serving(w.serving, client)|;
  }

  /** When every handler has finished, nothing is held: no slot leaks. */
  lemma NoLeak(steps: seq<Step>, totalLimit: int, clientLimit: int)
    requires Run(steps, totalLimit, clientLimit).serving == map[]
    ensures Run(steps, totalLimit, clientLimit).slots == Slots(0, map[])
  {
    EveryRun(steps, totalLimit, clientLimit);
    var w := Run(steps, totalLimit, clientLimit);
    forall c ensures c !in w.slots.perClient {
      assert Held(w.slots.perClient, c) == |Serving(w.serving, c)|;
      assert Serving(w.serving, c) == {};
    }
  }
}
