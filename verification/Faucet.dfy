/**
 * The NU7 faucet's claims table: the quotas `reserve` enforces in one transaction per request, and the
 * queue `process_next` drains. Rows are numbered in insertion order; a claim's primary key names its row.
 */
module Faucet {
  import opened Prelude

  const PAYOUT_ZAT := 10_000_000
  const DAILY_CAP_ZAT := 1_000_000_000
  const COOLDOWN := 86_400
  const IP_CLAIMS_PER_DAY := 2
  const MAX_QUEUE := 10
  const MIN_SPACING := 30
  const DAY := 86_400

  datatype Status = Queued | Processing | Sent | Review

  datatype Claim = Claim(address: string, ip: string, createdAt: int, status: Status, txid: Option<string>)

  type Table = seq<Claim>

  predicate Pending(c: Claim) { c.status.Queued? || c.status.Processing? }

  /** SELECT COUNT(*) ... WHERE p. */
  function Count(t: Table, p: Claim -> bool): nat
  {
    if t == [] then 0 else Count(t[..|t| - 1], p) + if p(t[|t| - 1]) then 1 else 0
  }

  /** Changing one row changes a count by at most that row. */
  lemma {:induction false} CountUpdate(t: Table, i: nat, c: Claim, p: Claim -> bool)
    requires i < |t|
    ensures Count(t[i := c], p) + (if p(t[i]) then 1 else 0) == Count(t, p) + if p(c) then 1 else 0
  {
    var last := |t| - 1;
    if i < last {
      CountUpdate(t[..last], i, c, p);
      assert t[i := c][..last] == t[..last][i := c];
    } else {
      assert t[i := c][..last] == t[..last];
    }
  }

  lemma {:induction false} CountImplies(t: Table, p: Claim -> bool, q: Claim -> bool)
    requires forall i :: 0 <= i < |t| ==> p(t[i]) ==> q(t[i])
    ensures Count(t, p) <= Count(t, q)
  {
    if t != [] { CountImplies(t[..|t| - 1], p, q); }
  }

  lemma {:induction false} CountZero(t: Table, p: Claim -> bool)
    ensures Count(t, p) == 0 <==> forall i :: 0 <= i < |t| ==> !p(t[i])
  {
    if t != [] { CountZero(t[..|t| - 1], p); }
  }

  /** Two distinct rows that satisfy p count for two. */
  lemma {:induction false} CountTwo(t: Table, p: Claim -> bool, i: nat, j: nat)
    requires i < j < |t| && p(t[i]) && p(t[j])
    ensures Count(t, p) >= 2
  {
    var init := t[..|t| - 1];
    if j < |init| {
      CountTwo(init, p, i, j);
    } else {
      CountZero(init, p);
    }
  }

  // ---- reserve ----

  datatype Request = Request(address: string, ip: string, now: int, dayStart: int)

  datatype Refusal = AddressCooldown | IpLimit | DayExhausted | QueueFull | TooSoon

  function ByAddress(address: string, after: int): Claim -> bool
  {
    (c: Claim) => c.address == address && c.createdAt > after
  }

  function ByIp(ip: string, after: int): Claim -> bool
  {
    (c: Claim) => c.ip == ip && c.createdAt > after
  }

  function CreatedFrom(start: int): Claim -> bool { (c: Claim) => c.createdAt >= start }

  /** MAX(created_at) of a table that has rows. */
  function Latest(t: Table): (m: int)
    requires t != []
    ensures forall i :: 0 <= i < |t| ==> t[i].createdAt <= m
    ensures exists i :: 0 <= i < |t| && t[i].createdAt == m
  {
    var last := t[|t| - 1].createdAt;
    if |t| == 1 then last
    else
      var m := Latest(t[..|t| - 1]);
      assert t == t[..|t| - 1] + [t[|t| - 1]];
      Max(m, last)
  }

  /** The first check the transaction fails, in order. */
  function Refused(t: Table, r: Request): Option<Refusal>
  {
    if Count(t, ByAddress(r.address, r.now - COOLDOWN)) > 0 then Some(AddressCooldown)
    else if Count(t, ByIp(r.ip, r.now - COOLDOWN)) >= IP_CLAIMS_PER_DAY then Some(IpLimit)
    else if Count(t, CreatedFrom(r.dayStart)) >= DAILY_CAP_ZAT / PAYOUT_ZAT then Some(DayExhausted)
    else if Count(t, Pending) >= MAX_QUEUE then Some(QueueFull)
    else if t != [] && r.now - Latest(t) < MIN_SPACING then Some(TooSoon)
    else None
  }

  /** The rows that satisfy p. */
  ghost function Rows(t: Table, p: Claim -> bool): set<int> { set i | 0 <= i < |t| && p(t[i]) }

  lemma {:induction false} CountRows(t: Table, p: Claim -> bool)
    ensures Count(t, p) == |Rows(t, p)|
  {
    if t != [] {
      var last := |t| - 1;
      CountRows(t[..last], p);
      assert Rows(t, p) == Rows(t[..last], p) + if p(t[last]) then {last} else {};
    }
  }

  /** A request that a quota stops, on the rows alone. */
  ghost predicate Stops(e: Refusal, t: Table, r: Request)
  {
    match e
    case AddressCooldown => exists i :: 0 <= i < |t| && t[i].address == r.address && r.now - t[i].createdAt < 86400
    case IpLimit => |Rows(t, (c: Claim) => c.ip == r.ip && r.now - c.createdAt < 86400)| >= 2
    case DayExhausted => |Rows(t, (c: Claim) => r.dayStart <= c.createdAt)| >= 100
    case QueueFull => |Rows(t, (c: Claim) => c.status.Queued? || c.status.Processing?)| >= 10
    case TooSoon => exists i :: 0 <= i < |t| && r.now - t[i].createdAt < 30
  }

  lemma CountSame(t: Table, p: Claim -> bool, q: Claim -> bool)
    requires forall i :: 0 <= i < |t| ==> p(t[i]) == q(t[i])
    ensures |Rows(t, p)| == |Rows(t, q)| == Count(t, p)
  {
    CountRows(t, p);
    assert Rows(t, p) == Rows(t, q);
  }

  /** A request is accepted exactly when no quota stops it, and refused by the first that does. */
  lemma RefusedExactly(t: Table, r: Request)
    ensures Refused(t, r) ==
      if Stops(AddressCooldown, t, r) then Some(AddressCooldown)
      else if Stops(IpLimit, t, r) then Some(IpLimit)
      else if Stops(DayExhausted, t, r) then Some(DayExhausted)
      else if Stops(QueueFull, t, r) then Some(QueueFull)
      else if Stops(TooSoon, t, r) then Some(TooSoon)
      else None
  {
    CountZero(t, ByAddress(r.address, r.now - COOLDOWN));
    CountSame(t, ByIp(r.ip, r.now - COOLDOWN), (c: Claim) => c.ip == r.ip && r.now - c.createdAt < 86400);
    CountSame(t, CreatedFrom(r.dayStart), (c: Claim) => r.dayStart <= c.createdAt);
    CountSame(t, Pending, (c: Claim) => c.status.Queued? || c.status.Processing?);
  }

  function Reserved(t: Table, r: Request): Table
  {
    if Refused(t, r).Some? then t else t + [Claim(r.address, r.ip, r.now, Queued, None)]
  }

  // ---- quotas ----

  ghost predicate WellSpaced(t: Table)
  {
    forall i, j :: 0 <= i < j < |t| ==> t[j].createdAt - t[i].createdAt >= MIN_SPACING
  }

  ghost predicate AddressesApart(t: Table)
  {
    forall i, j :: 0 <= i < j < |t| && t[i].address == t[j].address ==>
      t[j].createdAt - t[i].createdAt >= COOLDOWN
  }

  /** Any three claims of one IP span at least a day. */
  ghost predicate IpsApart(t: Table)
  {
    forall i, j, k :: 0 <= i < j < k < |t| && t[i].ip == t[j].ip == t[k].ip ==>
      t[k].createdAt - t[i].createdAt >= COOLDOWN
  }

  ghost predicate Quotas(t: Table)
  {
    WellSpaced(t) && AddressesApart(t) && IpsApart(t) && Count(t, Pending) <= MAX_QUEUE
  }

  lemma ReserveAddress(t: Table, r: Request)
    requires AddressesApart(t) && Refused(t, r).None?
    ensures AddressesApart(Reserved(t, r))
  {
    var p := ByAddress(r.address, r.now - COOLDOWN);
    CountZero(t, p);
    forall i | 0 <= i < |t| && t[i].address == r.address ensures r.now - t[i].createdAt >= COOLDOWN {
      assert !p(t[i]);
    }
  }

  lemma ReserveIp(t: Table, r: Request)
    requires IpsApart(t) && WellSpaced(t) && Refused(t, r).None?
    ensures IpsApart(Reserved(t, r))
  {
    var p := ByIp(r.ip, r.now - COOLDOWN);
    forall i, j | 0 <= i < j < |t| && t[i].ip == t[j].ip == r.ip ensures r.now - t[i].createdAt >= COOLDOWN {
      if r.now - t[i].createdAt < COOLDOWN {
        assert p(t[i]) && p(t[j]);
        CountTwo(t, p, i, j);
      }
    }
  }

  /** Whatever clocks the competing threads read, an accepted reservation keeps every quota. */
  lemma {:induction false} ReserveKeepsQuotas(t: Table, r: Request)
    requires Quotas(t)
    ensures Quotas(Reserved(t, r))
  {
    if Refused(t, r).None? {
      ReserveAddress(t, r);
      ReserveIp(t, r);
    }
  }

  function DayOf(t: int): int { t - t % DAY }

  function InDay(day: int): Claim -> bool { (c: Claim) => day <= c.createdAt < day + DAY }

  /** A day's payouts stay within the cap. */
  ghost predicate WithinCap(t: Table, day: int) { Count(t, InDay(day)) * PAYOUT_ZAT <= DAILY_CAP_ZAT }

  /**
   * An accepted reservation keeps its day within the cap exactly when `day_start` is not after the clock
   * read before it, which a midnight between the two reads can make it, or the day still had room anyway.
   */
  lemma ReserveDayCap(t: Table, r: Request)
    requires Refused(t, r).None? && r.dayStart % DAY == 0
    ensures WithinCap(Reserved(t, r), DayOf(r.now)) <==>
      r.dayStart <= r.now || Count(t, InDay(DayOf(r.now))) < DAILY_CAP_ZAT / PAYOUT_ZAT
  {
    var day := DayOf(r.now);
    if r.dayStart <= r.now {
      assert r.dayStart <= day;
      CountImplies(t, InDay(day), CreatedFrom(r.dayStart));
    }
  }

  lemma OtherDays(t: Table, r: Request, day: int)
    requires day % DAY == 0 && day != DayOf(r.now)
    ensures Count(Reserved(t, r), InDay(day)) == Count(t, InDay(day))
  {
  }

  // ---- the payout queue ----

  /** Row of the queued claim with the least creation time. */
  function Oldest(t: Table): (r: Option<nat>)
    ensures r.Some? ==> r.value < |t| && t[r.value].status.Queued?
    ensures r.Some? ==> forall i :: 0 <= i < |t| && t[i].status.Queued? ==> t[r.value].createdAt <= t[i].createdAt
    ensures r.None? ==> forall i :: 0 <= i < |t| ==> !t[i].status.Queued?
  {
    if t == [] then None
    else
      var last := |t| - 1;
      var best := Oldest(t[..last]);
      if t[last].status.Queued? && (best.None? || t[last].createdAt < t[best.value].createdAt) then Some(last)
      else best
  }

  /** What the sender did: it exited, perhaps printing a transaction id, or could not be run to its end. */
  datatype Outcome = Exit(code: int, txid: Option<string>) | Failed

  function Settle(c: Claim, o: Outcome): Claim
  {
    match o
    case Exit(code, txid) => c.(status := if code == 0 && txid.Some? then Sent else Review, txid := txid)
    case Failed => c.(status := Review, txid := None)
  }

  /** A restart never retries an in-flight send: it goes to review, and every other row stays as it is. */
  function Recovered(t: Table): (r: Table)
    ensures |r| == |t| && forall i :: 0 <= i < |r| ==> !r[i].status.Processing?
    ensures forall i :: 0 <= i < |t| && !t[i].status.Processing? ==> r[i] == t[i]
    ensures forall i :: 0 <= i < |t| && t[i].status.Processing? ==>
      r[i].status.Review? && r[i].createdAt == t[i].createdAt
    ensures Count(r, Pending) <= Count(t, Pending)
  {
    var r := seq(|t|, i requires 0 <= i < |t| => if t[i].status.Processing? then t[i].(status := Review) else t[i]);
    CountPointwise(t, r, Pending);
    r
  }

  class Faucet {
    var claims: Table

    /** The service's start-up transaction on the table it finds. */
    constructor (found: Table)
      ensures claims == Recovered(found) && forall i :: 0 <= i < |claims| ==> !claims[i].status.Processing?
    {
      claims := Recovered(found);
    }

    method Reserve(r: Request) returns (result: Result<nat, Refusal>)
      modifies this
      ensures claims == Reserved(old(claims), r)
      ensures match Refused(old(claims), r) case Some(e) => result == Err(e) case None => result == Ok(|old(claims)|)
    {
      if Count(claims, ByAddress(r.address, r.now - COOLDOWN)) > 0 { return Err(AddressCooldown); }
      if Count(claims, ByIp(r.ip, r.now - COOLDOWN)) >= IP_CLAIMS_PER_DAY { return Err(IpLimit); }
      if Count(claims, CreatedFrom(r.dayStart)) >= DAILY_CAP_ZAT / PAYOUT_ZAT { return Err(DayExhausted); }
      if Count(claims, Pending) >= MAX_QUEUE { return Err(QueueFull); }
      if claims != [] && r.now - Latest(claims) < MIN_SPACING { return Err(TooSoon); }
      claims := claims + [Claim(r.address, r.ip, r.now, Queued, None)];
      result := Ok(|claims| - 1);
    }

    /** Mark the oldest queued claim as processing. */
    method Take() returns (row: Option<nat>)
      modifies this
      ensures row == Oldest(old(claims))
      ensures claims == if row.None? then old(claims)
                        else old(claims)[row.value := old(claims)[row.value].(status := Processing)]
    {
      row := Oldest(claims);
      if row.Some? { claims := claims[row.value := claims[row.value].(status := Processing)]; }
    }

    method Finish(row: nat, o: Outcome)
      requires row < |claims|
      modifies this
      ensures claims == old(claims)[row := Settle(old(claims)[row], o)]
    {
      var status, txid := Review, None;
      if o.Exit? {
        if o.code == 0 && o.txid.Some? { status := Sent; }
        txid := o.txid;
      }
      claims := claims[row := claims[row].(status := status, txid := txid)];
    }
  }

  // ---- every interleaving of requests, workers, crashes and restarts ----

  datatype Worker = Idle | Took(row: nat) | Ran(row: nat, outcome: Outcome)

  datatype Step =
    | Submit(request: Request)
    | Start(worker: nat)                      // take the oldest queued claim
    | Abandon(worker: nat)                    // no credential: the claim stays in processing
    | Invoke(worker: nat, outcome: Outcome)   // run the sender once
    | Store(worker: nat)                      // record its result
    | Crash
    | Restart

  /** `started` and `invoked` record every claim ever taken and every sender run; `results` what it did. */
  datatype World = World(claims: Table, up: bool, workers: map<nat, Worker>,
                         started: seq<nat>, invoked: seq<nat>, results: map<nat, Outcome>)

  function At(w: World, worker: nat): Worker { if worker in w.workers then w.workers[worker] else Idle }

  function Next(w: World, step: Step): World
  {
    if !w.up then
      if step.Restart? then w.(claims := Recovered(w.claims), up := true) else w
    else
      match step
      case Restart => w
      case Crash => w.(up := false, workers := map[])
      case Submit(request) => w.(claims := Reserved(w.claims, request))
      case Start(worker) =>
        var row := Oldest(w.claims);
        if !At(w, worker).Idle? || row.None? then w
        else w.(claims := w.claims[row.value := w.claims[row.value].(status := Processing)],
                workers := w.workers[worker := Took(row.value)], started := w.started + [row.value])
      case Abandon(worker) => if At(w, worker).Took? then w.(workers := w.workers[worker := Idle]) else w
      case Invoke(worker, outcome) =>
        var at := At(w, worker);
        if !at.Took? then w
        else w.(workers := w.workers[worker := Ran(at.row, outcome)], invoked := w.invoked + [at.row],
                results := w.results[at.row := outcome])
      case Store(worker) =>
        var at := At(w, worker);
        if !at.Ran? || at.row >= |w.claims| then w
        else w.(claims := w.claims[at.row := Settle(w.claims[at.row], at.outcome)],
                workers := w.workers[worker := Idle])
  }

  function Run(steps: seq<Step>): World
  {
    if steps == [] then World([], true, map[], [], [], map[])
    else Next(Run(steps[..|steps| - 1]), steps[|steps| - 1])
  }

  /** The claims left the queue in row order: exactly the first |started| rows, one after the other. */
  ghost predicate InTurn(t: Table, started: seq<nat>)
  {
    && |started| <= |t|
    && (forall i :: 0 <= i < |started| ==> started[i] == i)
    && (forall i :: 0 <= i < |t| ==> (t[i].status.Queued? <==> i >= |started|))
  }

  ghost predicate NoRepeats(s: seq<nat>) { forall i, j :: 0 <= i < j < |s| ==> s[i] != s[j] }

  /** The row a worker holds is processing, is nobody else's, and has been sent at most by this worker. */
  ghost predicate Holds(w: World, worker: nat)
  {
    match At(w, worker)
    case Idle => true
    case Took(row) => row < |w.claims| && w.claims[row].status.Processing? && row !in w.invoked
    case Ran(row, o) =>
      && row < |w.claims| && w.claims[row].status.Processing?
      && row in w.invoked && row in w.results && w.results[row] == o
  }

  function Row(x: Worker): Option<nat> { if x.Idle? then None else Some(x.row) }

  ghost predicate Exclusive(w: World)
  {
    forall a: nat, b: nat :: a != b && !At(w, a).Idle? && !At(w, b).Idle? ==> Row(At(w, a)) != Row(At(w, b))
  }

  /** Every sender run was for a claim that has left the queue, and `sent` is backed by exit 0 and a txid. */
  ghost predicate Backed(w: World)
  {
    && (forall r :: r in w.invoked ==> r < |w.started| && r in w.results)
    && (forall i :: 0 <= i < |w.claims| && w.claims[i].status.Sent? ==>
          && i in w.invoked && i in w.results && w.results[i].Exit? && w.results[i].code == 0
          && w.results[i].txid.Some? && w.claims[i].txid == w.results[i].txid)
  }

  ghost predicate Inv(w: World)
  {
    && InTurn(w.claims, w.started) && NoRepeats(w.invoked)
    && (forall a: nat :: Holds(w, a)) && Exclusive(w) && Backed(w)
    && (!w.up ==> w.workers == map[])
  }

  lemma {:induction false} CountPointwise(t: Table, u: Table, p: Claim -> bool)
    requires |t| == |u| && forall i :: 0 <= i < |t| ==> p(u[i]) ==> p(t[i])
    ensures Count(u, p) <= Count(t, p)
  {
    if t != [] { CountPointwise(t[..|t| - 1], u[..|u| - 1], p); }
  }

  /** Status changes that add nothing to the queue keep every quota. */
  lemma StatusKeepsQuotas(t: Table, u: Table)
    requires Quotas(t) && |t| == |u|
    requires forall i :: 0 <= i < |t| ==>
      && u[i].createdAt == t[i].createdAt && u[i].address == t[i].address && u[i].ip == t[i].ip
      && (Pending(u[i]) ==> Pending(t[i]))
    ensures Quotas(u)
  {
    CountPointwise(t, u, Pending);
  }

  /** With insertion times apart, the oldest queued claim is the first row that has not started. */
  lemma {:induction false} OldestIsNext(t: Table, started: seq<nat>)
    requires WellSpaced(t) && InTurn(t, started)
    ensures Oldest(t) == if |started| == |t| then None else Some(|started|)
  {
    if |started| < |t| {
      assert t[|started|].status.Queued?;
    }
  }

  lemma {:induction false} StepKeepsQuotas(w: World, step: Step)
    requires Quotas(w.claims)
    ensures Quotas(Next(w, step).claims)
  {
    if w.up && step.Submit? {
      ReserveKeepsQuotas(w.claims, step.request);
    } else {
      StatusKeepsQuotas(w.claims, Next(w, step).claims);
    }
  }

  /** In every interleaving, whatever clocks the requests read, every quota holds. */
  lemma {:induction false} EveryRunQuotas(steps: seq<Step>)
    ensures Quotas(Run(steps).claims)
  {
    if steps != [] {
      EveryRunQuotas(steps[..|steps| - 1]);
      StepKeepsQuotas(Run(steps[..|steps| - 1]), steps[|steps| - 1]);
    }
  }

  lemma SubmitKeeps(w: World, request: Request)
    requires Inv(w) && w.up
    ensures Inv(Next(w, Submit(request)))
  {
    var w' := Next(w, Submit(request));
    forall a: nat ensures Holds(w', a) && At(w', a) == At(w, a) { assert Holds(w, a); }
  }

  lemma StartKeeps(w: World, worker: nat)
    requires Inv(w) && w.up && WellSpaced(w.claims)
    ensures Inv(Next(w, Start(worker)))
  {
    var w' := Next(w, Start(worker));
    OldestIsNext(w.claims, w.started);
    if w' != w {
      forall a: nat ensures Holds(w', a) { assert Holds(w, a); }
      forall a: nat, b: nat | a != b && !At(w', a).Idle? && !At(w', b).Idle?
        ensures Row(At(w', a)) != Row(At(w', b))
      {
        assert Holds(w, a) && Holds(w, b);
      }
    }
  }

  lemma WorkerKeeps(w: World, step: Step)
    requires Inv(w) && w.up && (step.Abandon? || step.Invoke? || step.Store?)
    ensures Inv(Next(w, step))
  {
    var w' := Next(w, step);
    assert Holds(w, step.worker);
    if w' != w {
      forall a: nat ensures Holds(w', a) { assert Holds(w, a); }
      forall a: nat, b: nat | a != b && !At(w', a).Idle? && !At(w', b).Idle?
        ensures Row(At(w', a)) != Row(At(w', b)) { assert Row(At(w, a)) != Row(At(w, b)); }
    }
  }

  lemma RestartKeeps(w: World)
    requires Inv(w)
    ensures Inv(Next(w, Restart)) && Inv(Next(w, Crash))
  {
    forall a: nat ensures Holds(Next(w, Restart), a) && Holds(Next(w, Crash), a) { assert Holds(w, a); }
  }

  lemma {:induction false} StepKeeps(w: World, step: Step)
    requires Inv(w) && WellSpaced(w.claims)
    ensures Inv(Next(w, step))
  {
    if step.Restart? || step.Crash? {
      RestartKeeps(w);
    } else if w.up {
      match step
      case Submit(request) => SubmitKeeps(w, request);
      case Start(worker) => StartKeeps(w, worker);
      case _ => WorkerKeeps(w, step);
    }
  }

  /**
   * In every interleaving of requests, workers, crashes and restarts, claims start in reservation order,
   * the sender runs at most once per claim, and `sent` means exit 0 with the recorded transaction id.
   */
  lemma {:induction false} EveryRun(steps: seq<Step>)
    ensures Inv(Run(steps))
  {
    if steps != [] {
      EveryRun(steps[..|steps| - 1]);
      EveryRunQuotas(steps[..|steps| - 1]);
      StepKeeps(Run(steps[..|steps| - 1]), steps[|steps| - 1]);
    }
  }

  ghost predicate OnlyForward(before: Claim, after: Claim)
  {
    && (!before.status.Queued? ==> !after.status.Queued?)
    && (before.status.Sent? || before.status.Review? ==> after == before)
  }

  lemma StepOnlyForward(w: World, step: Step, i: nat)
    requires Inv(w) && i < |w.claims|
    ensures i < |Next(w, step).claims| && OnlyForward(w.claims[i], Next(w, step).claims[i])
  {
    if step.Store? { assert Holds(w, step.worker); }
  }

  /** A claim that has left the queue never returns to it, and a settled claim never changes again. */
  lemma {:induction false} NeverRequeued(steps: seq<Step>, n: nat, i: nat)
    requires n <= |steps| && i < |Run(steps[..n]).claims|
    ensures i < |Run(steps).claims| && OnlyForward(Run(steps[..n]).claims[i], Run(steps).claims[i])
    decreases |steps|
  {
    if n == |steps| {
      assert steps[..n] == steps;
    } else {
      var init, step := steps[..|steps| - 1], steps[|steps| - 1];
      assert init[..n] == steps[..n];
      NeverRequeued(init, n, i);
      EveryRun(init);
      StepOnlyForward(Run(init), step, i);
    }
  }

  /** Only a request adds to a day. */
  lemma {:induction false} StepAddsNoDay(w: World, step: Step, day: int)
    requires !w.up || !step.Submit?
    ensures Count(Next(w, step).claims, InDay(day)) <= Count(w.claims, InDay(day))
  {
    CountPointwise(w.claims, Next(w, step).claims, InDay(day));
  }

  /** Each UTC day's payouts stay within the cap when no request's day starts after its first clock read. */
  lemma {:induction false} EveryDayWithinCap(steps: seq<Step>, day: int)
    requires day % DAY == 0
    requires forall i :: 0 <= i < |steps| && steps[i].Submit? ==>
      steps[i].request.dayStart % DAY == 0 && steps[i].request.dayStart <= steps[i].request.now
    ensures WithinCap(Run(steps).claims, day)
  {
    if steps != [] {
      var init, step := steps[..|steps| - 1], steps[|steps| - 1];
      var w := Run(init);
      EveryDayWithinCap(init, day);
      EveryRunQuotas(init);
      if w.up && step.Submit? {
        if day == DayOf(step.request.now) {
          if Refused(w.claims, step.request).None? { ReserveDayCap(w.claims, step.request); }
        } else {
          OtherDays(w.claims, step.request, day);
        }
      } else {
        StepAddsNoDay(w, step, day);
      }
    }
  }

  // ---- a claim across midnight ----

  function Letters(n: nat): (s: string)
    ensures |s| == n
  {
    if n == 0 then "" else Letters(n - 1) + "a"
  }

  const PAID := Exit(0, Some("txid"))

  /** n claims of n people, thirty seconds apart from the start of day zero, all paid. */
  function Busy(n: nat): (t: Table)
    ensures |t| == n
    ensures forall i :: 0 <= i < n ==> t[i].createdAt == 30 * i && t[i].status.Sent? && |t[i].address| == |t[i].ip| == i
  {
    if n == 0 then []
    else Busy(n - 1) + [Settle(Claim(Letters(n - 1), Letters(n - 1), 30 * (n - 1), Queued, None), PAID)]
  }

  /** The requests and the worker's steps that fill the table so. */
  function BusySteps(n: nat): seq<Step>
  {
    if n == 0 then []
    else BusySteps(n - 1) + [Submit(Morning(n - 1))] + [Start(0)] + [Invoke(0, PAID)] + [Store(0)]
  }

  function Morning(i: nat): Request { Request(Letters(i), Letters(i), 30 * i, 0) }

  lemma {:induction false} BusyCounts(n: nat, name: string, after: int)
    requires n <= 100 && |name| >= n
    ensures Count(Busy(n), InDay(0)) == n && Count(Busy(n), CreatedFrom(0)) == n
    ensures Count(Busy(n), CreatedFrom(DAY)) == 0
    ensures Count(Busy(n), Pending) == 0
    ensures Count(Busy(n), ByAddress(name, after)) == 0 && Count(Busy(n), ByIp(name, after)) == 0
  {
    if n > 0 {
      BusyCounts(n - 1, name, after);
      assert Busy(n)[..n - 1] == Busy(n - 1);
    }
  }

  /** A newcomer is accepted after a busy morning while the day counted from `dayStart` has room. */
  lemma BusyAccepts(n: nat, r: Request)
    requires n <= 100 && r.address == r.ip && |r.address| >= n && r.now >= 30 * n
    requires r.dayStart == DAY || (r.dayStart == 0 && n < 100)
    ensures Refused(Busy(n), r).None?
  {
    BusyCounts(n, r.address, r.now - COOLDOWN);
  }

  lemma RunAppend(steps: seq<Step>, step: Step)
    ensures Run(steps + [step]) == Next(Run(steps), step)
  {
    assert (steps + [step])[..|steps|] == steps;
  }

  /** The worker of an idle service takes the one queued claim at the end of the table. */
  lemma {:induction false} OldestLast(t: Table, c: Claim)
    requires c.status.Queued? && forall i :: 0 <= i < |t| ==> !t[i].status.Queued?
    ensures Oldest(t + [c]) == Some(|t|)
  {
    assert (t + [c])[..|t|] == t;
  }

  ghost predicate Quiet(w: World, t: Table) { w.up && w.claims == t && At(w, 0).Idle? }

  /** One claim from its request to its payment. */
  lemma ServeOne(w: World, t: Table, r: Request)
    requires Quiet(w, t) && Refused(t, r).None? && forall i :: 0 <= i < |t| ==> !t[i].status.Queued?
    ensures var served := Next(Next(Next(Next(w, Submit(r)), Start(0)), Invoke(0, PAID)), Store(0));
      Quiet(served, t + [Settle(Claim(r.address, r.ip, r.now, Queued, None), PAID)])
  {
    var c := Claim(r.address, r.ip, r.now, Queued, None);
    OldestLast(t, c);
    var w2 := Next(Next(w, Submit(r)), Start(0));
    assert w2.claims == t + [c.(status := Processing)] && At(w2, 0) == Took(|t|);
    var w3 := Next(w2, Invoke(0, PAID));
    assert At(w3, 0) == Ran(|t|, PAID);
  }

  lemma {:induction false} BusyRun(n: nat)
    requires n <= 100
    ensures Quiet(Run(BusySteps(n)), Busy(n))
  {
    if n > 0 {
      var s0, r := BusySteps(n - 1), Morning(n - 1);
      BusyRun(n - 1);
      BusyAccepts(n - 1, r);
      ServeOne(Run(s0), Busy(n - 1), r);
      var s1, s2 := s0 + [Submit(r)], s0 + [Submit(r)] + [Start(0)];
      var s3 := s0 + [Submit(r)] + [Start(0)] + [Invoke(0, PAID)];
      RunAppend(s0, Submit(r));
      RunAppend(s1, Start(0));
      RunAppend(s2, Invoke(0, PAID));
      RunAppend(s3, Store(0));
    }
  }

  /** The run that passes the cap: `now` read in the last second of a full day, `day_start` after midnight. */
  function RaceSteps(n: nat): seq<Step> { BusySteps(n) + [Submit(Request(Letters(n), Letters(n), DAY - 1, DAY))] }

  lemma RaceExceeds(n: nat)
    requires n == 100
    ensures WithinCap(Run(BusySteps(n)).claims, 0) && !WithinCap(Run(RaceSteps(n)).claims, 0)
  {
    var r := Request(Letters(n), Letters(n), DAY - 1, DAY);
    BusyRun(n);
    BusyAccepts(n, r);
    BusyCounts(n, r.address, 0);
    RunAppend(BusySteps(n), Submit(r));
    var t := Busy(n) + [Claim(r.address, r.ip, r.now, Queued, None)];
    assert t[..n] == Busy(n) && Run(RaceSteps(n)).claims == t;
    assert Count(t, InDay(0)) == n + 1;
  }

  /** The cap can be passed in a run of the service, by one request whose two clock reads straddle midnight. */
  lemma MidnightRace()
    ensures exists steps: seq<Step>, r: Request ::
      && r.now == DAY - 1 && r.dayStart == DAY
      && WithinCap(Run(steps).claims, 0) && !WithinCap(Run(steps + [Submit(r)]).claims, 0)
  {
    RaceExceeds(100);
  }
}
