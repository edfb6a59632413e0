/** The bounded wait of the continuous-sync controller (`wait_for_completion`). */
module WaitLoop {
  import opened Prelude
  import opened StallClock

  /** What one pass of the loop sees. */
  datatype Tick = Tick(ts: int, spaceOk: bool, active: bool, rotated: bool, sample: Sample)

  datatype WaitError = TooLong | DiskPressure | ServiceExited | RotationFailed | NoHeight | SyncFailed

  ghost function Seen(env: nat -> Tick, n: nat): (run: History)
    ensures |run| == n && forall i :: 0 <= i < n ==> run[i] == Observation(env(i).sample, env(i).ts)
  {
    seq(n, i requires 0 <= i < n => Observation(env(i).sample, env(i).ts))
  }

  /** The first check that pass i fails, in the order the loop makes them. */
  ghost function Objection(policy: Policy, started: int, env: nat -> Tick, i: nat): Option<WaitError>
  {
    var t, run := env(i), Seen(env, i + 1);
    if t.ts - started > policy.maxRunSeconds then Some(TooLong)
    else if !t.spaceOk then Some(DiskPressure)
    else if !t.active then Some(ServiceExited)
    else if !t.rotated then Some(RotationFailed)
    else if Highest(run).None? && t.ts - started >= policy.startupTimeoutSeconds then Some(NoHeight)
    else if Failing(run, started, policy) then Some(SyncFailed)
    else None
  }

  /** Pass i is within its time, has space and an active service, and its logs were rotated. */
  predicate Sound(policy: Policy, started: int, t: Tick)
  {
    t.ts <= started + policy.maxRunSeconds && t.spaceOk && t.active && t.rotated
  }

  /** No sample up to pass i reported a committed height. */
  ghost predicate NothingCommitted(env: nat -> Tick, i: nat)
  {
    forall j: nat :: j <= i ==> env(j).sample.committed.None?
  }

  /** What each objection of a pass means, and that a pass has none exactly when nothing is wrong. */
  lemma ObjectionMeans(policy: Policy, started: int, env: nat -> Tick, i: nat)
    ensures var t, o := env(i), Objection(policy, started, env, i);
      && (o == Some(TooLong) <==> t.ts > started + policy.maxRunSeconds)
      && (o == Some(DiskPressure) <==> t.ts <= started + policy.maxRunSeconds && !t.spaceOk)
      && (o == Some(ServiceExited) <==> t.ts <= started + policy.maxRunSeconds && t.spaceOk && !t.active)
      && (o == Some(RotationFailed) <==>
            t.ts <= started + policy.maxRunSeconds && t.spaceOk && t.active && !t.rotated)
      && (o == Some(NoHeight) <==>
            Sound(policy, started, t) && NothingCommitted(env, i) &&
            t.ts >= started + policy.startupTimeoutSeconds)
      && (o == Some(SyncFailed) <==>
            Sound(policy, started, t) && Stops(Seen(env, i + 1), started, policy) &&
            !(NothingCommitted(env, i) && t.ts >= started + policy.startupTimeoutSeconds))
  {
    var run := Seen(env, i + 1);
    StallClockExact(run, started, policy);
    if Highest(run).Some? {
      HighestSeen(run);
      var j :| 0 <= j < |run| && run[j].sample.committed == Highest(run);
      assert env(j).sample.committed.Some?;
    } else {
      forall j: nat | j <= i ensures env(j).sample.committed.None? {
        if run[j].sample.committed.Some? { HighestIsMaximum(run, j); }
      }
    }
  }

  /** Pass i ends a streak of ready samples as long as the policy asks for. */
  ghost predicate Settled(policy: Policy, env: nat -> Tick, i: nat)
  {
    var streak := Max(1, policy.readySamples);
    i + 1 >= streak && forall j :: i - streak < j <= i ==> 0 <= j && env(j).sample.ready
  }

  function EndHeight(sample: Sample): (height: Option<int>)
    ensures height.Some? <==> sample.verified.Some? && 0 <= sample.verified.value < 0x1_0000_0000
    ensures height.Some? ==> height == sample.verified
  {
    if sample.verified.Some? && 0 <= sample.verified.value <= 0xFFFFFFFF then sample.verified else None
  }

  /** The number of consecutive ready samples up to pass i. */
  ghost function Streak(env: nat -> Tick, i: nat): (n: nat)
    ensures n <= i
    ensures forall j :: i - n <= j < i ==> env(j).sample.ready
    ensures n < i ==> !env(i - n - 1).sample.ready
  {
    if i == 0 || !env(i - 1).sample.ready then 0 else Streak(env, i - 1) + 1
  }

  lemma {:induction false} SettledIsStreak(policy: Policy, env: nat -> Tick, i: nat)
    ensures Settled(policy, env, i) <==> env(i).sample.ready && Streak(env, i + 1) >= policy.readySamples
  {
    if env(i).sample.ready && Streak(env, i + 1) < policy.readySamples && i + 1 >= policy.readySamples {
      var j := i - Streak(env, i + 1);
      assert !env(j).sample.ready && i - Max(1, policy.readySamples) < j;
    }
  }

  /** What observing one more sample leaves, as the history defines it. */
  lemma Observed(policy: Policy, started: int, env: nat -> Tick, i: nat)
    ensures var t, f := env(i), Fold(Seen(env, i + 1), started, policy);
      && f == Update(Fold(Seen(env, i), started, policy), t.sample, policy, t.ts)
      && (f.lastHeight.None? <==> Highest(Seen(env, i + 1)).None?)
      && (Verdict(f, Classify(t.sample, policy.legacyStack), policy, t.ts) <==>
          Failing(Seen(env, i + 1), started, policy))
  {
    var run := Seen(env, i + 1);
    assert run[..i] == Seen(env, i);
    StallClockExact(run, started, policy);
    FoldTracks(run, started, policy);
  }

  /** The checks of one pass, around its observation. */
  method Pass(policy: Policy, started: int, env: nat -> Tick, i: nat, progress: SyncProgress)
    returns (objection: Option<WaitError>)
    requires progress.Value() == Fold(Seen(env, i), started, policy)
    modifies progress
    ensures objection == Objection(policy, started, env, i)
    ensures objection.None? ==> progress.Value() == Fold(Seen(env, i + 1), started, policy)
  {
    var t := env(i);
    if t.ts - started > policy.maxRunSeconds { return Some(TooLong); }
    if !t.spaceOk { return Some(DiskPressure); }
    if !t.active { return Some(ServiceExited); }
    if !t.rotated { return Some(RotationFailed); }
    Observed(policy, started, env, i);
    var progressed, failed := progress.Observe(t.sample, policy, t.ts);
    if progress.lastHeight.None? && t.ts - started >= policy.startupTimeoutSeconds { return Some(NoHeight); }
    objection := if failed then Some(SyncFailed) else None;
  }

  /** No pass before the n-th objects or settles. */
  ghost predicate Undecided(policy: Policy, started: int, env: nat -> Tick, n: nat)
  {
    forall i :: 0 <= i < n ==> Objection(policy, started, env, i).None? && !Settled(policy, env, i)
  }

  /** The n-th pass is the first to object or to settle, and r says which. */
  ghost predicate EndsAt(policy: Policy, started: int, env: nat -> Tick, n: nat, r: Result<Option<int>, WaitError>)
  {
    && Undecided(policy, started, env, n)
    && match r
       case Ok(height) =>
         && Objection(policy, started, env, n).None? && Settled(policy, env, n)
         && height == EndHeight(env(n).sample)
       case Err(e) => Objection(policy, started, env, n) == Some(e)
  }

  lemma UndecidedOn(policy: Policy, started: int, env: nat -> Tick, n: nat)
    requires Undecided(policy, started, env, n) && Objection(policy, started, env, n).None?
    requires !Settled(policy, env, n)
    ensures Undecided(policy, started, env, n + 1)
  {
  }

  lemma EndsWith(policy: Policy, started: int, env: nat -> Tick, n: nat, r: Result<Option<int>, WaitError>)
    requires Undecided(policy, started, env, n)
    requires r.Err? ==> Objection(policy, started, env, n) == Some(r.error)
    requires r.Ok? ==> Objection(policy, started, env, n).None? && Settled(policy, env, n)
    requires r.Ok? ==> r.value == EndHeight(env(n).sample)
    ensures EndsAt(policy, started, env, n, r)
  {
  }

  /** A pass beyond the time budget objects. */
  lemma LateObjects(policy: Policy, started: int, env: nat -> Tick, n: nat)
    requires env(n).ts - started > policy.maxRunSeconds
    ensures Objection(policy, started, env, n).Some?
  {
  }

  /** One pass and its bookkeeping: the wait ends here, or goes on with one more undecided pass behind it. */
  method OnePass(policy: Policy, started: int, env: nat -> Tick, i: nat, progress: SyncProgress, ready: nat)
    returns (ended: Option<Result<Option<int>, WaitError>>, next: nat)
    requires progress.Value() == Fold(Seen(env, i), started, policy)
    requires ready == Streak(env, i) && Undecided(policy, started, env, i)
    modifies progress
    ensures ended.Some? ==> EndsAt(policy, started, env, i, ended.value)
    ensures ended.None? ==>
      && Undecided(policy, started, env, i + 1) && next == Streak(env, i + 1)
      && progress.Value() == Fold(Seen(env, i + 1), started, policy)
      && env(i).ts - started <= policy.maxRunSeconds
  {
    next := 0;
    var objection := Pass(policy, started, env, i, progress);
    if objection.Some? {
      EndsWith(policy, started, env, i, Err(objection.value));
      return Some(Err(objection.value)), next;
    }
    if env(i).ts - started > policy.maxRunSeconds { LateObjects(policy, started, env, i); }
    SettledIsStreak(policy, env, i);
    if env(i).sample.ready {
      next := ready + 1;
      if next >= policy.readySamples {
        EndsWith(policy, started, env, i, Ok(EndHeight(env(i).sample)));
        return Some(Ok(EndHeight(env(i).sample))), next;
      }
    }
    UndecidedOn(policy, started, env, i);
    ended := None;
  }

  /**
   * When each sleep advances the clock by at least a second the wait ends within its time budget. It
   * succeeds exactly at the first pass that completes a ready streak with no objection before or at it,
   * and otherwise raises the first objection of the first pass that has one.
   */
  method WaitForCompletion(policy: Policy, started: int, env: nat -> Tick)
    returns (r: Result<Option<int>, WaitError>)
    requires env(0).ts >= started
    requires forall i: nat, j: nat :: j == i + 1 ==> env(j).ts >= env(i).ts + 1
    ensures exists n: nat :: n <= Max(0, policy.maxRunSeconds + 1) && EndsAt(policy, started, env, n, r)
  {
    var progress := new SyncProgress(started);
    var ready, i := 0, 0;
    while true
      invariant fresh(progress) && env(i).ts >= started + i
      invariant 0 <= i <= Max(0, policy.maxRunSeconds + 1)
      invariant progress.Value() == Fold(Seen(env, i), started, policy)
      invariant ready == Streak(env, i) && Undecided(policy, started, env, i)
      decreases started + Max(0, policy.maxRunSeconds) + 1 - env(i).ts
    {
      var ended, next := OnePass(policy, started, env, i, progress, ready);
      if ended.Some? { return ended.value; }
      ready := next;
      i := i + 1;
    }
  }
}
