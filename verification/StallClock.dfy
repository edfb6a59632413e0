/**
 * The stall clock of the continuous-sync controller: `classify_sync_evidence` and
 * `SyncProgress.observe`. The clock runs only after samples known to have a local header backlog.
 */
module StallClock {
  import opened Prelude

  datatype Sample = Sample(metricsOk: bool, committed: Option<int>, header: Option<int>, fallback: bool,
                           ready: bool, verified: Option<int>)

  datatype Evidence = Backlog | NoBacklog | LegacyFallback | LegacyHeightOnly | Unknown

  datatype Policy = Policy(legacyStack: bool, stallSeconds: int, statusUnavailableSeconds: int,
                           maxRunSeconds: int, startupTimeoutSeconds: int, readySamples: int)

  function Classify(sample: Sample, legacyStack: bool): (e: Evidence)
    ensures e.Backlog? <==>
      && sample.metricsOk && !legacyStack && !sample.fallback
      && sample.committed.Some? && sample.header.Some? && sample.header.value > sample.committed.value
    ensures e.NoBacklog? <==>
      && sample.metricsOk && !legacyStack && !sample.fallback
      && sample.committed.Some? && sample.header.Some? && sample.header.value <= sample.committed.value
    ensures e.LegacyFallback? <==>
      sample.metricsOk && sample.committed.Some? && !legacyStack && sample.fallback
    ensures e.LegacyHeightOnly? <==> sample.metricsOk && sample.committed.Some? && legacyStack
    ensures e.Unknown? <==>
      || !sample.metricsOk || sample.committed.None?
      || (!legacyStack && !sample.fallback && sample.header.None?)
  {
    if !sample.metricsOk || sample.committed.None? then Unknown
    else if legacyStack then LegacyHeightOnly
    else if sample.fallback then LegacyFallback
    else if sample.header.None? then Unknown
    else if sample.header.value <= sample.committed.value then NoBacklog
    else Backlog
  }

  datatype Observation = Observation(sample: Sample, at: int)

  /** The samples a run has seen, oldest first. */
  type History = seq<Observation>

  function Kind(run: History, i: nat, policy: Policy): Evidence
    requires i < |run|
  {
    Classify(run[i].sample, policy.legacyStack)
  }

  // ---- the clock as the history defines it ----

  /** The highest committed height seen. */
  function Highest(run: History): Option<int>
  {
    if run == [] then None
    else
      var rest, c := Highest(run[..|run| - 1]), run[|run| - 1].sample.committed;
      if c.None? then rest
      else if rest.None? || c.value > rest.value then c
      else rest
  }

  lemma {:induction false} HighestIsMaximum(run: History, i: nat)
    requires i < |run| && run[i].sample.committed.Some?
    ensures Highest(run).Some? && run[i].sample.committed.value <= Highest(run).value
    ensures exists j :: 0 <= j < |run| && run[j].sample.committed == Highest(run)
  {
    var init := run[..|run| - 1];
    if i < |init| {
      HighestIsMaximum(init, i);
      var j :| 0 <= j < |init| && init[j].sample.committed == Highest(init);
      assert run[j].sample.committed == Highest(init);
    } else if Highest(init).Some? {
      HighestSeen(init);
      var j :| 0 <= j < |init| && init[j].sample.committed == Highest(init);
      assert run[j].sample.committed == Highest(init);
    }
  }

  lemma {:induction false} HighestSeen(run: History)
    requires Highest(run).Some?
    ensures exists j :: 0 <= j < |run| && run[j].sample.committed == Highest(run)
  {
    var init := run[..|run| - 1];
    if Highest(run) == Highest(init) {
      HighestSeen(init);
      var j :| 0 <= j < |init| && init[j].sample.committed == Highest(init);
      assert run[j].sample.committed == Highest(run);
    }
  }

  /** Sample i reports a new highest committed height. */
  predicate NewHigh(run: History, i: nat)
    requires i < |run|
  {
    var c := run[i].sample.committed;
    c.Some? && (Highest(run[..i]).None? || c.value > Highest(run[..i]).value)
  }

  /** Sample i restarts the clock: a new highest height, or a sample known to have no backlog. */
  predicate Resets(run: History, i: nat, policy: Policy)
    requires i < |run|
  {
    NewHigh(run, i) || !(Kind(run, i, policy).Backlog? || Kind(run, i, policy).Unknown?)
  }

  function LastReset(run: History, policy: Policy): (r: nat)
    ensures run != [] ==> r < |run|
  {
    if |run| <= 1 then 0
    else if Resets(run, |run| - 1, policy) then |run| - 1
    else LastReset(run[..|run| - 1], policy)
  }

  lemma {:induction false} LastResetLatest(run: History, policy: Policy)
    requires run != []
    ensures LastReset(run, policy) == 0 || Resets(run, LastReset(run, policy), policy)
    ensures forall i :: LastReset(run, policy) < i < |run| ==> !Resets(run, i, policy)
  {
    if |run| > 1 && !Resets(run, |run| - 1, policy) {
      var init := run[..|run| - 1];
      LastResetLatest(init, policy);
      forall i | 0 <= i < |init| ensures Resets(run, i, policy) == Resets(init, i, policy) {
        assert init[..i] == run[..i];
      }
    }
  }

  /** The gaps in lo..hi that follow known-backlog samples. */
  function BacklogTime(run: History, lo: nat, hi: nat, policy: Policy): int
    requires lo <= hi < |run|
    decreases hi
  {
    if lo == hi then 0
    else BacklogTime(run, lo, hi - 1, policy)
         + if Kind(run, hi - 1, policy).Backlog? then run[hi].at - run[hi - 1].at else 0
  }

  /** How long the run is known to have been stalled at its latest sample. */
  function Stalled(run: History, policy: Policy): int
    requires run != []
  {
    BacklogTime(run, LastReset(run, policy), |run| - 1, policy)
  }

  /** When the current stretch of unknown samples began. */
  function UnknownSince(run: History, policy: Policy): int
    requires run != []
  {
    if |run| > 1 && Kind(run, |run| - 2, policy).Unknown? then UnknownSince(run[..|run| - 1], policy)
    else run[|run| - 1].at
  }

  /** When the highest height was first reached, or the start of the run. */
  function LastProgress(run: History, started: int): int
  {
    if run == [] then started
    else if NewHigh(run, |run| - 1) then run[|run| - 1].at
    else LastProgress(run[..|run| - 1], started)
  }

  /** The latest sample ends the run. */
  predicate Failing(run: History, started: int, policy: Policy)
    requires run != []
  {
    var at := run[|run| - 1].at;
    match Kind(run, |run| - 1, policy)
    case Backlog => Stalled(run, policy) >= policy.stallSeconds
    case NoBacklog => false
    case LegacyFallback => true
    case LegacyHeightOnly => at - LastProgress(run, started) >= policy.stallSeconds
    case Unknown => at - UnknownSince(run, policy) >= policy.statusUnavailableSeconds
  }

  // ---- facts about the history ----

  lemma {:induction false} BacklogTimeInit(run: History, lo: nat, hi: nat, policy: Policy)
    requires lo <= hi < |run| - 1
    ensures BacklogTime(run, lo, hi, policy) == BacklogTime(run[..|run| - 1], lo, hi, policy)
  {
    if lo < hi { BacklogTimeInit(run, lo, hi - 1, policy); }
  }

  /** A sample that resets nothing adds the gap since the previous sample if that one had a backlog. */
  lemma StalledGrows(run: History, policy: Policy)
    requires |run| > 1 && !Resets(run, |run| - 1, policy)
    ensures Stalled(run, policy) == Stalled(run[..|run| - 1], policy)
      + if Kind(run, |run| - 2, policy).Backlog? then run[|run| - 1].at - run[|run| - 2].at else 0
  {
    BacklogTimeInit(run, LastReset(run, policy), |run| - 2, policy);
  }

  ghost predicate Ordered(run: History)
  {
    forall i, j :: 0 <= i <= j < |run| ==> run[i].at <= run[j].at
  }

  /** The gaps in lo..hi that follow any other sample. */
  function OtherTime(run: History, lo: nat, hi: nat, policy: Policy): int
    requires lo <= hi < |run|
    decreases hi
  {
    if lo == hi then 0
    else OtherTime(run, lo, hi - 1, policy)
         + if Kind(run, hi - 1, policy).Backlog? then 0 else run[hi].at - run[hi - 1].at
  }

  /** The clock is never negative, and with the excluded stretches it makes up the time since the reset. */
  lemma {:induction false} StallSplitsElapsed(run: History, lo: nat, hi: nat, policy: Policy)
    requires lo <= hi < |run| && Ordered(run)
    ensures BacklogTime(run, lo, hi, policy) + OtherTime(run, lo, hi, policy) == run[hi].at - run[lo].at
    ensures BacklogTime(run, lo, hi, policy) >= 0 && OtherTime(run, lo, hi, policy) >= 0
  {
    if lo < hi { StallSplitsElapsed(run, lo, hi - 1, policy); }
  }

  // ---- SyncProgress ----

  /** The two clock fields against the stalled time and the start of the unknown stretch. */
  ghost predicate Ticks(backlogSince: Option<int>, unavailableSince: Option<int>, at: int, kind: Evidence,
                        stalled: int, unknownSince: int)
  {
    && (unavailableSince == if kind.Unknown? then Some(unknownSince) else None)
    && (backlogSince.None? ==> stalled == 0 && !kind.Backlog?)
    && (backlogSince.Some? ==>
          || (kind.Backlog? && at - backlogSince.value == stalled)
          || (kind.Unknown? && unknownSince - backlogSince.value == stalled))
  }

  /** How each quantity follows from the one before when a sample arrives. */
  lemma Recurrence(before: History, o: Observation, started: int, policy: Policy)
    ensures var run := before + [o];
      && run[..|run| - 1] == before
      && NewHigh(run, |before|) == (o.sample.committed.Some?
           && (Highest(before).None? || o.sample.committed.value > Highest(before).value))
      && Highest(run) == (if NewHigh(run, |before|) then o.sample.committed else Highest(before))
      && LastProgress(run, started) == (if NewHigh(run, |before|) then o.at else LastProgress(before, started))
      && UnknownSince(run, policy) ==
           (if before != [] && Kind(before, |before| - 1, policy).Unknown? then UnknownSince(before, policy) else o.at)
      && Stalled(run, policy) ==
           (if before == [] || Resets(run, |before|, policy) then 0
            else Stalled(before, policy)
                 + if Kind(before, |before| - 1, policy).Backlog? then o.at - before[|before| - 1].at else 0)
  {
    var run := before + [o];
    assert run[..|run| - 1] == before;
    if before != [] && !Resets(run, |before|, policy) { StalledGrows(run, policy); }
  }

  /** The values of the five fields `observe` updates. */
  datatype Fields = Fields(lastHeight: Option<int>, highestHeight: Option<int>, lastProgressAt: int,
                           backlogSince: Option<int>, statusUnavailableSince: Option<int>)

  function Fresh(started: int): Fields { Fields(None, None, started, None, None) }

  predicate Progresses(f: Fields, sample: Sample)
  {
    sample.committed.Some? && (f.highestHeight.None? || sample.committed.value > f.highestHeight.value)
  }

  function BacklogAfter(f: Fields, kind: Evidence, progressed: bool, at: int): Option<int>
  {
    match kind
    case Backlog =>
      if progressed || f.backlogSince.None? then Some(at)
      else if f.statusUnavailableSince.Some? then Some(f.backlogSince.value + (at - f.statusUnavailableSince.value))
      else f.backlogSince
    case Unknown => if progressed then None else f.backlogSince
    case _ => None
  }

  function UnavailableAfter(f: Fields, kind: Evidence, at: int): Option<int>
  {
    if !kind.Unknown? then None
    else if f.statusUnavailableSince.None? then Some(at) else f.statusUnavailableSince
  }

  function Update(f: Fields, sample: Sample, policy: Policy, at: int): Fields
  {
    var progressed, kind := Progresses(f, sample), Classify(sample, policy.legacyStack);
    Fields(if sample.committed.Some? then sample.committed else f.lastHeight,
           if progressed then sample.committed else f.highestHeight,
           if progressed then at else f.lastProgressAt,
           BacklogAfter(f, kind, progressed, at), UnavailableAfter(f, kind, at))
  }

  /** The failure verdict `observe` returns, from the fields it has just written. */
  predicate Verdict(f: Fields, kind: Evidence, policy: Policy, at: int)
  {
    match kind
    case Backlog => f.backlogSince.Some? && at - f.backlogSince.value >= policy.stallSeconds
    case NoBacklog => false
    case LegacyFallback => true
    case LegacyHeightOnly => f.lastHeight.Some? && at - f.lastProgressAt >= policy.stallSeconds
    case Unknown =>
      f.statusUnavailableSince.Some? && at - f.statusUnavailableSince.value >= policy.statusUnavailableSeconds
  }

  /** The fields after a whole run of samples. */
  function Fold(run: History, started: int, policy: Policy): Fields
  {
    if run == [] then Fresh(started)
    else
      var last := run[|run| - 1];
      Update(Fold(run[..|run| - 1], started, policy), last.sample, policy, last.at)
  }

  class SyncProgress {
    var lastHeight: Option<int>
    var highestHeight: Option<int>
    var lastProgressAt: int
    var backlogSince: Option<int>
    var statusUnavailableSince: Option<int>

    function Value(): Fields
      reads this
    {
      Fields(lastHeight, highestHeight, lastProgressAt, backlogSince, statusUnavailableSince)
    }

    constructor (startedAt: int)
      ensures Value() == Fresh(startedAt)
    {
      lastProgressAt := startedAt;
      lastHeight, highestHeight, backlogSince, statusUnavailableSince := None, None, None, None;
    }

    method Observe(sample: Sample, policy: Policy, at: int) returns (progressed: bool, failed: bool)
      modifies this
      ensures Value() == Update(old(Value()), sample, policy, at)
      ensures progressed == Progresses(old(Value()), sample)
      ensures failed == Verdict(Value(), Classify(sample, policy.legacyStack), policy, at)
    {
      progressed := false;
      if sample.committed.Some? {
        lastHeight := sample.committed;
        if highestHeight.None? || sample.committed.value > highestHeight.value {
          highestHeight := sample.committed;
          lastProgressAt := at;
          progressed := true;
        }
      }
      match Classify(sample, policy.legacyStack)
      case Backlog =>
        if statusUnavailableSince.Some? && backlogSince.Some? {
          backlogSince := Some(backlogSince.value + (at - statusUnavailableSince.value));
        }
        statusUnavailableSince := None;
        if progressed || backlogSince.None? { backlogSince := Some(at); }
        failed := at - backlogSince.value >= policy.stallSeconds;
      case NoBacklog =>
        backlogSince, statusUnavailableSince := None, None;
        failed := false;
      case LegacyFallback =>
        backlogSince, statusUnavailableSince := None, None;
        failed := true;
      case LegacyHeightOnly =>
        backlogSince, statusUnavailableSince := None, None;
        failed := lastHeight.Some? && at - lastProgressAt >= policy.stallSeconds;
      case Unknown =>
        if progressed { backlogSince := None; }
        if statusUnavailableSince.None? { statusUnavailableSince := Some(at); }
        failed := at - statusUnavailableSince.value >= policy.statusUnavailableSeconds;
    }
  }

  // ---- exactness over every run ----

  /** The fields say of the history what the history itself defines. */
  ghost predicate Tracks(f: Fields, run: History, started: int, policy: Policy)
  {
    && f.highestHeight == Highest(run) && f.lastProgressAt == LastProgress(run, started)
    && (f.lastHeight.None? <==> Highest(run).None?)
    && (run == [] ==> f.backlogSince.None? && f.statusUnavailableSince.None?)
    && (run != [] ==>
          Ticks(f.backlogSince, f.statusUnavailableSince, run[|run| - 1].at, Kind(run, |run| - 1, policy),
                Stalled(run, policy), UnknownSince(run, policy)))
  }

  lemma UpdateTracks(f: Fields, run: History, o: Observation, started: int, policy: Policy)
    requires Tracks(f, run, started, policy)
    ensures Tracks(Update(f, o.sample, policy, o.at), run + [o], started, policy)
  {
    Recurrence(run, o, started, policy);
    var kind := Classify(o.sample, policy.legacyStack);
    if run == [] {
    } else {
    }
  }

  lemma {:induction false} FoldTracks(run: History, started: int, policy: Policy)
    ensures Tracks(Fold(run, started, policy), run, started, policy)
  {
    if run != [] {
      var init, last := run[..|run| - 1], run[|run| - 1];
      FoldTracks(init, started, policy);
      UpdateTracks(Fold(init, started, policy), init, last, started, policy);
      assert run == init + [last];
    }
  }

  /**
   * At every backlog sample of every run, the time since `backlog_since` is the sum of the gaps that
   * follow known-backlog samples since the last reset, and the verdict is the one the history calls for.
   */
  lemma StallClockExact(run: History, started: int, policy: Policy)
    requires run != []
    ensures var f, at := Fold(run, started, policy), run[|run| - 1].at;
      && (Kind(run, |run| - 1, policy).Backlog? ==>
            f.backlogSince.Some? && at - f.backlogSince.value == Stalled(run, policy))
      && (Verdict(f, Kind(run, |run| - 1, policy), policy, at) <==> Failing(run, started, policy))
      && (Ordered(run) ==> 0 <= Stalled(run, policy) <= at - run[LastReset(run, policy)].at)
  {
    FoldTracks(run, started, policy);
    if Ordered(run) { StallSplitsElapsed(run, LastReset(run, policy), |run| - 1, policy); }
    if Kind(run, |run| - 1, policy).LegacyHeightOnly? { HighestIsMaximum(run, |run| - 1); }
  }

  // ---- what a standstill leads to ----

  /** The run is stopped at this sample: what `observe` returns after all the samples before it. */
  ghost predicate Stops(run: History, started: int, policy: Policy)
    requires run != []
  {
    var last := run[|run| - 1];
    Verdict(Fold(run, started, policy), Classify(last.sample, policy.legacyStack), policy, last.at)
  }

  /** Sample lo reports a height above every earlier one, and no later sample reports a higher one. */
  ghost predicate PeakAt(run: History, lo: nat)
  {
    && lo < |run| && run[lo].sample.committed.Some?
    && (forall i :: 0 <= i < lo && run[i].sample.committed.Some? ==>
          run[i].sample.committed.value < run[lo].sample.committed.value)
    && (forall i :: lo < i < |run| && run[i].sample.committed.Some? ==>
          run[i].sample.committed.value <= run[lo].sample.committed.value)
  }

  lemma PeakIsHigh(run: History, lo: nat)
    requires PeakAt(run, lo)
    ensures NewHigh(run, lo)
    ensures forall i :: lo < i < |run| ==> !NewHigh(run, i)
  {
    if Highest(run[..lo]).Some? { HighestSeen(run[..lo]); }
    forall i | lo < i < |run| ensures !NewHigh(run, i) {
      assert run[..i][lo] == run[lo];
      HighestIsMaximum(run[..i], lo);
    }
  }

  lemma {:induction false} PeakIsProgress(run: History, lo: nat, started: int)
    requires lo < |run| && NewHigh(run, lo) && forall i :: lo < i < |run| ==> !NewHigh(run, i)
    ensures LastProgress(run, started) == run[lo].at
  {
    if lo < |run| - 1 {
      var init := run[..|run| - 1];
      forall i | lo <= i < |init| ensures NewHigh(init, i) == NewHigh(run, i) { assert init[..i] == run[..i]; }
      PeakIsProgress(init, lo, started);
    }
  }

  /** A sample of a node that knows of headers above the height it has committed. */
  predicate HeaderAhead(sample: Sample)
  {
    && sample.metricsOk && !sample.fallback
    && sample.committed.Some? && sample.header.Some? && sample.header.value > sample.committed.value
  }

  lemma {:induction false} ResetAtPeak(run: History, lo: nat, policy: Policy)
    requires lo < |run| && Resets(run, lo, policy) && forall i :: lo < i < |run| ==> !Resets(run, i, policy)
    ensures LastReset(run, policy) == lo
  {
    if lo < |run| - 1 {
      var init := run[..|run| - 1];
      forall i | lo <= i < |init| ensures Resets(init, i, policy) == Resets(run, i, policy) {
        assert init[..i] == run[..i];
      }
      ResetAtPeak(init, lo, policy);
    }
  }

  lemma {:induction false} BacklogAllAlong(run: History, lo: nat, hi: nat, policy: Policy)
    requires lo <= hi < |run| && forall i :: lo <= i < hi ==> Kind(run, i, policy).Backlog?
    ensures BacklogTime(run, lo, hi, policy) == run[hi].at - run[lo].at
  {
    if lo < hi { BacklogAllAlong(run, lo, hi - 1, policy); }
  }

  /**
   * A node that knows of headers above its height and commits nothing since sample lo is stopped exactly
   * when that has lasted `stallSeconds`.
   */
  lemma StandstillStops(run: History, lo: nat, started: int, policy: Policy)
    requires PeakAt(run, lo) && !policy.legacyStack
    requires forall i :: lo <= i < |run| ==> HeaderAhead(run[i].sample)
    ensures Stops(run, started, policy) <==> run[|run| - 1].at - run[lo].at >= policy.stallSeconds
  {
    PeakIsHigh(run, lo);
    assert forall i :: lo <= i < |run| ==> Kind(run, i, policy).Backlog?;
    ResetAtPeak(run, lo, policy);
    BacklogAllAlong(run, lo, |run| - 1, policy);
    StallClockExact(run, started, policy);
  }

  /** On a legacy stack the same holds of the height alone. */
  lemma LegacyStandstillStops(run: History, lo: nat, started: int, policy: Policy)
    requires PeakAt(run, lo) && policy.legacyStack
    requires run[|run| - 1].sample.metricsOk && run[|run| - 1].sample.committed.Some?
    ensures Stops(run, started, policy) <==> run[|run| - 1].at - run[lo].at >= policy.stallSeconds
  {
    PeakIsHigh(run, lo);
    PeakIsProgress(run, lo, started);
    StallClockExact(run, started, policy);
  }

  /** The sample leaves the state of the sync unknown. */
  predicate Blind(sample: Sample, policy: Policy)
  {
    || !sample.metricsOk || sample.committed.None?
    || (!policy.legacyStack && !sample.fallback && sample.header.None?)
  }

  lemma {:induction false} BlindSince(run: History, lo: nat, policy: Policy)
    requires lo < |run| && forall i :: lo <= i < |run| ==> Blind(run[i].sample, policy)
    requires lo > 0 ==> !Blind(run[lo - 1].sample, policy)
    ensures UnknownSince(run, policy) == run[lo].at
  {
    if lo < |run| - 1 { BlindSince(run[..|run| - 1], lo, policy); }
  }

  /** A stretch of samples that say nothing stops the run exactly when it has lasted long enough. */
  lemma BlindnessStops(run: History, lo: nat, started: int, policy: Policy)
    requires lo < |run| && forall i :: lo <= i < |run| ==> Blind(run[i].sample, policy)
    requires lo > 0 ==> !Blind(run[lo - 1].sample, policy)
    ensures Stops(run, started, policy) <==> run[|run| - 1].at - run[lo].at >= policy.statusUnavailableSeconds
  {
    BlindSince(run, lo, policy);
    StallClockExact(run, started, policy);
  }

  /** A hand-over to the legacy driver stops the run at once; a node level with its headers never does. */
  lemma OtherStops(run: History, started: int, policy: Policy)
    requires run != [] && !policy.legacyStack
    ensures var sample := run[|run| - 1].sample;
      sample.metricsOk && sample.committed.Some? ==>
        && (sample.fallback ==> Stops(run, started, policy))
        && (!sample.fallback && sample.header.Some? && sample.header.value <= sample.committed.value ==>
              !Stops(run, started, policy))
  {
    StallClockExact(run, started, policy);
  }
}
