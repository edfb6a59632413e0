/**
 * The per-node alert monitor: `update_progress_state` and the stall and down detection of `run_once`.
 * An alert must be justified by the samples the monitor has seen.
 */
module Monitor {
  import opened Prelude
  import opened Alerts

  /** One node's answer; `run` is the controller's current run when it names one. */
  datatype Status = Status(host: string, queryError: bool, active: Option<bool>, metricsOk: bool,
                           height: Option<int>, exact: bool, run: Option<string>, failed: bool, phase: string)

  datatype Sample = Sample(statuses: seq<Status>, ts: int)

  datatype HostRecord = HostRecord(height: Option<int>, lastProgress: Option<int>, lastAdvance: Option<int>,
                                   run: Option<string>, resetPending: bool)

  const BLANK := HostRecord(None, None, None, None, false)

  predicate Healthy(s: Status) { s.active == Some(true) && s.metricsOk && s.height.Some? }

  predicate ExpectsService(s: Status) { s.phase == "syncing" || s.phase == "unknown" }

  /** The controller answers for the node: it has failed, or keeps the service stopped on purpose. */
  predicate ControllerOwns(s: Status) { s.failed || !ExpectsService(s) }

  // ---- progress of one host ----

  predicate Resets(r: HostRecord, s: Status)
  {
    r.resetPending || (s.run.Some? && r.run.Some? && r.run != s.run)
  }

  predicate Exact(s: Status) { s.height.Some? && s.exact }

  /** The sample counts as progress: a first exact height, a new run, or a greater height. */
  predicate Progresses(r: HostRecord, s: Status)
  {
    Exact(s) && (Resets(r, s) || r.height.None? || s.height.value > r.height.value)
  }

  /** The sample shows the host move ahead within one run. */
  predicate Advances(r: HostRecord, s: Status)
  {
    Exact(s) && !Resets(r, s) && r.height.Some? && s.height.value > r.height.value
  }

  function Track(r: HostRecord, s: Status, ts: int): HostRecord
  {
    var run := if s.run.Some? then s.run else r.run;
    if !Exact(s) then r.(run := run, resetPending := Resets(r, s))
    else HostRecord(s.height,
                    if Progresses(r, s) || r.lastProgress.None? then Some(ts) else r.lastProgress,
                    if Advances(r, s) then Some(ts) else if Progresses(r, s) then None else r.lastAdvance,
                    run, false)
  }

  function Lookup(statuses: seq<Status>, host: string): (r: Option<Status>)
    ensures r.Some? ==> r.value in statuses && r.value.host == host
    ensures r.None? ==> forall s :: s in statuses ==> s.host != host
  {
    if statuses == [] then None
    else if statuses[0].host == host then Some(statuses[0])
    else Lookup(statuses[1..], host)
  }

  ghost predicate Distinct(statuses: seq<Status>)
  {
    forall i, j :: 0 <= i < j < |statuses| ==> statuses[i].host != statuses[j].host
  }

  function Get(nodes: map<string, HostRecord>, host: string): HostRecord
  {
    if host in nodes then nodes[host] else BLANK
  }

  function TrackIn(nodes: map<string, HostRecord>, sample: Sample, host: string): HostRecord
  {
    var s := Lookup(sample.statuses, host);
    if s.Some? then Track(Get(nodes, host), s.value, sample.ts) else Get(nodes, host)
  }

  method TrackOne(known: HostRecord, status: Status, ts: int) returns (record: HostRecord)
    ensures record == Track(known, status, ts)
  {
    record := known;
    if status.run.Some? {
      if record.run.Some? && record.run != status.run { record := record.(resetPending := true); }
      record := record.(run := status.run);
    }
    if status.height.Some? && status.exact {
      var previous, reset := record.height, record.resetPending;
      record := record.(height := status.height, resetPending := false);
      if reset || previous.None? {
        record := record.(lastProgress := Some(ts), lastAdvance := None);
      } else if status.height.value > previous.value {
        record := record.(lastProgress := Some(ts), lastAdvance := Some(ts));
      } else if record.lastProgress.None? {
        record := record.(lastProgress := Some(ts));
      }
    }
  }

  /** `update_progress_state`: every host in the sample is tracked, the others are left alone. */
  method UpdateProgress(nodes: map<string, HostRecord>, sample: Sample) returns (next: map<string, HostRecord>)
    requires Distinct(sample.statuses)
    ensures forall h :: Get(next, h) == TrackIn(nodes, sample, h)
  {
    next := nodes;
    for i := 0 to |sample.statuses|
      invariant forall h :: Get(next, h) == TrackIn(nodes, Sample(sample.statuses[..i], sample.ts), h)
    {
      var status := sample.statuses[i];
      var record := TrackOne(Get(next, status.host), status, sample.ts);
      ghost var before := next;
      next := next[status.host := record];
      forall h ensures Get(next, h) == TrackIn(nodes, Sample(sample.statuses[..i + 1], sample.ts), h) {
        assert Get(before, h) == TrackIn(nodes, Sample(sample.statuses[..i], sample.ts), h);
      }
    }
    assert sample.statuses[..|sample.statuses|] == sample.statuses;
  }

  lemma {:induction false} LookupAppend(statuses: seq<Status>, s: Status, host: string)
    ensures Lookup(statuses + [s], host) ==
      if Lookup(statuses, host).Some? then Lookup(statuses, host) else if s.host == host then Some(s) else None
  {
    if statuses != [] {
      assert (statuses + [s])[1..] == statuses[1..] + [s];
      LookupAppend(statuses[1..], s, host);
    }
  }

  // ---- what the samples say ----

  /** The samples the monitor has taken, oldest first. */
  type History = seq<Sample>

  function Tracked(run: History, host: string): HostRecord
  {
    if run == [] then BLANK
    else
      var before, last := Tracked(run[..|run| - 1], host), run[|run| - 1];
      var s := Lookup(last.statuses, host);
      if s.Some? then Track(before, s.value, last.ts) else before
  }

  predicate Usable(sample: Sample, local: string)
  {
    Lookup(sample.statuses, local).Some? && !Lookup(sample.statuses, local).value.queryError
  }

  /** A healthy peer with an exact height ahead of the local one, which it reached after local progress. */
  predicate Ahead(peer: Status, peerRecord: HostRecord, local: Status, localRecord: HostRecord, ts: int)
  {
    && peer.host != local.host && !peer.queryError && Healthy(peer) && peer.exact
    && local.height.Some? && peer.height.value > local.height.value
    && peerRecord.lastAdvance.Some?
    && peerRecord.lastAdvance.value > if localRecord.lastProgress.Some? then localRecord.lastProgress.value else ts
  }

  /** The latest sample is evidence of a stall: a healthy, exact local node and such a peer. */
  ghost predicate Evident(run: History, local: string)
    requires run != []
  {
    var sample := run[|run| - 1];
    && Usable(sample, local)
    && var s := Lookup(sample.statuses, local).value;
       && !ControllerOwns(s) && Healthy(s) && s.exact
       && exists p :: p in sample.statuses && Ahead(p, Tracked(run, p.host), s, Tracked(run, local), sample.ts)
  }

  ghost predicate EvidentAt(run: History, i: nat, local: string)
    requires i < |run|
  {
    Evident(run[..i + 1], local)
  }

  /** Where the unbroken evidence that the latest sample belongs to began. */
  ghost function StreakStart(run: History, local: string): (m: nat)
    requires run != []
    ensures m < |run|
  {
    if |run| > 1 && Evident(run[..|run| - 1], local) then StreakStart(run[..|run| - 1], local) else |run| - 1
  }

  /** `peer_ahead_since` after a sample. */
  function AheadAfter(since: Option<int>, evident: bool, lastProgress: int, ts: int): Option<int>
  {
    if !evident then None
    else if (if since.Some? then since.value else 0) <= lastProgress then Some(ts)
    else since
  }

  ghost function AheadSince(run: History, local: string): Option<int>
  {
    if run == [] then None
    else
      var record, ts := Tracked(run, local), run[|run| - 1].ts;
      AheadAfter(AheadSince(run[..|run| - 1], local), Evident(run, local),
                 if record.lastProgress.Some? then record.lastProgress.value else ts, ts)
  }

  function Age(since: Option<int>, ts: int): int { if since.Some? then ts - since.value else 0 }

  /** The stall verdict of the latest sample. */
  ghost predicate Stalled(run: History, local: string, stallSeconds: int)
    requires run != []
  {
    Evident(run, local) && Age(AheadSince(run, local), run[|run| - 1].ts) >= stallSeconds
  }

  predicate Down(sample: Sample, local: string)
  {
    Usable(sample, local)
    && var s := Lookup(sample.statuses, local).value; !ControllerOwns(s) && s.active == Some(false)
  }

  function Downs(run: History, local: string): nat
  {
    if run == [] || !Down(run[|run| - 1], local) then 0 else Downs(run[..|run| - 1], local) + 1
  }

  // ---- justification ----

  ghost predicate Ordered(run: History)
  {
    && (forall i, j :: 0 <= i < j < |run| ==> run[i].ts <= run[j].ts)
    && (forall i :: 0 <= i < |run| ==> 0 < run[i].ts)
  }

  lemma {:induction false} TimesBounded(run: History, host: string, ts: int)
    requires Ordered(run) && forall i :: 0 <= i < |run| ==> run[i].ts <= ts
    ensures var r := Tracked(run, host);
      && (r.lastProgress.Some? ==> 0 < r.lastProgress.value <= ts)
      && (r.lastAdvance.Some? ==> 0 < r.lastAdvance.value <= ts)
  {
    if run != [] { TimesBounded(run[..|run| - 1], host, run[|run| - 1].ts); }
  }

  /** Sample i brought progress of the host. */
  predicate ProgressAt(run: History, i: nat, host: string)
    requires i < |run|
  {
    var s := Lookup(run[i].statuses, host);
    s.Some? && Progresses(Tracked(run[..i], host), s.value)
  }

  /** A sample that is evidence of a stall brought no local progress. */
  lemma EvidenceMeansNoProgress(run: History, local: string)
    requires Ordered(run) && run != [] && Evident(run, local)
    ensures !ProgressAt(run, |run| - 1, local)
    ensures Tracked(run, local).lastProgress.Some?
    ensures 0 < Tracked(run, local).lastProgress.value < run[|run| - 1].ts
  {
    var sample := run[|run| - 1];
    var s := Lookup(sample.statuses, local).value;
    var p :| p in sample.statuses && Ahead(p, Tracked(run, p.host), s, Tracked(run, local), sample.ts);
    TimesBounded(run, p.host, sample.ts);
    TimesBounded(run, local, sample.ts);
  }

  /** Evidence twice in a row leaves the local progress time, and so the clock, as they were. */
  lemma EvidenceContinues(run: History, local: string)
    requires Ordered(run) && |run| > 1 && Evident(run, local) && Evident(run[..|run| - 1], local)
    ensures Tracked(run, local).lastProgress == Tracked(run[..|run| - 1], local).lastProgress
  {
    EvidenceMeansNoProgress(run, local);
    EvidenceMeansNoProgress(run[..|run| - 1], local);
  }

  /** While the evidence is unbroken, the clock stands at the sample where it began. */
  lemma {:induction false} AheadSinceStart(run: History, local: string)
    requires Ordered(run) && run != [] && Evident(run, local)
    ensures Tracked(run, local).lastProgress.Some?
    ensures AheadSince(run, local) == Some(run[StreakStart(run, local)].ts)
    ensures AheadSince(run, local).value > Tracked(run, local).lastProgress.value
  {
    var init := run[..|run| - 1];
    EvidenceMeansNoProgress(run, local);
    if |run| > 1 && Evident(init, local) {
      AheadSinceStart(init, local);
      EvidenceContinues(run, local);
    } else {
      assert AheadSince(init, local) == None;
    }
  }

  lemma EvidentInit(run: History, i: nat, local: string)
    requires i < |run| - 1
    ensures EvidentAt(run[..|run| - 1], i, local) <==> EvidentAt(run, i, local)
  {
    assert run[..|run| - 1][..i + 1] == run[..i + 1];
  }

  lemma UnbrokenOn(run: History, m: nat, local: string)
    requires m < |run| - 1 && Unbroken(run[..|run| - 1], m, local) && Evident(run, local)
    ensures Unbroken(run, m, local)
  {
    assert run[..|run|] == run;
    forall i | m <= i < |run| - 1 ensures EvidentAt(run, i, local) { EvidentInit(run, i, local); }
  }

  lemma {:induction false} StreakUnbroken(run: History, local: string)
    requires run != [] && Evident(run, local)
    ensures Unbroken(run, StreakStart(run, local), local)
  {
    var init := run[..|run| - 1];
    if |run| > 1 && Evident(init, local) {
      StreakUnbroken(init, local);
      UnbrokenOn(run, StreakStart(init, local), local);
    } else {
      assert run[..|run|] == run;
    }
  }

  lemma {:induction false} StreakStartFirst(run: History, local: string, m: nat)
    requires run != [] && m < |run| && forall i :: m <= i < |run| ==> EvidentAt(run, i, local)
    ensures StreakStart(run, local) <= m
  {
    if m < |run| - 1 {
      var init := run[..|run| - 1];
      forall i | m <= i < |init| ensures EvidentAt(init, i, local) {
        EvidentInit(run, i, local);
      }
      assert EvidentAt(run, |init| - 1, local);
      StreakStartFirst(init, local, m);
    }
  }

  /** Every sample from m on is evidence of a stall. */
  ghost predicate Unbroken(run: History, m: nat, local: string)
    requires m < |run|
  {
    forall i :: m <= i < |run| ==> EvidentAt(run, i, local)
  }

  // ---- the same evidence, read off the samples ----

  predicate AdvanceAt(run: History, i: nat, host: string)
    requires i < |run|
  {
    var s := Lookup(run[i].statuses, host);
    s.Some? && Advances(Tracked(run[..i], host), s.value)
  }

  /** Sample i is the latest that brought progress of the host. */
  ghost predicate ProgressLast(run: History, i: nat, host: string)
  {
    i < |run| && ProgressAt(run, i, host) && forall j :: i < j < |run| ==> !ProgressAt(run, j, host)
  }

  lemma ProgressPrefix(run: History, n: nat, i: nat, host: string)
    requires i < n <= |run|
    ensures ProgressAt(run[..n], i, host) <==> ProgressAt(run, i, host)
    ensures AdvanceAt(run[..n], i, host) <==> AdvanceAt(run, i, host)
  {
    assert run[..n][..i] == run[..i];
  }

  /** A progress time is stored exactly when some sample brought progress. */
  lemma {:induction false} ProgressStored(run: History, host: string)
    ensures var r := Tracked(run, host);
      && (r.height.Some? <==> r.lastProgress.Some?)
      && (r.lastProgress.None? ==> r.lastAdvance.None?)
      && (r.lastProgress.Some? <==> exists i: nat :: ProgressLast(run, i, host))
  {
    if run != [] {
      var n := |run| - 1;
      ProgressStored(run[..n], host);
      if ProgressAt(run, n, host) {
        assert ProgressLast(run, n, host);
      } else {
        ProgressLastStays(run, host);
        if i: nat :| ProgressLast(run[..n], i, host) { assert ProgressLast(run, i, host); }
        if i: nat :| ProgressLast(run, i, host) { assert ProgressLast(run[..n], i, host); }
      }
    }
  }

  lemma ProgressLastStays(run: History, host: string)
    requires run != [] && !ProgressAt(run, |run| - 1, host)
    ensures forall i: nat :: ProgressLast(run[..|run| - 1], i, host) <==> ProgressLast(run, i, host)
  {
    var n := |run| - 1;
    forall i: nat | i < n ensures ProgressAt(run[..n], i, host) <==> ProgressAt(run, i, host) {
      ProgressPrefix(run, n, i, host);
    }
  }

  /**
   * The stored times are those of samples: `last_progress` is the time of the latest sample that brought
   * progress, and `last_advance` is there exactly when that sample was an advance within one run.
   */
  lemma {:induction false} TimesSeen(run: History, i: nat, host: string)
    requires ProgressLast(run, i, host)
    ensures Tracked(run, host).lastProgress == Some(run[i].ts)
    ensures Tracked(run, host).lastAdvance == if AdvanceAt(run, i, host) then Some(run[i].ts) else None
  {
    var n := |run| - 1;
    if i < n {
      ProgressLastStays(run, host);
      ProgressPrefix(run, n, i, host);
      TimesSeen(run[..n], i, host);
      ProgressStored(run[..n], host);
    }
  }

  /** The stored height is the one of the latest sample that gave an exact one. */
  lemma {:induction false} HeightSeen(run: History, i: nat, host: string)
    requires ExactLast(run, i, host)
    ensures Tracked(run, host).height == Lookup(run[i].statuses, host).value.height
  {
    if i < |run| - 1 {
      var init := run[..|run| - 1];
      HeightSeen(init, i, host);
      assert !ExactIn(run[|run| - 1], host);
    }
  }

  predicate ExactIn(sample: Sample, host: string)
  {
    var s := Lookup(sample.statuses, host);
    s.Some? && s.value.height.Some? && s.value.exact
  }

  ghost predicate ExactLast(run: History, i: nat, host: string)
  {
    i < |run| && ExactIn(run[i], host) && forall j :: i < j < |run| ==> !ExactIn(run[j], host)
  }

  /** The run the host's controller names in the sample, if any. */
  function NameIn(sample: Sample, host: string): Option<string>
  {
    var s := Lookup(sample.statuses, host);
    if s.Some? then s.value.run else None
  }

  ghost predicate NamedLast(run: History, i: nat, host: string)
  {
    i < |run| && NameIn(run[i], host).Some? && forall j :: i < j < |run| ==> NameIn(run[j], host).None?
  }

  /** The stored run is the latest one named. */
  lemma {:induction false} RunSeen(run: History, i: nat, host: string)
    requires NamedLast(run, i, host)
    ensures Tracked(run, host).run == NameIn(run[i], host)
  {
    if i < |run| - 1 {
      RunSeen(run[..|run| - 1], i, host);
      assert NameIn(run[|run| - 1], host).None?;
    }
  }

  /** No run is stored exactly when none was named. */
  lemma {:induction false} NoRunSeen(run: History, host: string)
    ensures Tracked(run, host).run.None? <==> forall i :: 0 <= i < |run| ==> NameIn(run[i], host).None?
  {
    if run != [] {
      var n := |run| - 1;
      NoRunSeen(run[..n], host);
      assert run[..n] + [run[n]] == run;
    }
  }

  /** Sample j names another run than the latest one named before it. */
  ghost predicate SwitchAt(run: History, j: nat, host: string)
    requires j < |run|
  {
    NameIn(run[j], host).Some? && OtherRun(run[..j], host, NameIn(run[j], host))
  }

  lemma {:induction false} LatestName(run: History, host: string) returns (i: nat)
    requires exists j :: 0 <= j < |run| && NameIn(run[j], host).Some?
    ensures NamedLast(run, i, host)
  {
    i := |run| - 1;
    while NameIn(run[i], host).None?
      invariant i < |run| && forall j :: i < j < |run| ==> NameIn(run[j], host).None?
      decreases i
    {
      i := i - 1;
    }
  }

  /** The latest run named, if any, is another than this. */
  ghost predicate OtherRun(run: History, host: string, name: Option<string>)
  {
    exists i: nat :: NamedLast(run, i, host) && NameIn(run[i], host) != name
  }

  lemma OtherRunSeen(run: History, host: string, name: Option<string>)
    ensures OtherRun(run, host, name) <==> Tracked(run, host).run.Some? && Tracked(run, host).run != name
  {
    NoRunSeen(run, host);
    if Tracked(run, host).run.Some? {
      var i := LatestName(run, host);
      RunSeen(run, i, host);
    }
    if i: nat :| NamedLast(run, i, host) && NameIn(run[i], host) != name { RunSeen(run, i, host); }
  }

  lemma SwitchSeen(run: History, n: nat, host: string)
    requires n < |run|
    ensures SwitchAt(run, n, host) <==>
      && NameIn(run[n], host).Some? && Tracked(run[..n], host).run.Some?
      && Tracked(run[..n], host).run != NameIn(run[n], host)
  {
    OtherRunSeen(run[..n], host, NameIn(run[n], host));
  }

  /** The run changed at sample j, and no sample from there up to n gave an exact height. */
  ghost predicate SwitchedSince(run: History, j: nat, n: nat, host: string)
    requires n <= |run|
  {
    j < |run| && SwitchAt(run, j, host) && forall k :: j <= k < n ==> !ExactIn(run[k], host)
  }

  /** A reset is pending exactly when the run changed since the latest exact sample. */
  lemma {:induction false} ResetSeen(run: History, host: string)
    ensures Tracked(run, host).resetPending <==> exists j: nat :: SwitchedSince(run, j, |run|, host)
  {
    if run != [] {
      var n := |run| - 1;
      var init := run[..n];
      ResetSeen(init, host);
      SwitchSeen(run, n, host);
      if ExactIn(run[n], host) {
        assert forall j: nat :: !SwitchedSince(run, j, |run|, host);
      } else {
        SwitchedOn(run, host);
      }
    }
  }

  lemma SwitchedOn(run: History, host: string)
    requires run != [] && !ExactIn(run[|run| - 1], host)
    ensures var init := run[..|run| - 1];
      (exists j: nat :: SwitchedSince(run, j, |run|, host)) <==>
        SwitchAt(run, |init|, host) || exists j: nat :: SwitchedSince(init, j, |init|, host)
  {
    var n := |run| - 1;
    forall j: nat | j < n ensures SwitchedSince(run, j, |run|, host) <==> SwitchedSince(run[..n], j, n, host) {
      SwitchInit(run, j, host);
    }
    if SwitchAt(run, n, host) { assert SwitchedSince(run, n, |run|, host); }
    if j: nat :| SwitchedSince(run[..n], j, n, host) { assert SwitchedSince(run, j, |run|, host); }
    if j: nat :| SwitchedSince(run, j, |run|, host) { assert j == n || SwitchedSince(run[..n], j, n, host); }
  }

  lemma SwitchInit(run: History, j: nat, host: string)
    requires j < |run| - 1
    ensures SwitchAt(run[..|run| - 1], j, host) <==> SwitchAt(run, j, host)
  {
    assert run[..|run| - 1][..j] == run[..j];
  }

  /** The latest exact height before sample n is below the one it gives. */
  ghost predicate Above(run: History, e: nat, n: nat, host: string)
    requires n < |run|
  {
    && ExactLast(run[..n], e, host) && ExactIn(run[n], host)
    && Lookup(run[e].statuses, host).value.height.value < Lookup(run[n].statuses, host).value.height.value
  }

  /** The run changed between the latest exact sample before n and sample n, or at n. */
  ghost predicate NewRunAt(run: History, n: nat, host: string)
    requires n < |run|
  {
    exists j: nat :: j <= n && SwitchedSince(run, j, n, host)
  }

  /**
   * Progress and advance on the samples alone. Progress is a first exact height, an exact height of a new
   * run, or one above the latest exact height; an advance is the last of these within one run.
   */
  lemma ProgressOnSamples(run: History, n: nat, host: string)
    requires n < |run|
    ensures ProgressAt(run, n, host) <==>
      && ExactIn(run[n], host)
      && ((forall j :: 0 <= j < n ==> !ExactIn(run[j], host)) || NewRunAt(run, n, host) ||
          exists e: nat :: Above(run, e, n, host))
    ensures AdvanceAt(run, n, host) <==> !NewRunAt(run, n, host) && exists e: nat :: Above(run, e, n, host)
  {
    ResetsOnSamples(run, n, host);
    HeightOnSamples(run, n, host);
  }

  lemma ResetsOnSamples(run: History, n: nat, host: string)
    requires n < |run|
    ensures Lookup(run[n].statuses, host).Some? ==>
      (Resets(Tracked(run[..n], host), Lookup(run[n].statuses, host).value) <==> NewRunAt(run, n, host))
  {
    var before := run[..n];
    ResetSeen(before, host);
    SwitchSeen(run, n, host);
    forall j: nat | j < n ensures SwitchedSince(before, j, n, host) <==> SwitchedSince(run, j, n, host) {
      assert before[..j] == run[..j];
    }
    if j: nat :| SwitchedSince(before, j, |before|, host) { assert SwitchedSince(run, j, n, host); }
    if j: nat :| j <= n && SwitchedSince(run, j, n, host) { assert j == n || SwitchedSince(before, j, n, host); }
    if SwitchAt(run, n, host) { assert SwitchedSince(run, n, n, host); }
  }

  lemma HeightOnSamples(run: History, n: nat, host: string)
    requires n < |run|
    ensures Tracked(run[..n], host).height.None? <==> forall j :: 0 <= j < n ==> !ExactIn(run[j], host)
    ensures ExactIn(run[n], host) ==>
      var s := Lookup(run[n].statuses, host).value;
      (Tracked(run[..n], host).height.Some? && s.height.value > Tracked(run[..n], host).height.value <==>
       exists e: nat :: Above(run, e, n, host))
  {
    var before := run[..n];
    NoHeightSeen(before, host);
    if Tracked(before, host).height.Some? {
      var e := LatestExact(before, host);
      HeightSeen(before, e, host);
      if ExactIn(run[n], host) {
        forall d: nat | Above(run, d, n, host) ensures d == e { }
        assert Above(run, e, n, host) <==>
          Lookup(run[n].statuses, host).value.height.value > Tracked(before, host).height.value;
      }
    }
  }

  lemma {:induction false} NoHeightSeen(run: History, host: string)
    ensures Tracked(run, host).height.None? <==> forall j :: 0 <= j < |run| ==> !ExactIn(run[j], host)
  {
    if run != [] {
      var n := |run| - 1;
      NoHeightSeen(run[..n], host);
      assert run[..n] + [run[n]] == run;
    }
  }

  lemma {:induction false} LatestExact(run: History, host: string) returns (e: nat)
    requires exists j :: 0 <= j < |run| && ExactIn(run[j], host)
    ensures ExactLast(run, e, host)
  {
    e := |run| - 1;
    while !ExactIn(run[e], host)
      invariant e < |run| && forall j :: e < j < |run| ==> !ExactIn(run[j], host)
      decreases e
    {
      e := e - 1;
    }
  }

  /** The host was last seen to make progress at sample i, an advance later than all progress of `local`. */
  ghost predicate AdvancedSince(run: History, i: nat, host: string, local: string)
  {
    && ProgressLast(run, i, host) && AdvanceAt(run, i, host)
    && forall j :: 0 <= j < |run| && ProgressAt(run, j, local) ==> run[j].ts < run[i].ts
  }

  /** The local node answered, and its controller has not failed and keeps the service running. */
  predicate OnDuty(sample: Sample, local: string)
  {
    var s := Lookup(sample.statuses, local);
    s.Some? && !s.value.queryError && !s.value.failed && (s.value.phase == "syncing" || s.value.phase == "unknown")
  }

  /** The local node answered, and its controller has failed or keeps the service stopped. */
  predicate OffDuty(sample: Sample, local: string)
  {
    var s := Lookup(sample.statuses, local);
    s.Some? && !s.value.queryError && (s.value.failed || (s.value.phase != "syncing" && s.value.phase != "unknown"))
  }

  /** A healthy peer with an exact height ahead of the local one. */
  predicate Leads(peer: Status, local: Status)
  {
    && peer.host != local.host && !peer.queryError && Running(peer)
    && local.height.Some? && peer.height.value > local.height.value
  }

  /** The service is active, its metrics work, and they give an exact height. */
  predicate Running(s: Status) { s.active == Some(true) && s.metricsOk && s.height.Some? && s.exact }

  /**
   * What the samples show at the latest one: a healthy, exact local node that its controller does not
   * answer for, and a healthy, exact peer ahead of it, seen to advance after all local progress.
   */
  ghost predicate Shown(run: History, local: string)
    requires run != []
  {
    var sample := run[|run| - 1];
    && OnDuty(sample, local)
    && var s := Lookup(sample.statuses, local).value;
       && Running(s)
       && exists p, i: nat :: p in sample.statuses && Leads(p, s) && AdvancedSince(run, i, p.host, local)
  }

  lemma AdvancedExactly(run: History, host: string, local: string)
    requires Ordered(run) && Tracked(run, local).lastProgress.Some?
    ensures Tracked(run, host).lastAdvance.Some? &&
            Tracked(run, host).lastAdvance.value > Tracked(run, local).lastProgress.value <==>
      exists i: nat :: AdvancedSince(run, i, host, local)
  {
    ProgressStored(run, local);
    ProgressStored(run, host);
    var last: nat :| ProgressLast(run, last, local);
    TimesSeen(run, last, local);
    if Tracked(run, host).lastAdvance.Some? &&
       Tracked(run, host).lastAdvance.value > Tracked(run, local).lastProgress.value {
      var i: nat :| ProgressLast(run, i, host);
      TimesSeen(run, i, host);
      assert AdvancedSince(run, i, host, local);
    }
    if i: nat :| AdvancedSince(run, i, host, local) {
      TimesSeen(run, i, host);
      assert ProgressAt(run, last, local);
    }
  }

  /** The evidence of the stored records is what the samples show. */
  lemma EvidentExactly(run: History, local: string)
    requires Ordered(run) && run != []
    ensures Evident(run, local) <==> Shown(run, local)
  {
    var sample := run[|run| - 1];
    if Usable(sample, local) {
      var s := Lookup(sample.statuses, local).value;
      if Exact(s) {
        forall p | p in sample.statuses
          ensures Ahead(p, Tracked(run, p.host), s, Tracked(run, local), sample.ts) <==>
            Leads(p, s) && exists i: nat :: AdvancedSince(run, i, p.host, local)
        {
          AdvancedExactly(run, p.host, local);
        }
      }
    }
  }

  ghost predicate ShownAt(run: History, i: nat, local: string)
    requires i < |run|
  {
    Shown(run[..i + 1], local)
  }

  /** Every sample from m on shows a stall, and they span long enough. */
  ghost predicate LongShown(run: History, m: nat, local: string, stallSeconds: int)
    requires m < |run|
  {
    && (forall i :: m <= i < |run| ==> ShownAt(run, i, local))
    && run[|run| - 1].ts - run[m].ts >= stallSeconds
  }

  ghost predicate StallSeen(run: History, local: string, stallSeconds: int)
  {
    exists m :: 0 <= m < |run| && LongShown(run, m, local, stallSeconds)
  }

  lemma UnbrokenExactly(run: History, m: nat, local: string)
    requires Ordered(run) && m < |run|
    ensures Unbroken(run, m, local) <==> forall i :: m <= i < |run| ==> ShownAt(run, i, local)
  {
    forall i | m <= i < |run| ensures EvidentAt(run, i, local) <==> ShownAt(run, i, local) {
      EvidentExactly(run[..i + 1], local);
    }
  }

  /**
   * SYNC STALLED is raised exactly when every sample for at least `stallSeconds` showed a healthy, exact
   * peer ahead that was seen to advance after all local progress.
   */
  lemma StallJustified(run: History, local: string, stallSeconds: int)
    requires Ordered(run) && run != []
    ensures Stalled(run, local, stallSeconds) <==> StallSeen(run, local, stallSeconds)
  {
    if m :| 0 <= m < |run| && LongShown(run, m, local, stallSeconds) {
      UnbrokenExactly(run, m, local);
      assert EvidentAt(run, |run| - 1, local);
      assert run[..|run|] == run;
      AheadSinceStart(run, local);
      StreakStartFirst(run, local, m);
    }
    if Stalled(run, local, stallSeconds) {
      AheadSinceStart(run, local);
      StreakUnbroken(run, local);
      UnbrokenExactly(run, StreakStart(run, local), local);
      assert LongShown(run, StreakStart(run, local), local, stallSeconds);
    }
  }

  /** No sample of such a stretch brought local progress. */
  lemma NoProgressWhileShown(run: History, i: nat, local: string)
    requires Ordered(run) && i < |run| && ShownAt(run, i, local)
    ensures !ProgressAt(run, i, local)
  {
    EvidentExactly(run[..i + 1], local);
    EvidenceMeansNoProgress(run[..i + 1], local);
    assert run[..i + 1][..i] == run[..i];
  }

  /** NODE DOWN is raised exactly after the required number of consecutive explicitly inactive samples. */
  lemma {:induction false} DownJustified(run: History, local: string, required: int)
    requires run != []
    ensures var n := Max(1, required);
      Down(run[|run| - 1], local) && Downs(run, local) >= required <==>
        n <= |run| && forall i :: |run| - n <= i < |run| ==> Down(run[i], local)
  {
    DownsStreak(run, local);
  }

  lemma {:induction false} DownsStreak(run: History, local: string)
    ensures Downs(run, local) <= |run|
    ensures forall i :: |run| - Downs(run, local) <= i < |run| ==> Down(run[i], local)
    ensures Downs(run, local) < |run| ==> !Down(run[|run| - 1 - Downs(run, local)], local)
  {
    if run != [] && Down(run[|run| - 1], local) { DownsStreak(run[..|run| - 1], local); }
  }

  // ---- the two alerts of a node ----

  function StallVerdict(s: Status, stalled: bool, grew: bool): Signal
  {
    if ControllerOwns(s) then Owned else if stalled then Raised else if grew then Better else Calm
  }

  function DownVerdict(s: Status, confirmed: bool): Signal
  {
    if ControllerOwns(s) then Owned
    else if confirmed then Raised
    else if s.active == Some(true) then Better
    else Silent
  }

  /** What the latest sample says of SYNC STALLED. */
  ghost function StallSignal(run: History, local: string, stallSeconds: int): Signal
    requires run != []
  {
    var sample := run[|run| - 1];
    if !Usable(sample, local) then Silent
    else
      var s := Lookup(sample.statuses, local).value;
      StallVerdict(s, Stalled(run, local, stallSeconds), Grows(Tracked(run[..|run| - 1], local), s))
  }

  predicate Grows(r: HostRecord, s: Status)
  {
    Exact(s) && r.height.Some? && s.height.value > r.height.value
  }

  /** What the latest sample says of NODE DOWN. */
  function DownSignal(run: History, local: string, required: int): Signal
    requires run != []
  {
    var sample := run[|run| - 1];
    if !Usable(sample, local) then Silent
    else
      var s := Lookup(sample.statuses, local).value;
      DownVerdict(s, Down(sample, local) && Downs(run, local) >= required)
  }

  /** One turn per sample, at its time, with what the samples up to it say of SYNC STALLED. */
  ghost predicate StallTurns(run: History, turns: seq<Turn>, local: string, stallSeconds: int)
  {
    && |turns| == |run|
    && (run != [] ==>
          var n := |run| - 1;
          && turns[n].ts == run[n].ts && turns[n].signal == StallSignal(run, local, stallSeconds)
          && StallTurns(run[..n], turns[..n], local, stallSeconds))
  }

  /** The same for NODE DOWN. */
  ghost predicate DownTurns(run: History, turns: seq<Turn>, local: string, required: int)
  {
    && |turns| == |run|
    && (run != [] ==>
          var n := |run| - 1;
          && turns[n].ts == run[n].ts && turns[n].signal == DownSignal(run, local, required)
          && DownTurns(run[..n], turns[..n], local, required))
  }

  lemma {:induction false} StallTurnsAt(run: History, turns: seq<Turn>, i: nat, local: string, stallSeconds: int)
    requires StallTurns(run, turns, local, stallSeconds) && i < |run|
    ensures turns[i].ts == run[i].ts && turns[i].signal == StallSignal(run[..i + 1], local, stallSeconds)
  {
    var n := |run| - 1;
    if i < n {
      StallTurnsAt(run[..n], turns[..n], i, local, stallSeconds);
      assert run[..n][..i + 1] == run[..i + 1];
    } else {
      assert run[..i + 1] == run;
    }
  }

  lemma StallTurnsOn(run: History, turns: seq<Turn>, sample: Sample, turn: Turn, local: string, stallSeconds: int)
    requires StallTurns(run, turns, local, stallSeconds)
    requires turn.ts == sample.ts && turn.signal == StallSignal(run + [sample], local, stallSeconds)
    ensures StallTurns(run + [sample], turns + [turn], local, stallSeconds)
  {
    assert (run + [sample])[..|run|] == run && (turns + [turn])[..|turns|] == turns;
  }

  lemma DownTurnsOn(run: History, turns: seq<Turn>, sample: Sample, turn: Turn, local: string, required: int)
    requires DownTurns(run, turns, local, required)
    requires turn.ts == sample.ts && turn.signal == DownSignal(run + [sample], local, required)
    ensures DownTurns(run + [sample], turns + [turn], local, required)
  {
    assert (run + [sample])[..|run|] == run && (turns + [turn])[..|turns|] == turns;
  }

  ghost predicate StallSeenAt(run: History, i: nat, local: string, stallSeconds: int)
    requires i < |run|
  {
    StallSeen(run[..i + 1], local, stallSeconds)
  }

  /** Sample i is the last at which the samples showed a stall for long enough. */
  ghost predicate StallSeenLast(run: History, i: nat, local: string, stallSeconds: int)
  {
    && i < |run| && StallSeenAt(run, i, local, stallSeconds)
    && forall j :: i < j < |run| ==> !StallSeenAt(run, j, local, stallSeconds)
  }

  /**
   * A standing SYNC STALLED alert goes back to a sample at which the samples showed a stall for long
   * enough. The controller has answered for the node at no sample since, and no recovery was delivered at
   * or after one that showed the local node grow.
   */
  lemma StandingStall(run: History, turns: seq<Turn>, local: string, stallSeconds: int, throttle: int)
    requires Ordered(run) && StallTurns(run, turns, local, stallSeconds)
    ensures Alerted(turns, throttle).active <==>
      exists i: nat :: StallSeenLast(run, i, local, stallSeconds) && StandsFrom(turns, i)
  {
    AlertExactly(turns, throttle);
    forall i: nat | StandsFrom(turns, i) ensures StallSeenLast(run, i, local, stallSeconds) {
      RaisedSeen(run, turns, i, local, stallSeconds);
      forall j | i < j < |run| ensures !StallSeenAt(run, j, local, stallSeconds) {
        RaisedSeen(run, turns, j, local, stallSeconds);
      }
    }
  }

  lemma RaisedSeen(run: History, turns: seq<Turn>, j: nat, local: string, stallSeconds: int)
    requires Ordered(run) && StallTurns(run, turns, local, stallSeconds) && j < |run|
    ensures turns[j].signal.Raised? <==> StallSeenAt(run, j, local, stallSeconds)
  {
    StallTurnsAt(run, turns, j, local, stallSeconds);
    StallJustified(run[..j + 1], local, stallSeconds);
  }

  // ---- the two alerts, on the samples alone ----

  /** What each sample says of SYNC STALLED. */
  lemma StallSignalMeans(run: History, local: string, stallSeconds: int)
    requires Ordered(run) && run != []
    ensures var n, signal := |run| - 1, StallSignal(run, local, stallSeconds);
      && (signal.Owned? <==> OffDuty(run[n], local))
      && (signal.Raised? <==> StallSeen(run, local, stallSeconds))
      && (signal.Better? <==>
            OnDuty(run[n], local) && !StallSeen(run, local, stallSeconds) && exists e: nat :: Above(run, e, n, local))
      && (signal.Silent? <==> !OnDuty(run[n], local) && !OffDuty(run[n], local))
  {
    var n := |run| - 1;
    StallJustified(run, local, stallSeconds);
    HeightOnSamples(run, n, local);
  }

  /** The latest samples, at least one and as many as required, were all explicitly inactive on duty. */
  ghost predicate DownSeen(run: History, local: string, required: int)
  {
    && Max(1, required) <= |run|
    && forall i :: |run| - Max(1, required) <= i < |run| ==>
         OnDuty(run[i], local) && Lookup(run[i].statuses, local).value.active == Some(false)
  }

  /** What each sample says of NODE DOWN. */
  lemma DownSignalMeans(run: History, local: string, required: int)
    requires run != []
    ensures var n, signal := |run| - 1, DownSignal(run, local, required);
      && (signal.Owned? <==> OffDuty(run[n], local))
      && (signal.Raised? <==> DownSeen(run, local, required))
      && (signal.Better? <==>
            OnDuty(run[n], local) && Lookup(run[n].statuses, local).value.active == Some(true))
      && !signal.Calm?
  {
    DownJustified(run, local, required);
    DownOnSamples(run, local, required);
  }

  lemma DownOnSamples(run: History, local: string, required: int)
    requires run != []
    ensures DownSeen(run, local, required) <==>
      Max(1, required) <= |run| && forall i :: |run| - Max(1, required) <= i < |run| ==> Down(run[i], local)
  {
    forall i | 0 <= i < |run|
      ensures Down(run[i], local) <==>
        OnDuty(run[i], local) && Lookup(run[i].statuses, local).value.active == Some(false)
    {
    }
  }

  ghost predicate DownSeenAt(run: History, i: nat, local: string, required: int)
    requires i < |run|
  {
    DownSeen(run[..i + 1], local, required)
  }

  /** Sample i is the last at which the node was seen down for as many samples as required. */
  ghost predicate DownSeenLast(run: History, i: nat, local: string, required: int)
  {
    && i < |run| && DownSeenAt(run, i, local, required)
    && forall j :: i < j < |run| ==> !DownSeenAt(run, j, local, required)
  }

  lemma {:induction false} DownTurnsAt(run: History, turns: seq<Turn>, i: nat, local: string, required: int)
    requires DownTurns(run, turns, local, required) && i < |run|
    ensures turns[i].ts == run[i].ts && turns[i].signal == DownSignal(run[..i + 1], local, required)
  {
    var n := |run| - 1;
    if i < n {
      DownTurnsAt(run[..n], turns[..n], i, local, required);
      assert run[..n][..i + 1] == run[..i + 1];
    } else {
      assert run[..i + 1] == run;
    }
  }

  /**
   * A NODE DOWN alert stands exactly when it goes back to a sample at which the node was seen down for as
   * many samples as required, with no take-over by the controller since, and no recovery delivered at a
   * sample that showed the service active again.
   */
  lemma StandingDown(run: History, turns: seq<Turn>, local: string, required: int, throttle: int)
    requires DownTurns(run, turns, local, required)
    ensures Alerted(turns, throttle).active <==>
      exists i: nat :: DownSeenLast(run, i, local, required) && StandsFrom(turns, i)
  {
    AlertExactly(turns, throttle);
    forall i: nat | StandsFrom(turns, i) ensures DownSeenLast(run, i, local, required) {
      DownRaisedSeen(run, turns, i, local, required);
      forall j | i < j < |run| ensures !DownSeenAt(run, j, local, required) {
        DownRaisedSeen(run, turns, j, local, required);
      }
    }
  }

  lemma DownRaisedSeen(run: History, turns: seq<Turn>, j: nat, local: string, required: int)
    requires DownTurns(run, turns, local, required) && j < |run|
    ensures turns[j].signal.Raised? <==> DownSeenAt(run, j, local, required)
  {
    DownTurnsAt(run, turns, j, local, required);
    DownSignalMeans(run[..j + 1], local, required);
  }

  // ---- run_once ----

  datatype Settings = Settings(local: string, stallSeconds: int, required: int, throttle: int)

  /** The turn of SYNC STALLED at the latest sample. */
  ghost function StallTurn(run: History, settings: Settings, delivered: bool): Turn
    requires run != []
  {
    Turn(StallSignal(run, settings.local, settings.stallSeconds), delivered, run[|run| - 1].ts)
  }

  /** The turn of NODE DOWN at the latest sample. */
  ghost function DownTurn(run: History, settings: Settings, delivered: bool): Turn
    requires run != []
  {
    Turn(DownSignal(run, settings.local, settings.required), delivered, run[|run| - 1].ts)
  }

  /** The stored records are what the samples so far add up to. */
  ghost predicate Counted(settings: Settings, run: History, nodes: map<string, HostRecord>,
                          peerAheadSince: Option<int>, downSamples: nat)
  {
    && Records(nodes, run)
    && peerAheadSince == AheadSince(run, settings.local) && downSamples == Downs(run, settings.local)
  }

  /** SYNC STALLED is as the samples leave it. */
  ghost predicate StallKept(settings: Settings, run: History, turns: seq<Turn>, alert: Alert)
  {
    StallTurns(run, turns, settings.local, settings.stallSeconds) && alert == Alerted(turns, settings.throttle)
  }

  /** NODE DOWN is as the samples leave it. */
  ghost predicate DownKept(settings: Settings, run: History, turns: seq<Turn>, alert: Alert)
  {
    DownTurns(run, turns, settings.local, settings.required) && alert == Alerted(turns, settings.throttle)
  }

  lemma RecordsOn(run: History, nodes: map<string, HostRecord>, sample: Sample, updated: map<string, HostRecord>)
    requires Records(nodes, run) && forall h :: Get(updated, h) == TrackIn(nodes, sample, h)
    ensures Records(updated, run + [sample])
  {
    assert (run + [sample])[..|run|] == run;
  }

  /** What a sample does to the counters, and what it says of both alerts, in terms of the records. */
  lemma SampleCounts(settings: Settings, run: History, nodes: map<string, HostRecord>, since: Option<int>, downs: nat,
                     sample: Sample, updated: map<string, HostRecord>)
    requires Counted(settings, run, nodes, since, downs) && Records(updated, run + [sample])
    ensures !Usable(sample, settings.local) ==>
      && Counted(settings, run + [sample], updated, None, 0)
      && StallSignal(run + [sample], settings.local, settings.stallSeconds) == Silent
      && DownSignal(run + [sample], settings.local, settings.required) == Silent
    ensures Usable(sample, settings.local) ==>
      var s := Lookup(sample.statuses, settings.local).value;
      var evident := ShowsStall(updated, sample, s);
      var down := !ControllerOwns(s) && s.active == Some(false);
      var since' := AheadAfter(since, evident, ProgressTime(updated, settings.local, sample.ts), sample.ts);
      var downs' := if down then downs + 1 else 0;
      && Counted(settings, run + [sample], updated, since', downs')
      && StallSignal(run + [sample], settings.local, settings.stallSeconds) ==
         StallVerdict(s, evident && Age(since', sample.ts) >= settings.stallSeconds, Grows(Get(nodes, s.host), s))
      && DownSignal(run + [sample], settings.local, settings.required) ==
         DownVerdict(s, down && downs' >= settings.required)
  {
    assert (run + [sample])[..|run|] == run;
    SampleAdds(run, sample, settings.local, updated);
  }

  class Watch {
    const settings: Settings
    var nodes: map<string, HostRecord>
    var peerAheadSince: Option<int>
    var downSamples: nat
    var stallAlert: Alert
    var downAlert: Alert

    ghost var run: History
    ghost var stallTurns: seq<Turn>
    ghost var downTurns: seq<Turn>

    ghost predicate Valid()
      reads this
    {
      && Counted(settings, run, nodes, peerAheadSince, downSamples)
      && StallKept(settings, run, stallTurns, stallAlert) && DownKept(settings, run, downTurns, downAlert)
    }

    constructor (settings: Settings)
      ensures Valid() && this.settings == settings && run == []
    {
      this.settings := settings;
      nodes, peerAheadSince, downSamples := map[], None, 0;
      stallAlert, downAlert := Alert(false, 0, false), Alert(false, 0, false);
      run, stallTurns, downTurns := [], [], [];
    }

    /** Whether any peer of the sample is ahead on the evidence the records hold. */
    method PeerAhead(sample: Sample, status: Status) returns (found: bool)
      ensures found == exists p :: p in sample.statuses && AheadOf(p, nodes, status, sample.ts)
    {
      for i := 0 to |sample.statuses|
        invariant forall j :: 0 <= j < i ==> !AheadOf(sample.statuses[j], nodes, status, sample.ts)
      {
        if AheadOf(sample.statuses[i], nodes, status, sample.ts) { return true; }
      }
      found := false;
    }

    /** The stall clock and verdict for a usable local status. */
    method JudgeStall(sample: Sample, status: Status) returns (stalled: bool)
      requires status.host == settings.local
      modifies this`peerAheadSince
      ensures var evident := ShowsStall(nodes, sample, status);
        && peerAheadSince == AheadAfter(old(peerAheadSince), evident,
                                        ProgressTime(nodes, settings.local, sample.ts), sample.ts)
        && stalled == (evident && Age(peerAheadSince, sample.ts) >= settings.stallSeconds)
    {
      var evident := false;
      if Healthy(status) && status.exact && !ControllerOwns(status) { evident := PeerAhead(sample, status); }
      if evident {
        if (if peerAheadSince.Some? then peerAheadSince.value else 0) <=
           ProgressTime(nodes, settings.local, sample.ts) {
          peerAheadSince := Some(sample.ts);
        }
      } else {
        peerAheadSince := None;
      }
      stalled := evident && Age(peerAheadSince, sample.ts) >= settings.stallSeconds;
    }

    /** Count the sample towards NODE DOWN and decide it. */
    method JudgeDown(status: Status) returns (confirmed: bool)
      modifies this`downSamples
      ensures var down := !ControllerOwns(status) && status.active == Some(false);
        && downSamples == (if down then old(downSamples) + 1 else 0)
        && confirmed == (down && downSamples >= settings.required)
    {
      var down := !ControllerOwns(status) && status.active == Some(false);
      downSamples := if down then downSamples + 1 else 0;
      confirmed := down && downSamples >= settings.required;
    }

    /** Post, recover or retire NODE DOWN. */
    method ActOnDown(status: Status, confirmed: bool, delivered: bool, ts: int) returns (sent: bool)
      modifies this`downAlert
      ensures var turn := Turn(DownVerdict(status, confirmed), delivered, ts);
        && downAlert == AfterTurn(old(downAlert), turn, settings.throttle)
        && sent == (Posts(old(downAlert), turn, settings.throttle) && delivered)
    {
      sent := false;
      if ControllerOwns(status) {
        downAlert := Retire(downAlert);
      } else if confirmed || status.active == Some(true) {
        downAlert, sent := MaybeAlert(downAlert, Check(confirmed, delivered, ts), settings.throttle);
      }
    }

    /** Post, recover or retire SYNC STALLED; `grew` is local growth over the height stored before. */
    method ActOnStall(status: Status, stalled: bool, grew: bool, delivered: bool, ts: int) returns (sent: bool)
      modifies this`stallAlert
      ensures var turn := Turn(StallVerdict(status, stalled, grew), delivered, ts);
        && stallAlert == AfterTurn(old(stallAlert), turn, settings.throttle)
        && sent == (Posts(old(stallAlert), turn, settings.throttle) && delivered)
    {
      sent := false;
      if ControllerOwns(status) {
        stallAlert := Retire(stallAlert);
      } else if stalled || (stallAlert.active && (grew || stallAlert.recoveryPending)) {
        stallAlert, sent := MaybeAlert(stallAlert, Check(stalled, delivered, ts), settings.throttle);
      }
    }

    /** The NODE DOWN turn of a sample; an unusable one leaves the alert alone. */
    method TurnDown(ghost seen: History, sample: Sample, status: Option<Status>, confirmed: bool, delivered: bool)
      returns (sent: bool)
      requires DownKept(settings, seen, downTurns, downAlert)
      requires DownSignal(seen + [sample], settings.local, settings.required) ==
        if status.None? then Silent else DownVerdict(status.value, confirmed)
      modifies this`downAlert, this`downTurns
      ensures DownKept(settings, seen + [sample], downTurns, downAlert)
      ensures downTurns == old(downTurns) + [DownTurn(seen + [sample], settings, delivered)]
      ensures sent == (Posts(old(downAlert), DownTurn(seen + [sample], settings, delivered), settings.throttle)
                       && delivered)
    {
      ghost var turn := DownTurn(seen + [sample], settings, delivered);
      DownTurnsOn(seen, downTurns, sample, turn, settings.local, settings.required);
      AlertedOn(downTurns, turn, settings.throttle);
      sent := false;
      if status.Some? { sent := ActOnDown(status.value, confirmed, delivered, sample.ts); }
      downTurns := downTurns + [turn];
    }

    /** The SYNC STALLED turn of a sample; an unusable one leaves the alert alone. */
    method TurnStall(ghost seen: History, sample: Sample, status: Option<Status>, stalled: bool, grew: bool,
                     delivered: bool)
      returns (sent: bool)
      requires StallKept(settings, seen, stallTurns, stallAlert)
      requires StallSignal(seen + [sample], settings.local, settings.stallSeconds) ==
        if status.None? then Silent else StallVerdict(status.value, stalled, grew)
      modifies this`stallAlert, this`stallTurns
      ensures StallKept(settings, seen + [sample], stallTurns, stallAlert)
      ensures stallTurns == old(stallTurns) + [StallTurn(seen + [sample], settings, delivered)]
      ensures sent == (Posts(old(stallAlert), StallTurn(seen + [sample], settings, delivered), settings.throttle)
                       && delivered)
    {
      ghost var turn := StallTurn(seen + [sample], settings, delivered);
      StallTurnsOn(seen, stallTurns, sample, turn, settings.local, settings.stallSeconds);
      AlertedOn(stallTurns, turn, settings.throttle);
      sent := false;
      if status.Some? { sent := ActOnStall(status.value, stalled, grew, delivered, sample.ts); }
      stallTurns := stallTurns + [turn];
    }

    /** Track one sample and decide both alerts; no status is returned for an unusable sample. */
    method Take(sample: Sample) returns (status: Option<Status>, confirmed: bool, stalled: bool, grew: bool)
      requires Counted(settings, run, nodes, peerAheadSince, downSamples) && Distinct(sample.statuses)
      modifies this`nodes, this`run, this`peerAheadSince, this`downSamples
      ensures run == old(run) + [sample] && Counted(settings, run, nodes, peerAheadSince, downSamples)
      ensures StallSignal(run, settings.local, settings.stallSeconds) ==
        if status.None? then Silent else StallVerdict(status.value, stalled, grew)
      ensures DownSignal(run, settings.local, settings.required) ==
        if status.None? then Silent else DownVerdict(status.value, confirmed)
    {
      confirmed, stalled, grew := false, false, false;
      var previous := Get(nodes, settings.local);
      var updated := UpdateProgress(nodes, sample);
      RecordsOn(run, nodes, sample, updated);
      SampleCounts(settings, run, nodes, peerAheadSince, downSamples, sample, updated);
      nodes, run := updated, run + [sample];
      status := Lookup(sample.statuses, settings.local);
      if status.None? || status.value.queryError {
        peerAheadSince, downSamples, status := None, 0, None;
        return;
      }
      confirmed := JudgeDown(status.value);
      stalled := JudgeStall(sample, status.value);
      grew := Grows(previous, status.value);
    }

    /** One sample of `run_once`; the flags say whether a post of each alert would arrive. */
    method RunOnce(sample: Sample, downDelivered: bool, stallDelivered: bool)
      returns (downSent: bool, stallSent: bool)
      requires Valid() && Distinct(sample.statuses)
      modifies this
      ensures Valid() && run == old(run) + [sample]
      ensures stallTurns == old(stallTurns) + [StallTurn(run, settings, stallDelivered)]
      ensures downTurns == old(downTurns) + [DownTurn(run, settings, downDelivered)]
      ensures downSent == (Posts(old(downAlert), DownTurn(run, settings, downDelivered), settings.throttle)
                           && downDelivered)
      ensures stallSent == (Posts(old(stallAlert), StallTurn(run, settings, stallDelivered), settings.throttle)
                            && stallDelivered)
    {
      var status, confirmed, stalled, grew := Take(sample);
      downSent := TurnDown(old(run), sample, status, confirmed, downDelivered);
      stallSent := TurnStall(old(run), sample, status, stalled, grew, stallDelivered);
    }
  }

  predicate AheadOf(p: Status, nodes: map<string, HostRecord>, status: Status, ts: int)
  {
    Ahead(p, Get(nodes, p.host), status, Get(nodes, status.host), ts)
  }

  function ProgressTime(nodes: map<string, HostRecord>, host: string, ts: int): int
  {
    var r := Get(nodes, host);
    if r.lastProgress.Some? then r.lastProgress.value else ts
  }

  ghost predicate ShowsStall(nodes: map<string, HostRecord>, sample: Sample, status: Status)
  {
    && !ControllerOwns(status) && Healthy(status) && status.exact
    && exists p :: p in sample.statuses && AheadOf(p, nodes, status, sample.ts)
  }

  ghost predicate Records(nodes: map<string, HostRecord>, run: History)
  {
    forall h :: Get(nodes, h) == Tracked(run, h)
  }

  /** What one more sample adds, read off the records it leaves. */
  lemma SampleAdds(run: History, sample: Sample, local: string, nodes: map<string, HostRecord>)
    requires Records(nodes, run + [sample])
    ensures var run' := run + [sample];
      && Downs(run', local) == (if Down(sample, local) then Downs(run, local) + 1 else 0)
      && (Evident(run', local) <==>
          Usable(sample, local) && ShowsStall(nodes, sample, Lookup(sample.statuses, local).value))
      && AheadSince(run', local) == AheadAfter(AheadSince(run, local), Evident(run', local),
                                               ProgressTime(nodes, local, sample.ts), sample.ts)
  {
    var run' := run + [sample];
    assert run'[..|run'| - 1] == run;
    if Usable(sample, local) {
      var s := Lookup(sample.statuses, local).value;
      forall p | p in sample.statuses
        ensures AheadOf(p, nodes, s, sample.ts) <==>
          Ahead(p, Tracked(run', p.host), s, Tracked(run', local), sample.ts)
      {
      }
    }
  }
}
