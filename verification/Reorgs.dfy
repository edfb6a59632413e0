/**
 * The persistent reorganisation log of the NU7 selector (`record_public_reorgs`): a baseline tip, and
 * the times of the sampled chain replacements of the last day.
 */
module Reorgs {
  import opened Prelude
  import opened Chain

  const DAY := 86400
  const CAPACITY := 10000

  datatype Log = Log(startedAt: int, lastObservedAt: int, height: int, hash: Hash, events: seq<int>)

  predicate HexDigit(c: char) { '0' <= c <= '9' || 'a' <= c <= 'f' }

  predicate WellFormed(hash: Hash)
  {
    |hash| == 64 && forall i :: 0 <= i < 64 ==> HexDigit(hash[i])
  }

  /** The validator every call applies to the log it finds. */
  ghost predicate Accepts(log: Log, now: int)
  {
    && |log.events| <= CAPACITY
    && 0 < log.startedAt <= log.lastObservedAt <= now
    && (forall i :: 0 <= i < |log.events| ==>
          0 < log.events[i] <= now && log.startedAt <= log.events[i] <= log.lastObservedAt)
    && Nondecreasing(log.events)
    && log.height > 0 && WellFormed(log.hash)
  }

  /**
   * One sampled tip with the answers its source gives: the hash it holds at the baseline height (None
   * when the read raises), and whether `confirm_tip` still finds the tip on the chain.
   */
  datatype Call = Call(height: int, hash: Hash, ancestor: Option<Hash>, confirmed: bool, now: int)

  datatype Error = Invalid | NoAncestry | Full | TipMoved

  datatype Report = Report(reorgs24h: Option<nat>, since: int)

  predicate Moved(log: Log, call: Call) { (call.height, call.hash) != (log.height, log.hash) }

  predicate Lagging(log: Log, call: Call) { Moved(log, call) && call.height < log.height }

  /** The call's tip replaces the baseline: the source holds another block at the baseline height. */
  predicate Replaces(log: Log, call: Call)
  {
    Moved(log, call) && !Lagging(log, call) && call.ancestor != Some(log.hash)
  }

  function Cutoff(log: Log, now: int): int { Max(now - DAY, log.startedAt) }

  /** What one call answers, and the log it leaves. */
  ghost function Observe(log: Option<Log>, call: Call): Result<(Log, Report), Error>
  {
    match log
    case None =>
      if !call.confirmed then Err(TipMoved)
      else Ok((Log(call.now, call.now, call.height, call.hash, []), Report(None, call.now)))
    case Some(previous) =>
      if !Accepts(previous, call.now) then Err(Invalid)
      else
        var recent := Since(previous.events, Cutoff(previous, call.now));
        if Lagging(previous, call) then
          if call.confirmed then Ok((previous, Report(None, Cutoff(previous, call.now)))) else Err(TipMoved)
        else if Moved(previous, call) && (call.ancestor.None? || !WellFormed(call.ancestor.value)) then
          Err(NoAncestry)
        else if Replaces(previous, call) && |recent| >= CAPACITY then Err(Full)
        else if !call.confirmed then Err(TipMoved)
        else
          var events := if Replaces(previous, call) then recent + [call.now] else recent;
          Ok((Log(previous.startedAt, call.now, call.height, call.hash, events),
              Report(Some(|events|), Cutoff(previous, call.now))))
  }

  /** A hash is 64 lower-case hexadecimal digits. */
  lemma HashExactly(hash: Hash)
    ensures WellFormed(hash) <==> |hash| == 64 && forall i :: 0 <= i < |hash| ==> hash[i] in "0123456789abcdef"
  {
  }

  /** Every time in the log is positive and past, and the events come in order between the two others. */
  ghost predicate TimesProper(log: Log, now: int)
  {
    && 0 < log.startedAt <= now && 0 < log.lastObservedAt <= now
    && (forall t :: t in log.events ==> 0 < t <= now && log.startedAt <= t <= log.lastObservedAt)
    && log.startedAt <= log.lastObservedAt
    && forall i :: 0 < i < |log.events| ==> log.events[i - 1] <= log.events[i]
  }

  lemma AcceptsExactly(log: Log, now: int)
    ensures Accepts(log, now) <==>
      TimesProper(log, now) && |log.events| <= 10000 && log.height >= 1 && WellFormed(log.hash)
  {
    StepwiseOrdered(log.events);
    if TimesProper(log, now) {
      forall i | 0 <= i < |log.events|
        ensures 0 < log.events[i] <= now && log.startedAt <= log.events[i] <= log.lastObservedAt
      {
        assert log.events[i] in log.events;
      }
    }
  }

  lemma {:induction false} StepwiseOrdered(s: seq<int>)
    ensures Nondecreasing(s) <==> forall i :: 0 < i < |s| ==> s[i - 1] <= s[i]
  {
    if forall i :: 0 < i < |s| ==> s[i - 1] <= s[i] {
      forall i, j | 0 <= i <= j < |s| ensures s[i] <= s[j] { StepsUp(s, i, j); }
    }
  }

  lemma {:induction false} StepsUp(s: seq<int>, i: nat, j: nat)
    requires i <= j < |s| && forall k :: 0 < k < |s| ==> s[k - 1] <= s[k]
    ensures s[i] <= s[j]
  {
    if i < j { StepsUp(s, i, j - 1); }
  }

  // ---- the method on the selector's state ----

  method Acceptable(log: Log, now: int) returns (ok: bool)
    ensures ok <==> Accepts(log, now)
  {
    if |log.events| > CAPACITY || !(0 < log.startedAt <= now) || !(0 < log.lastObservedAt <= now)
       || log.startedAt > log.lastObservedAt || log.height <= 0 || !WellFormed(log.hash)
    {
      return false;
    }
    for i := 0 to |log.events|
      invariant forall j :: 0 <= j < i ==>
        0 < log.events[j] <= now && log.startedAt <= log.events[j] <= log.lastObservedAt
      invariant forall j, k :: 0 <= j < k < i ==> log.events[j] <= log.events[k]
    {
      var t := log.events[i];
      if !(0 < t <= now) || t < log.startedAt || t > log.lastObservedAt { return false; }
      if i > 0 && t < log.events[i - 1] { return false; }
    }
    ok := true;
  }

  class Observer {
    var state: Option<Log>

    /** Count sampled replacements, never ordinary extensions; a raised error leaves the log alone. */
    method Record(call: Call) returns (r: Result<Report, Error>)
      modifies this
      ensures match Observe(old(state), call)
        case Err(e) => r == Err(e) && state == old(state)
        case Ok((log, report)) => r == Ok(report) && state == Some(log)
    {
      if state.None? {
        if !call.confirmed { return Err(TipMoved); }
        state := Some(Log(call.now, call.now, call.height, call.hash, []));
        return Ok(Report(None, call.now));
      }
      var previous := state.value;
      var acceptable := Acceptable(previous, call.now);
      if !acceptable { return Err(Invalid); }
      var cutoff := Max(call.now - DAY, previous.startedAt);
      var events := Since(previous.events, cutoff);
      var changed := call.height != previous.height || call.hash != previous.hash;
      if changed && call.height < previous.height {
        if !call.confirmed { return Err(TipMoved); }
        return Ok(Report(None, cutoff));
      }
      if changed {
        if call.ancestor.None? || !WellFormed(call.ancestor.value) { return Err(NoAncestry); }
        if call.ancestor.value != previous.hash {
          if |events| >= CAPACITY { return Err(Full); }
          events := events + [call.now];
        }
      }
      if !call.confirmed { return Err(TipMoved); }
      state := Some(Log(previous.startedAt, call.now, call.height, call.hash, events));
      r := Ok(Report(Some(|events|), cutoff));
    }
  }

  // ---- one call ----

  /** Read from a chain that holds the tip, a replacement is counted exactly when the baseline is no ancestor. */
  lemma ReplacementExact(book: Book, view: View, log: Log, call: Call)
    requires Linked(book, view) && 0 < log.height <= call.height < |view| && view[call.height] == call.hash
    requires call.ancestor == Some(view[log.height])
    ensures Replaces(log, call) <==> Ancestor(book, call.hash, call.height - log.height) != log.hash
  {
    ViewAncestor(book, view, call.height, log.height);
  }

  /** Any log a call writes passes every later validator exactly when the sampled tip was well formed. */
  lemma WrittenAccepted(log: Option<Log>, call: Call, later: int)
    requires Observe(log, call).Ok? && 0 < call.now <= later
    requires log.Some? ==> Accepts(log.value, call.now)
    ensures var written := Observe(log, call).value.0;
      Accepts(written, later) <==>
        (log.Some? && Lagging(log.value, call)) || (call.height > 0 && WellFormed(call.hash))
  {
    if log.Some? {
      var previous := log.value;
      var cutoff := Cutoff(previous, call.now);
      SinceOrdered(previous.events, cutoff);
      SinceLength(previous.events, cutoff);
      forall i | 0 <= i < |Since(previous.events, cutoff)|
        ensures Since(previous.events, cutoff)[i] in previous.events
      {
        SinceMembers(previous.events, cutoff, Since(previous.events, cutoff)[i]);
      }
    }
  }

  /** A number is reported exactly when there is a baseline and the tip is not below it. */
  lemma ReportsExactly(log: Option<Log>, call: Call)
    requires Observe(log, call).Ok?
    ensures var (written, report) := Observe(log, call).value;
      && (report.reorgs24h.Some? <==> log.Some? && call.height >= log.value.height)
      && report.since == (if log.None? then call.now else Max(call.now - 86400, log.value.startedAt))
      && (log.Some? && call.height < log.value.height ==> written == log.value)
      && (log.None? || call.height >= log.value.height ==>
            && written.height == call.height && written.hash == call.hash && written.lastObservedAt == call.now
            && written.startedAt == if log.None? then call.now else log.value.startedAt)
  {
  }

  /**
   * A call is answered exactly when the log it finds is acceptable, the tip is confirmed, and a tip that
   * moved without falling has a readable ancestor, which is the baseline unless there is room for an event.
   */
  lemma AnsweredExactly(log: Option<Log>, call: Call)
    ensures Observe(log, call).Ok? <==>
      && call.confirmed
      && (log.Some? ==>
            && Accepts(log.value, call.now)
            && (call.height >= log.value.height && (call.height, call.hash) != (log.value.height, log.value.hash) ==>
                  && call.ancestor.Some? && WellFormed(call.ancestor.value)
                  && (call.ancestor.value == log.value.hash ||
                      |Since(log.value.events, Max(call.now - 86400, log.value.startedAt))| < 10000)))
  {
  }

  // ---- whole runs with saves and crashes ----

  datatype Step = Poll(call: Call) | Save | Crash

  /** The log in memory and on disk, each with the complete history of replacements behind it. */
  datatype World = World(memory: Option<Log>, past: seq<int>, disk: Option<Log>, diskPast: seq<int>)

  ghost function Next(w: World, step: Step): World
  {
    match step
    case Save => w.(disk := w.memory, diskPast := w.past)
    case Crash => w.(memory := w.disk, past := w.diskPast)
    case Poll(call) =>
      var r := Observe(w.memory, call);
      if r.Err? then w
      else w.(memory := Some(r.value.0), past := NextPast(w.memory, w.past, call))
  }

  ghost function Run(steps: seq<Step>): World
  {
    if steps == [] then World(None, [], None, [])
    else Next(Run(steps[..|steps| - 1]), steps[|steps| - 1])
  }

  /** Poll times, in order, over the whole run. */
  ghost function Times(steps: seq<Step>): seq<int>
  {
    if steps == [] then []
    else
      var init := Times(steps[..|steps| - 1]);
      if steps[|steps| - 1].Poll? then init + [steps[|steps| - 1].call.now] else init
  }

  ghost predicate ProperClock(steps: seq<Step>)
  {
    && Nondecreasing(Times(steps))
    && forall i :: 0 <= i < |steps| && steps[i].Poll? ==>
         steps[i].call.now > 0 && steps[i].call.height > 0 && WellFormed(steps[i].call.hash)
  }

  /** The pruned events are the complete history restricted to the day before the last written poll. */
  ghost predicate Refines(log: Option<Log>, past: seq<int>, clock: int)
  {
    match log
    case None => past == []
    case Some(l) =>
      && Accepts(l, clock) && History(past, l.startedAt, l.lastObservedAt)
      && l.events == Since(past, l.lastObservedAt - DAY)
  }

  lemma ProperInit(steps: seq<Step>)
    requires steps != [] && ProperClock(steps)
    ensures ProperClock(steps[..|steps| - 1])
  {
    var init := steps[..|steps| - 1];
    forall i, j | 0 <= i < j < |Times(init)| ensures Times(init)[i] <= Times(init)[j] {
      assert Times(steps)[i] == Times(init)[i] && Times(steps)[j] == Times(init)[j];
    }
  }

  ghost predicate DiskBehind(w: World)
  {
    w.disk.Some? ==> w.memory.Some? && w.disk.value.height <= w.memory.value.height
  }

  /** The durable baseline never stands above the one in memory. */
  lemma {:induction false} RunBehind(steps: seq<Step>)
    ensures DiskBehind(Run(steps))
  {
    if steps != [] { RunBehind(steps[..|steps| - 1]); }
  }

  /** Over every run of polls, saves and crashes, the height of the durable baseline never falls. */
  lemma {:induction false} BaselineNeverFalls(steps: seq<Step>, n: nat)
    requires n <= |steps| && Run(steps[..n]).disk.Some?
    ensures Run(steps).disk.Some? && Run(steps[..n]).disk.value.height <= Run(steps).disk.value.height
    decreases |steps|
  {
    if n == |steps| {
      assert steps[..n] == steps;
    } else {
      var init := steps[..|steps| - 1];
      assert init[..n] == steps[..n];
      BaselineNeverFalls(init, n);
      RunBehind(init);
    }
  }

  /** A first sampled tip that the validator would refuse, saved, is all the log ever holds. */
  lemma {:induction false} MalformedTipSticks(call: Call, steps: seq<Step>)
    requires call.confirmed && !(call.height > 0 && WellFormed(call.hash))
    ensures var log := Log(call.now, call.now, call.height, call.hash, []);
      && Run([Poll(call), Save] + steps).memory == Some(log) && Run([Poll(call), Save] + steps).disk == Some(log)
      && forall later :: Observe(Some(log), later) == Err(Invalid)
  {
    var start := [Poll(call), Save];
    if steps == [] {
      assert start + steps == start && start[..1] == [Poll(call)] && [Poll(call)][..0] == [];
      assert Run([Poll(call)]).memory == Some(Log(call.now, call.now, call.height, call.hash, []));
    } else {
      var init := steps[..|steps| - 1];
      MalformedTipSticks(call, init);
      assert (start + steps)[..|start + steps| - 1] == start + init;
    }
  }

  /** Sixty-four digits, in upper case. */
  const SHOUTED: Hash := seq(64, _ => 'A')

  /** Such a tip, at any height and time: a source that spells its hashes in upper case. */
  lemma MalformedTip(height: int, now: int, steps: seq<Step>, later: Call)
    ensures |SHOUTED| == 64
    ensures Observe(Run([Poll(Call(height, SHOUTED, None, true, now)), Save] + steps).memory, later) == Err(Invalid)
  {
    assert SHOUTED[0] == 'A';
    MalformedTipSticks(Call(height, SHOUTED, None, true, now), steps);
  }

  /** Pruning the stored events prunes the complete history. */
  lemma RecentIsPast(log: Log, past: seq<int>, now: int)
    requires log.lastObservedAt <= now && log.events == Since(past, log.lastObservedAt - DAY)
    requires forall i :: 0 <= i < |log.events| ==> log.startedAt <= log.events[i]
    ensures Since(log.events, Cutoff(log, now)) == Since(past, now - DAY)
  {
    SinceTwice(past, log.lastObservedAt - DAY, now - DAY);
    StartIrrelevant(log.events, log.startedAt, now - DAY);
  }

  ghost predicate History(past: seq<int>, from: int, to: int)
  {
    Nondecreasing(past) && forall i :: 0 <= i < |past| ==> from <= past[i] <= to
  }

  lemma HistoryGrows(past: seq<int>, from: int, to: int, now: int)
    requires History(past, from, to) && from <= to <= now
    ensures History(past, from, now) && History(past + [now], from, now)
  {
  }

  /** One accepted call keeps the pruned list equal to the filtered history. */
  lemma {:induction false} CallRefines(log: Option<Log>, past: seq<int>, call: Call, clock: int)
    requires Refines(log, past, clock) && clock <= call.now
    requires call.now > 0 && call.height > 0 && WellFormed(call.hash)
    requires Observe(log, call).Ok?
    ensures Refines(Some(Observe(log, call).value.0), NextPast(log, past, call), call.now)
  {
    if log.Some? { assert Accepts(log.value, call.now); }
    WrittenAccepted(log, call, call.now);
    if log.Some? && !Lagging(log.value, call) {
      RecentIsPast(log.value, past, call.now);
      SinceAppend(past, call.now, call.now - DAY);
      HistoryGrows(past, log.value.startedAt, log.value.lastObservedAt, call.now);
    }
  }

  ghost function NextPast(log: Option<Log>, past: seq<int>, call: Call): seq<int>
  {
    if log.Some? && Replaces(log.value, call) then past + [call.now] else past
  }

  /** Nothing precedes the start of the observation, so the later of the two cutoffs is the day's. */
  lemma {:induction false} StartIrrelevant(s: seq<int>, start: int, cutoff: int)
    requires forall i :: 0 <= i < |s| ==> start <= s[i]
    ensures Since(s, Max(cutoff, start)) == Since(s, cutoff)
  {
    if s != [] { StartIrrelevant(s[..|s| - 1], start, cutoff); }
  }

  lemma RefinesLater(log: Option<Log>, past: seq<int>, clock: int, later: int)
    requires Refines(log, past, clock) && clock <= later
    ensures Refines(log, past, later)
  {
  }

  /**
   * Over every run of polls, failed polls, saves and crashes: memory and disk both hold the complete
   * history filtered to the day before their last written poll, and both pass the validator of any later
   * call.
   */
  lemma {:induction false} RunRefines(steps: seq<Step>, clock: int)
    requires ProperClock(steps)
    requires forall i :: 0 <= i < |Times(steps)| ==> Times(steps)[i] <= clock
    ensures Refines(Run(steps).memory, Run(steps).past, clock)
    ensures Refines(Run(steps).disk, Run(steps).diskPast, clock)
  {
    if steps != [] {
      var init, step := steps[..|steps| - 1], steps[|steps| - 1];
      var w := Run(init);
      ProperInit(steps);
      if step.Poll? {
        assert Times(steps)[|Times(init)|] == step.call.now;
        forall i | 0 <= i < |Times(init)| ensures Times(init)[i] <= step.call.now {
          assert Times(steps)[i] == Times(init)[i];
        }
        RunRefines(init, step.call.now);
        if Observe(w.memory, step.call).Ok? {
          CallRefines(w.memory, w.past, step.call, step.call.now);
        }
        RefinesLater(Run(steps).memory, Run(steps).past, step.call.now, clock);
        RefinesLater(w.disk, w.diskPast, step.call.now, clock);
      } else {
        RunRefines(init, clock);
      }
    }
  }

  lemma CallCounts(log: Option<Log>, past: seq<int>, call: Call, clock: int)
    requires Refines(log, past, clock) && clock <= call.now
    requires call.now > 0 && call.height > 0 && WellFormed(call.hash)
    requires Observe(log, call).Ok? && Observe(log, call).value.1.reorgs24h.Some?
    ensures Observe(log, call).value.1.reorgs24h.value == |Since(NextPast(log, past, call), call.now - DAY)|
  {
    CallRefines(log, past, call, clock);
  }

  /** What precedes a poll in time. */
  lemma BeforePoll(steps: seq<Step>, call: Call)
    requires ProperClock(steps + [Poll(call)])
    ensures ProperClock(steps) && Run(steps + [Poll(call)]) == Next(Run(steps), Poll(call))
    ensures Times(steps + [Poll(call)]) == Times(steps) + [call.now]
    ensures forall i :: 0 <= i < |Times(steps)| ==> Times(steps)[i] <= call.now
    ensures call.now > 0 && call.height > 0 && WellFormed(call.hash)
  {
    var all := steps + [Poll(call)];
    assert all[..|steps|] == steps && all[|steps|] == Poll(call);
    ProperInit(all);
    forall i | 0 <= i < |Times(steps)| ensures Times(steps)[i] <= call.now {
      assert Times(all)[i] <= Times(all)[|Times(steps)|];
    }
  }

  /** A successful poll publishes exactly the number of replacements in the trailing day. */
  lemma {:induction false} PublishedCount(steps: seq<Step>, call: Call)
    requires ProperClock(steps + [Poll(call)])
    requires Observe(Run(steps).memory, call).Ok?
    ensures var log, report := Run(steps).memory, Observe(Run(steps).memory, call).value.1;
      report.reorgs24h ==
        if log.None? || call.height < log.value.height then None
        else Some(|Since(Run(steps + [Poll(call)]).past, call.now - 86400)|)
  {
    BeforePoll(steps, call);
    RunRefines(steps, call.now);
    if Observe(Run(steps).memory, call).value.1.reorgs24h.Some? {
      CallCounts(Run(steps).memory, Run(steps).past, call, call.now);
    }
  }

  // ---- the capacity is out of reach ----

  ghost predicate Spaced(s: seq<int>)
  {
    forall i :: 0 < i < |s| ==> s[i] - s[i - 1] >= 10
  }

  lemma {:induction false} SpacedBound(s: seq<int>, lo: int, hi: int)
    requires Spaced(s) && s != [] && forall i :: 0 <= i < |s| ==> lo <= s[i] <= hi
    ensures 10 * (|s| - 1) <= s[|s| - 1] - lo <= hi - lo
  {
    if |s| > 1 {
      assert s[|s| - 1] - s[|s| - 2] >= 10;
      SpacedBound(s[..|s| - 1], lo, hi);
    }
  }

  lemma {:induction false} SinceSpaced(s: seq<int>, cutoff: int, bound: int)
    requires Spaced(s) && forall i :: 0 <= i < |s| ==> s[i] <= bound
    ensures Spaced(Since(s, cutoff))
    ensures forall i :: 0 <= i < |Since(s, cutoff)| ==> cutoff <= Since(s, cutoff)[i] <= bound
  {
    if s != [] {
      var init := s[..|s| - 1];
      SpacedTail(s);
      SinceSpaced(init, cutoff, s[|s| - 1] - 10);
    }
  }

  lemma {:induction false} SpacedTail(s: seq<int>)
    requires Spaced(s) && s != []
    ensures forall i :: 0 <= i < |s| - 1 ==> s[i] <= s[|s| - 1] - 10
  {
    if |s| > 1 {
      SpacedTail(s[..|s| - 1]);
      assert s[|s| - 1] - s[|s| - 2] >= 10;
    }
  }

  ghost predicate SpacedTo(s: seq<int>, bound: int)
  {
    Spaced(s) && forall i :: 0 <= i < |s| ==> s[i] <= bound
  }

  lemma SpacedBefore(s: seq<int>, t: int)
    requires Spaced(s + [t])
    ensures SpacedTo(s, t - 10)
  {
    SpacedTail(s + [t]);
    forall i | 0 < i < |s| ensures s[i] - s[i - 1] >= 10 { assert (s + [t])[i] - (s + [t])[i - 1] >= 10; }
    forall i | 0 <= i < |s| ensures s[i] <= t - 10 { assert (s + [t])[i] == s[i]; }
  }

  lemma {:induction false} RunSpaced(steps: seq<Step>, bound: int)
    requires SpacedTo(Times(steps), bound)
    ensures SpacedTo(Run(steps).past, bound) && SpacedTo(Run(steps).diskPast, bound)
  {
    if steps != [] {
      var init, step := steps[..|steps| - 1], steps[|steps| - 1];
      if step.Poll? {
        var now := step.call.now;
        assert Times(steps) == Times(init) + [now] && Times(steps)[|Times(init)|] == now;
        SpacedBefore(Times(init), now);
        RunSpaced(init, now - 10);
      } else {
        RunSpaced(init, bound);
      }
    }
  }

  lemma RoomLeft(log: Log, past: seq<int>, now: int)
    requires Refines(Some(log), past, now - 10) && SpacedTo(past, now - 10)
    ensures |Since(log.events, Cutoff(log, now))| < CAPACITY
  {
    RecentIsPast(log, past, now);
    SinceSpaced(past, now - DAY, now - 10);
    var recent := Since(past, now - DAY);
    if recent != [] { SpacedBound(recent, now - DAY, now - 10); }
  }

  /** With polls at least ten seconds apart, no run ever reaches the event capacity. */
  lemma {:induction false} CapacityUnreachable(steps: seq<Step>, call: Call)
    requires ProperClock(steps + [Poll(call)]) && Spaced(Times(steps + [Poll(call)]))
    ensures Observe(Run(steps).memory, call) != Err(Full)
  {
    BeforePoll(steps, call);
    SpacedBefore(Times(steps), call.now);
    RunSpaced(steps, call.now - 10);
    RunRefines(steps, call.now - 10);
    if Run(steps).memory.Some? { RoomLeft(Run(steps).memory.value, Run(steps).past, call.now); }
  }
}
