/**
 * Incident alerting of the fleet audit: `audit_transitions` splits problems into new, reminder and
 * recovered lines, and `cmd_audit` keeps the new alert state only after a confirmed post.
 */
module Incidents {
  import opened Prelude

  datatype Problem = Problem(kind: string, detail: string, incident: string, deliveredAt: Option<int>)

  datatype Record = Record(destination: Option<string>, kind: string, detail: string, incident: string,
                           firstSeen: int, lastSent: int)

  datatype Line = New | Reminder | Recovered

  /** One node's part of the audit settings. */
  datatype Pass = Pass(timestamp: int, interval: int, due: bool, destination: Option<string>)

  predicate SameIncident(r: Record, p: Problem) { r.kind == p.kind && r.incident == p.incident }

  /** Records kept for another destination do not count. */
  function Prior(record: Option<Record>, pass: Pass): Option<Record>
  {
    if record.Some? && record.value.destination == pass.destination then record else None
  }

  /** The record that stands for the problem before reminders: the known one, or a first sighting. */
  function Opened(prior: Option<Record>, p: Problem, pass: Pass): Record
  {
    if prior.Some? && SameIncident(prior.value, p) then prior.value
    else
      var at := if p.deliveredAt.Some? && prior.None? then p.deliveredAt.value else pass.timestamp;
      Record(pass.destination, p.kind, p.detail, p.incident, at, at)
  }

  /** A first sighting that no controller receipt accounts for is posted as new. */
  predicate IsNew(prior: Option<Record>, p: Problem)
  {
    !(prior.Some? && SameIncident(prior.value, p)) && (p.deliveredAt.None? || prior.Some?)
  }

  predicate Reminds(prior: Option<Record>, p: Problem, pass: Pass)
  {
    !IsNew(prior, p) && pass.due && pass.timestamp - Opened(prior, p, pass).lastSent >= pass.interval
  }

  function LineFor(prior: Option<Record>, problem: Option<Problem>, pass: Pass): Option<Line>
  {
    match problem
    case None => if prior.Some? then Some(Recovered) else None
    case Some(p) => if IsNew(prior, p) then Some(New) else if Reminds(prior, p, pass) then Some(Reminder) else None
  }

  function RecordFor(prior: Option<Record>, problem: Option<Problem>, pass: Pass): Option<Record>
  {
    match problem
    case None => None
    case Some(p) =>
      var r := Opened(prior, p, pass);
      Some(r.(detail := p.detail, lastSent := if Reminds(prior, p, pass) then pass.timestamp else r.lastSent))
  }

  function Find<T>(m: map<string, T>, n: string): Option<T> { if n in m then Some(m[n]) else None }

  /** One problem against the record kept for its node. */
  method Judge(prior: Option<Record>, problem: Problem, pass: Pass) returns (line: Option<Line>, kept: Record)
    requires prior.Some? ==> prior.value.destination == pass.destination
    ensures line == LineFor(prior, Some(problem), pass)
    ensures Some(kept) == RecordFor(prior, Some(problem), pass)
    ensures var known := prior.Some? && prior.value.kind == problem.kind && prior.value.incident == problem.incident;
      var told := if known then Some(prior.value.lastSent) else if prior.None? then problem.deliveredAt else None;
      && (line == Some(New) <==> told.None?)
      && (line == Some(Reminder) <==> told.Some? && pass.due && pass.timestamp - told.value >= pass.interval)
      && kept.destination == pass.destination && kept.kind == problem.kind && kept.incident == problem.incident
      && kept.detail == problem.detail
      && kept.lastSent == (if line.Some? || told.None? then pass.timestamp else told.value)
      && kept.firstSeen == if known then prior.value.firstSeen else if told.Some? then told.value else pass.timestamp
  {
    var record := Record(pass.destination, problem.kind, problem.detail, problem.incident, pass.timestamp,
                         pass.timestamp);
    if prior.None? || prior.value.kind != problem.kind || prior.value.incident != problem.incident {
      if problem.deliveredAt.None? || prior.Some? { return Some(New), record; }
      record := record.(firstSeen := problem.deliveredAt.value, lastSent := problem.deliveredAt.value);
    } else {
      record := record.(firstSeen := prior.value.firstSeen, lastSent := prior.value.lastSent);
    }
    line := None;
    if pass.due && pass.timestamp - record.lastSent >= pass.interval {
      line := Some(Reminder);
      record := record.(lastSent := pass.timestamp);
    }
    kept := record;
  }

  /** Node n's line and record are what its problem and its record for this destination call for. */
  ghost predicate Judged(lines: map<string, Line>, current: map<string, Record>, prior: map<string, Record>,
                         problem: Option<Problem>, pass: Pass, n: string)
  {
    && Find(lines, n) == LineFor(Find(prior, n), problem, pass)
    && Find(current, n) == RecordFor(Find(prior, n), problem, pass)
  }

  /** The lines and records of one audit over the problems found and the records of the nodes inspected. */
  method AuditTransitions(problems: map<string, Problem>, previous: map<string, Record>, pass: Pass)
    returns (lines: map<string, Line>, current: map<string, Record>)
    ensures forall n :: Judged(lines, current, Addressed(previous, pass), Find(problems, n), pass, n)
  {
    var prior := Addressed(previous, pass);
    lines, current := map[], map[];
    var todo := problems.Keys;
    while todo != {}
      invariant todo <= problems.Keys
      invariant forall n :: n in problems && n !in todo ==> Judged(lines, current, prior, Some(problems[n]), pass, n)
      invariant forall n :: n !in problems || n in todo ==> n !in lines && n !in current
      decreases |todo|
    {
      var name :| name in todo;
      ghost var linesBefore, currentBefore := lines, current;
      todo := todo - {name};
      var line, kept := Judge(Find(prior, name), problems[name], pass);
      if line.Some? { lines := lines[name := line.value]; }
      current := current[name := kept];
      forall n | n in problems && n !in todo ensures Judged(lines, current, prior, Some(problems[n]), pass, n) {
        if n != name { assert Judged(linesBefore, currentBefore, prior, Some(problems[n]), pass, n); }
      }
    }
    ghost var posted := lines;
    lines := lines + map n | n in prior && n !in problems :: Recovered;
    forall n ensures Judged(lines, current, prior, Find(problems, n), pass, n) {
      if n in problems { assert Judged(posted, current, prior, Some(problems[n]), pass, n); }
    }
  }

  /** The records kept for this destination. */
  function Addressed(previous: map<string, Record>, pass: Pass): (r: map<string, Record>)
    ensures forall n :: Find(r, n) == Prior(Find(previous, n), pass)
  {
    map n | n in previous && previous[n].destination == pass.destination :: previous[n]
  }

  // ---- cmd_audit ----

  datatype AuditState = AuditState(problems: map<string, Record>, lastDigest: Option<int>)

  /** An audit: the nodes it inspects, what it finds, and whether a post it makes is confirmed. */
  datatype Audit = Audit(selected: set<string>, problems: map<string, Problem>, timestamp: int, targeted: bool,
                         posted: bool)

  function PassOf(s: AuditState, a: Audit, interval: int, destination: Option<string>): Pass
  {
    var last := if s.lastDigest.Some? then s.lastDigest.value else a.timestamp;
    Pass(a.timestamp, interval, !a.targeted && a.timestamp - last >= interval, destination)
  }

  /** What the audit finds at an inspected node. */
  function Found(a: Audit, n: string): Option<Problem> { if n in a.selected then Find(a.problems, n) else None }

  function NodeLine(s: AuditState, a: Audit, interval: int, destination: Option<string>, n: string): Option<Line>
  {
    var pass := PassOf(s, a, interval, destination);
    if n in a.selected then LineFor(Prior(Find(s.problems, n), pass), Found(a, n), pass) else None
  }

  function NodeRecord(s: AuditState, a: Audit, interval: int, destination: Option<string>, n: string): Option<Record>
  {
    var pass := PassOf(s, a, interval, destination);
    if n in a.selected then RecordFor(Prior(Find(s.problems, n), pass), Found(a, n), pass)
    else Find(s.problems, n)
  }

  function Lines(s: AuditState, a: Audit, interval: int, destination: Option<string>): map<string, Line>
  {
    map n | n in a.selected && NodeLine(s, a, interval, destination, n).Some? ::
      NodeLine(s, a, interval, destination, n).value
  }

  function Records(s: AuditState, a: Audit, interval: int, destination: Option<string>): map<string, Record>
  {
    map n | n in s.problems.Keys + a.selected && NodeRecord(s, a, interval, destination, n).Some? ::
      NodeRecord(s, a, interval, destination, n).value
  }

  /** The audit keeps its new state, unless it had something to say and could not say it. */
  predicate Kept(s: AuditState, a: Audit, interval: int, destination: Option<string>)
  {
    Lines(s, a, interval, destination) == map[] || a.posted
  }

  function NextDigest(s: AuditState, a: Audit, interval: int): Option<int>
  {
    var last := if s.lastDigest.Some? then s.lastDigest.value else a.timestamp;
    Some(if !a.targeted && a.timestamp - last >= interval then a.timestamp else last)
  }

  function Next(s: AuditState, a: Audit, interval: int, destination: Option<string>): AuditState
  {
    if Kept(s, a, interval, destination)
    then AuditState(Records(s, a, interval, destination), NextDigest(s, a, interval)) else s
  }

  lemma FindExtends<T>(a: map<string, T>, b: map<string, T>)
    requires forall n :: Find(a, n) == Find(b, n)
    ensures a == b
  {
    assert forall n :: n in a <==> Find(a, n).Some?;
    assert forall n :: n in b <==> Find(b, n).Some?;
    forall n | n in a ensures a[n] == b[n] { assert Find(a, n) == Find(b, n); }
  }

  /** The audit's effect on node n when it is kept. */
  ghost predicate Audited(s: AuditState, a: Audit, interval: int, destination: Option<string>,
                          lines: map<string, Line>, records: map<string, Record>, n: string)
  {
    && Find(lines, n) == NodeLine(s, a, interval, destination, n)
    && Find(records, n) == NodeRecord(s, a, interval, destination, n)
  }

  /** Judge the inspected nodes; the records of the others are carried over. */
  method Inspect(s: AuditState, a: Audit, interval: int, destination: Option<string>, due: bool)
    returns (lines: map<string, Line>, records: map<string, Record>)
    requires a.problems.Keys <= a.selected && due == PassOf(s, a, interval, destination).due
    ensures forall n :: Audited(s, a, interval, destination, lines, records, n)
  {
    var pass := Pass(a.timestamp, interval, due, destination);
    var scoped := map n | n in s.problems && n in a.selected :: s.problems[n];
    var current;
    lines, current := AuditTransitions(a.problems, scoped, pass);
    records := current + map n | n in s.problems && n !in a.selected :: s.problems[n];
    forall n ensures Audited(s, a, interval, destination, lines, records, n) {
      assert Judged(lines, current, Addressed(scoped, pass), Find(a.problems, n), pass, n);
      assert Find(Addressed(scoped, pass), n) == if n in a.selected then Prior(Find(s.problems, n), pass) else None;
    }
  }

  method CmdAudit(s: AuditState, a: Audit, interval: int, destination: Option<string>)
    returns (lines: map<string, Line>, next: AuditState)
    requires a.problems.Keys <= a.selected
    ensures lines == Lines(s, a, interval, destination)
    ensures next == Next(s, a, interval, destination)
    ensures lines.Keys <= a.selected && (lines != map[] && !a.posted ==> next == s)
    ensures lines == map[] || a.posted ==>
      forall n :: Find(next.problems, n) == NodeRecord(s, a, interval, destination, n)
  {
    var lastDigest := if s.lastDigest.Some? then s.lastDigest.value else a.timestamp;
    var due := !a.targeted && a.timestamp - lastDigest >= interval;
    var records;
    lines, records := Inspect(s, a, interval, destination, due);
    forall n
      ensures Find(lines, n) == Find(Lines(s, a, interval, destination), n)
      ensures Find(records, n) == Find(Records(s, a, interval, destination), n)
    {
      assert Audited(s, a, interval, destination, lines, records, n);
    }
    FindExtends(lines, Lines(s, a, interval, destination));
    FindExtends(records, Records(s, a, interval, destination));
    assert forall n :: Audited(s, a, interval, destination, lines, records, n);
    next := s;
    if lines == map[] || a.posted {
      next := AuditState(records, Some(if due then a.timestamp else lastDigest));
    }
  }

  // ---- traces ----

  /** What saved audits told about a node: a first notice, later reminders, the end of an incident. */
  datatype Event =
    | First(kind: string, incident: string, at: int, receipt: bool)
    | Again(kind: string, incident: string, at: int)
    | Cleared(kind: string, incident: string)

  /** The events of one kept audit at an inspected node. */
  function NodeEvents(prior: Option<Record>, problem: Option<Problem>, pass: Pass): seq<Event>
  {
    match problem
    case None => if prior.Some? then [Cleared(prior.value.kind, prior.value.incident)] else []
    case Some(p) =>
      Notice(prior, p, pass) + NextReminder(prior, p, pass)
  }

  /** Each line of a kept audit is one of its events: new, reminder and recovered lines, nothing else. */
  lemma LinesAreEvents(prior: Option<Record>, problem: Option<Problem>, pass: Pass)
    ensures var events, line := NodeEvents(prior, problem, pass), LineFor(prior, problem, pass);
      && (line == Some(New) <==> exists e :: e in events && e.First? && !e.receipt)
      && (line == Some(Reminder) <==> exists e :: e in events && e.Again?)
      && (line == Some(Recovered) <==> exists e :: e in events && e.Cleared?)
  {
    var events := NodeEvents(prior, problem, pass);
    match problem
    case None => if prior.Some? { assert events[0] in events; }
    case Some(p) =>
      if IsNew(prior, p) { assert events[0] in events; }
      if Reminds(prior, p, pass) { assert events[|events| - 1] in events; }
  }

  function Run(audits: seq<Audit>, interval: int, destination: Option<string>): AuditState
  {
    if audits == [] then AuditState(map[], None)
    else Next(Run(audits[..|audits| - 1], interval, destination), audits[|audits| - 1], interval, destination)
  }

  function Trace(audits: seq<Audit>, interval: int, destination: Option<string>, n: string): seq<Event>
  {
    if audits == [] then []
    else
      var init, a := audits[..|audits| - 1], audits[|audits| - 1];
      var s := Run(init, interval, destination);
      var pass := PassOf(s, a, interval, destination);
      Trace(init, interval, destination, n)
      + if n in a.selected && Kept(s, a, interval, destination)
        then NodeEvents(Prior(Find(s.problems, n), pass), Found(a, n), pass) else []
  }

  /** Event e may follow what came before: reminders and recoveries belong to the open incident. */
  ghost predicate Follows(before: seq<Event>, e: Event, interval: int)
  {
    var open := before != [] && !before[|before| - 1].Cleared?;
    match e
    case First(kind, incident, _, _) =>
      open ==> before[|before| - 1].kind != kind || before[|before| - 1].incident != incident
    case Again(kind, incident, at) =>
      && open && before[|before| - 1].kind == kind && before[|before| - 1].incident == incident
      && at - before[|before| - 1].at >= interval
    case Cleared(kind, incident) =>
      open && before[|before| - 1].kind == kind && before[|before| - 1].incident == incident
  }

  /** One first notice per incident, reminders at least an interval apart, and one recovery at its end. */
  ghost predicate Proper(events: seq<Event>, interval: int)
  {
    forall i :: 0 <= i < |events| ==> Follows(events[..i], events[i], interval)
  }

  /** When the latest incident was first noticed. */
  function FirstAt(events: seq<Event>): int
  {
    if events == [] then 0
    else if events[|events| - 1].First? then events[|events| - 1].at
    else FirstAt(events[..|events| - 1])
  }

  /** The saved record is the open incident of the trace. */
  ghost predicate Stands(record: Option<Record>, events: seq<Event>, destination: Option<string>)
  {
    match record
    case None => events == [] || events[|events| - 1].Cleared?
    case Some(r) =>
      && events != [] && !events[|events| - 1].Cleared? && r.destination == destination
      && events[|events| - 1].kind == r.kind && events[|events| - 1].incident == r.incident
      && events[|events| - 1].at == r.lastSent && FirstAt(events) == r.firstSeen
  }

  lemma ProperAppend(events: seq<Event>, e: Event, interval: int)
    requires Proper(events, interval) && Follows(events, e, interval)
    ensures Proper(events + [e], interval)
  {
    var all := events + [e];
    forall i | 0 <= i < |all| ensures Follows(all[..i], all[i], interval) {
      if i < |events| { assert all[..i] == events[..i]; } else { assert all[..i] == events; }
    }
  }

  /** Clearing an open incident leaves none. */
  lemma ClearExtends(r: Record, events: seq<Event>, pass: Pass)
    requires Proper(events, pass.interval) && Stands(Some(r), events, pass.destination)
    ensures var after := events + [Cleared(r.kind, r.incident)];
      Proper(after, pass.interval) && Stands(None, after, pass.destination)
  {
    ProperAppend(events, Cleared(r.kind, r.incident), pass.interval);
  }

  /** The first notice of another incident opens it. */
  lemma OpenExtends(record: Option<Record>, events: seq<Event>, p: Problem, pass: Pass, receipt: bool)
    requires Proper(events, pass.interval) && Stands(record, events, pass.destination)
    requires !(record.Some? && SameIncident(record.value, p))
    ensures var standing := Opened(record, p, pass);
      var after := events + [First(p.kind, p.incident, standing.firstSeen, receipt)];
      Proper(after, pass.interval) && Stands(Some(standing), after, pass.destination)
  {
    ProperAppend(events, First(p.kind, p.incident, Opened(record, p, pass).firstSeen, receipt), pass.interval);
  }

  /** A reminder keeps the incident open and moves its last notice. */
  lemma RemindExtends(r: Record, events: seq<Event>, p: Problem, pass: Pass)
    requires Proper(events, pass.interval) && Stands(Some(r), events, pass.destination)
    requires SameIncident(r, p) && pass.timestamp - r.lastSent >= pass.interval
    ensures var after := events + [Again(p.kind, p.incident, pass.timestamp)];
      && Proper(after, pass.interval)
      && Stands(Some(r.(detail := p.detail, lastSent := pass.timestamp)), after, pass.destination)
  {
    var e := Again(p.kind, p.incident, pass.timestamp);
    ProperAppend(events, e, pass.interval);
    assert (events + [e])[..|events|] == events;
  }

  /** The first notice, if one is due, and the record it leaves. */
  function Notice(prior: Option<Record>, p: Problem, pass: Pass): seq<Event>
  {
    if prior.Some? && SameIncident(prior.value, p) then []
    else [First(p.kind, p.incident, Opened(prior, p, pass).firstSeen, !IsNew(prior, p))]
  }

  function NextReminder(prior: Option<Record>, p: Problem, pass: Pass): seq<Event>
  {
    if Reminds(prior, p, pass) then [Again(p.kind, p.incident, pass.timestamp)] else []
  }

  lemma {:induction false} NoticeExtends(record: Option<Record>, events: seq<Event>, p: Problem, pass: Pass)
    requires Proper(events, pass.interval) && Stands(record, events, pass.destination)
    ensures var before := events + Notice(record, p, pass);
      && Proper(before, pass.interval) && Stands(Some(Opened(record, p, pass)), before, pass.destination)
      && SameIncident(Opened(record, p, pass), p)
  {
    if record.Some? && SameIncident(record.value, p) {
      assert events + [] == events;
    } else {
      OpenExtends(record, events, p, pass, !IsNew(record, p));
    }
  }

  lemma {:induction false} ProblemExtends(record: Option<Record>, events: seq<Event>, p: Problem, pass: Pass)
    requires Proper(events, pass.interval) && Stands(record, events, pass.destination)
    ensures var after := events + Notice(record, p, pass) + NextReminder(record, p, pass);
      && Proper(after, pass.interval)
      && Stands(RecordFor(record, Some(p), pass), after, pass.destination)
  {
    var before := events + Notice(record, p, pass);
    NoticeExtends(record, events, p, pass);
    if Reminds(record, p, pass) {
      RemindExtends(Opened(record, p, pass), before, p, pass);
    } else {
      assert before + [] == before;
    }
  }

  /** One kept audit extends the trace properly, and its record stands for what is open afterwards. */
  lemma {:induction false} AuditExtends(record: Option<Record>, events: seq<Event>, problem: Option<Problem>,
                                        pass: Pass,
                                        after: seq<Event>)
    requires Proper(events, pass.interval) && Stands(record, events, pass.destination)
    requires after == events + NodeEvents(record, problem, pass)
    ensures Proper(after, pass.interval) && Stands(RecordFor(record, problem, pass), after, pass.destination)
  {
    match problem
    case None =>
      if record.Some? { ClearExtends(record.value, events, pass); } else { assert after == events; }
    case Some(p) =>
      ProblemExtends(record, events, p, pass);
      assert after == events + Notice(record, p, pass) + NextReminder(record, p, pass);
  }

  /**
   * Over any run of audits to one destination, with failed posts and targeted audits among them, the saved
   * notices of each node are proper and its saved record is the incident they leave open.
   */
  lemma {:induction false} EveryTrace(audits: seq<Audit>, interval: int, destination: Option<string>, n: string)
    ensures Proper(Trace(audits, interval, destination, n), interval)
    ensures Stands(Find(Run(audits, interval, destination).problems, n), Trace(audits, interval, destination, n),
                   destination)
  {
    if audits != [] {
      var init, a := audits[..|audits| - 1], audits[|audits| - 1];
      var s := Run(init, interval, destination);
      EveryTrace(init, interval, destination, n);
      var record, pass := Find(s.problems, n), PassOf(s, a, interval, destination);
      if n in a.selected && Kept(s, a, interval, destination) {
        assert Prior(record, pass) == record;
        AuditExtends(record, Trace(init, interval, destination, n), Found(a, n), pass,
                     Trace(audits, interval, destination, n));
      } else {
        assert Trace(audits, interval, destination, n) == Trace(init, interval, destination, n);
      }
    }
  }

  /** The incident left open by what was told, if any. */
  function OpenOf(events: seq<Event>): Option<Event>
  {
    if events != [] && !events[|events| - 1].Cleared? then Some(events[|events| - 1]) else None
  }

  /**
   * What an audit posts of a problem at an inspected node, told by the notices before it. A problem other
   * than the open incident is new, unless none is open and its controller has delivered a receipt. One that
   * was told, by a notice or by a receipt, is reminded exactly when a full audit comes an interval after the
   * last digest and an interval after that.
   */
  lemma {:induction false} ProblemLines(audits: seq<Audit>, interval: int, destination: Option<string>, a: Audit,
                                        n: string, p: Problem)
    requires n in a.selected && n in a.problems && a.problems[n] == p
    ensures var s := Run(audits, interval, destination);
      var open, line := OpenOf(Trace(audits, interval, destination, n)), NodeLine(s, a, interval, destination, n);
      var same := open.Some? && open.value.kind == p.kind && open.value.incident == p.incident;
      var told := if same then Some(open.value.at) else if open.None? then p.deliveredAt else None;
      && (line == Some(New) <==> told.None?)
      && (line == Some(Reminder) <==>
            && told.Some? && a.timestamp - told.value >= interval && !a.targeted
            && a.timestamp - (if s.lastDigest.Some? then s.lastDigest.value else a.timestamp) >= interval)
      && line != Some(Recovered)
  {
    EveryTrace(audits, interval, destination, n);
  }

  /** A first notice counts as a receipt only where a receipt was delivered and nothing was on record. */
  lemma ReceiptsDelivered(prior: Option<Record>, p: Problem, pass: Pass)
    ensures forall e :: e in NodeEvents(prior, Some(p), pass) && e.First? ==>
      && e.kind == p.kind && e.incident == p.incident
      && (e.receipt <==> prior.None? && p.deliveredAt.Some?)
      && e.at == if e.receipt then p.deliveredAt.value else pass.timestamp
  {
  }

  /** The first kept audit that inspects a node and finds nothing posts its recovery, and no other does. */
  lemma {:induction false} RecoveryExactly(audits: seq<Audit>, interval: int, destination: Option<string>, a: Audit,
                                           n: string)
    requires n in a.selected
    ensures var s, events := Run(audits, interval, destination), Trace(audits, interval, destination, n);
      NodeLine(s, a, interval, destination, n) == Some(Recovered) <==>
        Found(a, n).None? && events != [] && !events[|events| - 1].Cleared?
  {
    EveryTrace(audits, interval, destination, n);
  }

  /** The digest time moves only with a kept full audit at least an interval later, and then to its own time. */
  lemma DigestMoves(s: AuditState, a: Audit, interval: int, destination: Option<string>)
    ensures var next := Next(s, a, interval, destination).lastDigest;
      && (s.lastDigest.Some? && next != s.lastDigest ==>
            && Kept(s, a, interval, destination) && !a.targeted
            && next == Some(a.timestamp) && a.timestamp >= s.lastDigest.value + interval)
      && (s.lastDigest.None? && next.Some? ==> next == Some(a.timestamp))
      && (Kept(s, a, interval, destination) ==> next.Some?)
      && (s.lastDigest.Some? && Kept(s, a, interval, destination) && !a.targeted ==>
            a.timestamp >= s.lastDigest.value + interval ==> next == Some(a.timestamp))
  {
  }

  /** A failed post loses nothing, and an audit leaves the nodes it did not inspect alone. */
  lemma NothingLost(s: AuditState, a: Audit, interval: int, destination: Option<string>, n: string)
    ensures !Kept(s, a, interval, destination) ==> Next(s, a, interval, destination) == s
    ensures n !in a.selected ==> Find(Next(s, a, interval, destination).problems, n) == Find(s.problems, n)
  {
  }
}
