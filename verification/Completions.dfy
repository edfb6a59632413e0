/**
 * Completion accounting: the numbered history the controller keeps (`one_cycle`) and the digest that
 * accumulates it until delivery (`completion_updates`).
 */
module Completions {
  import opened Prelude

  const HISTORY_LIMIT := 256

  datatype Item = Item(runId: string, duration: Option<int>, endHeight: Option<int>)

  /** One entry of the controller's completion history. */
  datatype Entry = Entry(number: int, item: Item)

  function LastOf<T>(s: seq<T>, n: nat): (r: seq<T>)
    ensures |r| == Min(|s|, n) && forall i :: 0 <= i < |r| ==> r[i] == s[|s| - |r| + i]
  {
    if |s| <= n then s else s[|s| - n..]
  }

  // ---- the controller ----

  datatype Controller = Controller(runs: nat, lastRun: string, last: Item, digest: bool, startRuns: int,
                                   history: seq<Entry>)

  /** The state update of a successful cycle. */
  function Completed(c: Controller, item: Item): Controller
  {
    Controller(c.runs + 1, item.runId, item, true, if c.digest then c.startRuns else c.runs,
               LastOf(c.history + [Entry(c.runs + 1, item)], HISTORY_LIMIT))
  }

  /** All completions of a node, numbered from one, with distinct run ids. */
  ghost predicate Numbered(done: seq<Entry>)
  {
    && (forall i :: 0 <= i < |done| ==> done[i].number == i + 1 && done[i].item.runId != "")
    && (forall i, j :: 0 <= i < j < |done| ==> done[i].item.runId != done[j].item.runId)
  }

  /** The controller's counters and history describe these completions. */
  ghost predicate Describes(c: Controller, done: seq<Entry>)
  {
    && Numbered(done) && c.runs == |done| && c.history == LastOf(done, HISTORY_LIMIT)
    && (done == [] ==> c.lastRun == "" && !c.digest)
    && (done != [] ==> c.digest && c.last == done[|done| - 1].item && c.lastRun == c.last.runId)
  }

  /** A completed run is appended under the next number and stays within the retained history. */
  lemma {:induction false} CompletedDescribes(c: Controller, done: seq<Entry>, item: Item)
    requires Describes(c, done) && Numbered(done + [Entry(|done| + 1, item)])
    ensures Describes(Completed(c, item), done + [Entry(|done| + 1, item)])
  {
  }

  // ---- completion_updates for one node ----

  /** What a status query returned. */
  datatype Response = Response(error: bool, digest: bool, total: Option<int>, runId: string, latest: Item,
                               startRuns: Option<int>, history: seq<Entry>)

  function Snapshot(c: Controller): Response
  {
    Response(false, c.digest, Some(c.runs), c.lastRun, c.last, Some(c.startRuns), c.history)
  }

  datatype Record = Record(total: int, runId: string, pending: int, details: seq<Item>)

  /** The last retained entry with this number and a run id. */
  function Lookup(history: seq<Entry>, number: int): Option<Item>
  {
    if history == [] then None
    else
      var e := history[|history| - 1];
      if e.number == number && e.item.runId != "" then Some(e.item) else Lookup(history[..|history| - 1], number)
  }

  /** The retained items numbered lo+1..hi, in order. */
  function Retained(history: seq<Entry>, lo: int, hi: int): seq<Item>
    decreases hi - lo
  {
    if hi <= lo then []
    else
      var rest := Retained(history, lo, hi - 1);
      if Lookup(history, hi).Some? then rest + [Lookup(history, hi).value] else rest
  }

  function Delta(prior: Option<Record>, r: Response): int
    requires r.total.Some?
  {
    var total := r.total.value;
    var baseline :=
      if prior.Some? then prior.value.total else if r.startRuns.Some? then r.startRuns.value else total - 1;
    Max(1, total - baseline)
  }

  predicate Reports(prior: Option<Record>, r: Response)
  {
    r.digest && r.runId != "" && r.total.Some? && (prior.Some? ==> prior.value.runId != r.runId)
  }

  /** Fold one node's status into its record, keeping the timings of the runs it covers. */
  function Absorb(prior: Option<Record>, r: Response): Option<Record>
  {
    if !Reports(prior, r) then prior
    else
      var total, delta := r.total.value, Delta(prior, r);
      var added := Retained(r.history, total - delta, total - 1) + [r.latest];
      var kept := if prior.Some? then prior.value.details else [];
      Some(Record(total, r.runId, (if prior.Some? then prior.value.pending else 0) + delta,
                  LastOf(kept + added, HISTORY_LIMIT)))
  }

  /** A history of consecutive numbers is looked up by position. */
  lemma {:induction false} LookupRun(history: seq<Entry>, base: int, number: int)
    requires forall i :: 0 <= i < |history| ==>
      history[i].number == base + i + 1 && history[i].item.runId != ""
    ensures Lookup(history, number) ==
      if base < number <= base + |history| then Some(history[number - base - 1].item) else None
  {
    if history != [] { LookupRun(history[..|history| - 1], base, number); }
  }

  /** The true items numbered lo+1..hi, in order. */
  function Span(done: seq<Entry>, lo: nat, hi: nat): (r: seq<Item>)
    requires hi <= |done|
    ensures |r| == if lo <= hi then hi - lo else 0
    ensures forall i :: 0 <= i < |r| ==> r[i] == done[lo + i].item
    decreases hi
  {
    if hi <= lo then [] else Span(done, lo, hi - 1) + [done[hi - 1].item]
  }

  lemma LookupTrue(done: seq<Entry>, number: int)
    requires Numbered(done)
    ensures Lookup(LastOf(done, HISTORY_LIMIT), number) ==
      if Max(0, |done| - HISTORY_LIMIT) < number <= |done| then Some(done[number - 1].item) else None
  {
    var h := LastOf(done, HISTORY_LIMIT);
    LookupRun(h, |done| - |h|, number);
  }

  /** The number after which an honest history still has every entry. */
  function Oldest(done: seq<Entry>, lo: nat): nat { Max(lo, |done| - HISTORY_LIMIT) }

  /** From an honest history, what is retained of lo+1..hi is the true end of it, as far back as kept. */
  lemma {:induction false} RetainedTrue(done: seq<Entry>, lo: nat, hi: nat)
    requires Numbered(done) && hi <= |done|
    ensures Retained(LastOf(done, HISTORY_LIMIT), lo, hi) == Span(done, Oldest(done, lo), hi)
    decreases hi
  {
    if lo < hi {
      RetainedTrue(done, lo, hi - 1);
      LookupTrue(done, hi);
    }
  }

  /** The record a cursor stands for: everything up to it reported, nothing pending. */
  function CursorRecord(number: int, runId: string): Record { Record(number, runId, 0, []) }

  lemma AddedTrue(c: Controller, done: seq<Entry>, number: nat)
    requires Describes(c, done) && number < |done|
    ensures Retained(c.history, number, |done| - 1) + [c.last] == Span(done, Oldest(done, number), |done|)
  {
    RetainedTrue(done, number, |done| - 1);
  }

  lemma AbsorbFresh(prior: Record, r: Response, added: seq<Item>)
    requires Reports(Some(prior), r) && prior.details == [] && |added| <= HISTORY_LIMIT
    requires var total, delta := r.total.value, Delta(Some(prior), r);
      added == Retained(r.history, total - delta, total - 1) + [r.latest]
    ensures Absorb(Some(prior), r) ==
      Some(Record(r.total.value, r.runId, prior.pending + Delta(Some(prior), r), added))
  {
    assert [] + added == added;
  }

  /** An honest status absorbed into a cursor counts exactly the unreported runs and lists the newest. */
  lemma AbsorbTrue(c: Controller, done: seq<Entry>, number: nat, runId: string)
    requires Describes(c, done) && number <= |done|
    requires number == |done| <==> runId == c.lastRun
    ensures var r := Absorb(Some(CursorRecord(number, runId)), Snapshot(c)).value;
      r.pending == |done| - number && r.details == Span(done, Oldest(done, number), |done|)
  {
    if number < |done| {
      AddedTrue(c, done, number);
      AbsorbFresh(CursorRecord(number, runId), Snapshot(c), Span(done, Oldest(done, number), |done|));
    }
  }

  // ---- the digest over the fleet ----

  /** What a summary says of one node: a count, the runs it can list, and how many it cannot. */
  datatype Section = Section(pending: int, items: seq<Item>, missing: int)

  datatype Cursor = Cursor(number: int, runId: string)

  /** The cursor names a run the node really finished. */
  ghost predicate Honest(cursor: Cursor, done: seq<Entry>)
  {
    && 0 <= cursor.number <= |done|
    && cursor.runId == if cursor.number == 0 then "" else done[cursor.number - 1].item.runId
  }

  function Describe(record: Record): Section
  {
    Section(record.pending, record.details, record.pending - |record.details|)
  }

  function Find(m: map<string, Record>, n: string): Option<Record> { if n in m then Some(m[n]) else None }

  const NOTHING := Record(0, "", 0, [])

  function Known(record: Option<Record>): Record { if record.Some? then record.value else NOTHING }

  function Absorbed(statuses: map<string, Response>, previous: map<string, Record>, n: string): Option<Record>
  {
    var prior := Find(previous, n);
    if n in statuses then Absorb(prior, statuses[n]) else prior
  }

  /** Fold every status into the records: the counters of missing nodes stay as they are. */
  method AbsorbAll(statuses: map<string, Response>, previous: map<string, Record>)
    returns (records: map<string, Record>)
    ensures forall n :: Find(records, n) == Absorbed(statuses, previous, n)
  {
    records := previous;
    var todo := statuses.Keys;
    while todo != {}
      invariant todo <= statuses.Keys
      invariant forall n ::
        Find(records, n) == if n in todo then Find(previous, n) else Absorbed(statuses, previous, n)
      decreases |todo|
    {
      var n :| n in todo;
      todo := todo - {n};
      var record := Absorb(Find(records, n), statuses[n]);
      if record.Some? { records := records[n := record.value]; }
    }
  }

  /**
   * The digest: when it is due, every configured node and every node with unreported runs gets a section,
   * and what was reported is cleared; otherwise the counts and timings keep accumulating.
   */
  method CompletionUpdates(statuses: map<string, Response>, previous: map<string, Record>, due: bool,
                           configured: set<string>)
    returns (sections: map<string, Section>, records: map<string, Record>)
    ensures !due ==> sections == map[]
    ensures !due ==> forall n :: Find(records, n) == Absorbed(statuses, previous, n)
    ensures due ==> forall n ::
      var record := Absorbed(statuses, previous, n);
      && (n in sections <==> n in configured || (record.Some? && record.value.pending != 0))
      && (n in sections ==> sections[n] == Describe(Known(record)))
      && (n in records <==> n in configured && record.Some?)
      && (n in records ==> records[n] == record.value.(pending := 0, details := []))
  {
    records := AbsorbAll(statuses, previous);
    sections := map[];
    if due {
      var all := records;
      sections := map n | n in all.Keys + configured && (n in configured || all[n].pending != 0) ::
        Describe(if n in all then all[n] else NOTHING);
      records := map n | n in all && n in configured :: all[n].(pending := 0, details := []);
    }
  }

  // ---- one configured node over a run of completions and audits ----

  /** What becomes of a message: lost, delivered before a crash that loses the save, or delivered and saved. */
  datatype Fate = PostFails | PostedThenCrashed | PostedAndSaved

  datatype Step = Finished(item: Item) | Audit(reachable: bool, due: bool, fate: Fate)

  /** A delivered section; it accounts for the `pending` runs that end at number `upTo`. */
  datatype Delivery = Delivery(section: Section, upTo: int, saved: bool)

  datatype Ledger = Ledger(controller: Controller, record: Option<Record>, deliveries: seq<Delivery>)

  /** The record an audit works out. */
  function Audited(w: Ledger, reachable: bool): Option<Record>
  {
    if reachable then Absorb(w.record, Snapshot(w.controller)) else w.record
  }

  /** An audit keeps what it worked out, and clears what it reported, only when it saves after its post. */
  function Next(w: Ledger, step: Step): Ledger
  {
    match step
    case Finished(item) => w.(controller := Completed(w.controller, item))
    case Audit(reachable, due, fate) =>
      var next := Audited(w, reachable);
      var saved := fate.PostedAndSaved?;
      if fate.PostFails? || (!due && !saved) then w
      else if !due then w.(record := next)
      else
        var cleared := if next.Some? then Some(next.value.(pending := 0, details := [])) else None;
        Ledger(w.controller, if saved then cleared else w.record,
               w.deliveries + [Delivery(Describe(Known(next)), Known(next).total, saved)])
  }

  function Run(steps: seq<Step>): Ledger
  {
    if steps == [] then Ledger(Controller(0, "", Item("", None, None), false, 0, []), None, [])
    else Next(Run(steps[..|steps| - 1]), steps[|steps| - 1])
  }

  /** The sections whose audit saved, in order. */
  function Kept(deliveries: seq<Delivery>): seq<Section>
  {
    if deliveries == [] then []
    else
      var last := deliveries[|deliveries| - 1];
      Kept(deliveries[..|deliveries| - 1]) + if last.saved then [last.section] else []
  }

  /** The runs finished in the course of the steps, numbered. */
  function Done(steps: seq<Step>): seq<Entry>
  {
    if steps == [] then []
    else
      var done := Done(steps[..|steps| - 1]);
      if steps[|steps| - 1].Finished? then done + [Entry(|done| + 1, steps[|steps| - 1].item)] else done
  }

  /** How many runs the first n sections report. */
  function Reported(sections: seq<Section>, n: nat): int
    requires n <= |sections|
  {
    if n == 0 then 0 else Reported(sections, n - 1) + sections[n - 1].pending
  }

  lemma {:induction false} ReportedPrefix(sections: seq<Section>, section: Section, n: nat)
    requires n <= |sections|
    ensures Reported(sections + [section], n) == Reported(sections, n)
  {
    if n > 0 { ReportedPrefix(sections, section, n - 1); }
  }

  /** These `pending` runs end at number `upTo`, and the details are those of the newest it can list. */
  ghost predicate Lists(details: seq<Item>, pending: int, upTo: int, done: seq<Entry>)
  {
    && 0 <= pending <= upTo <= |done|
    && |details| == Min(pending, HISTORY_LIMIT) && Newest(details, upTo, done)
  }

  /** The details are those of the runs that end at number `upTo`, oldest first. */
  ghost predicate Newest(details: seq<Item>, upTo: int, done: seq<Entry>)
  {
    && |details| <= upTo <= |done|
    && forall i :: 0 <= i < |details| ==> details[i] == done[upTo - |details| + i].item
  }

  /** The section covers the numbers after what was reported before it. */
  ghost predicate SectionTrue(sections: seq<Section>, k: nat, done: seq<Entry>)
    requires k < |sections|
  {
    && Lists(sections[k].items, sections[k].pending, Reported(sections, k + 1), done)
    && sections[k].missing == Max(0, sections[k].pending - HISTORY_LIMIT)
  }

  ghost predicate SectionsTrue(sections: seq<Section>, done: seq<Entry>)
  {
    forall k :: 0 <= k < |sections| ==> SectionTrue(sections, k, done)
  }

  /** Nothing pending before the first record; afterwards the counter splits into reported and pending. */
  ghost predicate Accounts(record: Option<Record>, reported: int, done: seq<Entry>)
  {
    match record
    case None => reported == 0
    case Some(r) =>
      && reported + r.pending == r.total && 0 < r.total && 0 <= reported
      && Honest(Cursor(r.total, r.runId), done) && Lists(r.details, r.pending, r.total, done)
  }

  lemma NumberedInit(done: seq<Entry>, e: Entry)
    requires Numbered(done + [e])
    ensures Numbered(done)
  {
    forall i | 0 <= i < |done| ensures done[i].number == i + 1 && done[i].item.runId != "" {
      assert (done + [e])[i] == done[i];
    }
    forall i, j | 0 <= i < j < |done| ensures done[i].item.runId != done[j].item.runId {
      assert (done + [e])[i] == done[i] && (done + [e])[j] == done[j];
    }
  }

  lemma ListsGrow(details: seq<Item>, pending: int, upTo: int, done: seq<Entry>, e: Entry)
    requires Lists(details, pending, upTo, done)
    ensures Lists(details, pending, upTo, done + [e])
  {
  }

  lemma AccountsGrow(record: Option<Record>, reported: int, done: seq<Entry>, e: Entry)
    requires Accounts(record, reported, done)
    ensures Accounts(record, reported, done + [e])
  {
    if record.Some? { ListsGrow(record.value.details, record.value.pending, record.value.total, done, e); }
  }

  lemma AbsorbBy(record: Option<Record>, r: Response, number: int, added: seq<Item>)
    requires Reports(record, r) && Delta(record, r) == r.total.value - number
    requires Retained(r.history, number, r.total.value - 1) + [r.latest] == added
    ensures Absorb(record, r) == Some(Record(r.total.value, r.runId, Known(record).pending + r.total.value - number,
                                             LastOf(Known(record).details + added, HISTORY_LIMIT)))
  {
  }

  lemma ReportsNew(c: Controller, done: seq<Entry>, record: Option<Record>)
    requires Describes(c, done) && c.startRuns == 0 && done != []
    requires record.Some? ==> Honest(Cursor(record.value.total, record.value.runId), done)
    requires record.Some? ==> record.value.total < |done|
    ensures Reports(record, Snapshot(c))
    ensures Delta(record, Snapshot(c)) == |done| - Known(record).total
  {
  }

  /** What a record or a first status adds: the runs after its counter, as far back as the node kept them. */
  lemma AbsorbAdds(c: Controller, done: seq<Entry>, record: Option<Record>, number: nat, added: seq<Item>)
    requires Describes(c, done) && c.startRuns == 0 && number < |done| && number == Known(record).total
    requires record.Some? ==> Honest(Cursor(record.value.total, record.value.runId), done)
    requires Retained(c.history, number, |done| - 1) + [c.last] == added
    ensures Absorb(record, Snapshot(c)) ==
      Some(Record(|done|, c.lastRun, Known(record).pending + |done| - number,
                  LastOf(Known(record).details + added, HISTORY_LIMIT)))
  {
    ReportsNew(c, done, record);
    AbsorbBy(record, Snapshot(c), number, added);
  }

  lemma AddedNewest(c: Controller, done: seq<Entry>, number: nat)
    requires Describes(c, done) && number < |done|
    ensures var added := Retained(c.history, number, |done| - 1) + [c.last];
      |added| == Min(|done| - number, HISTORY_LIMIT) && Newest(added, |done|, done)
  {
    AddedTrue(c, done, number);
  }

  lemma NewestConcat(details: seq<Item>, upTo: int, added: seq<Item>, done: seq<Entry>)
    requires Newest(details, upTo, done) && Newest(added, |done|, done) && |added| == |done| - upTo
    ensures Newest(details + added, |done|, done)
  {
  }

  lemma NewestLast(details: seq<Item>, upTo: int, done: seq<Entry>, n: nat)
    requires Newest(details, upTo, done)
    ensures Newest(LastOf(details, n), upTo, done)
  {
  }

  lemma LastOfTail<T>(s: seq<T>, t: seq<T>)
    ensures LastOf(s + t, |t|) == t
  {
  }

  lemma ListsAdd(details: seq<Item>, pending: int, upTo: int, done: seq<Entry>, added: seq<Item>)
    requires Lists(details, pending, upTo, done)
    requires |added| == Min(|done| - upTo, HISTORY_LIMIT) && Newest(added, |done|, done)
    ensures Lists(LastOf(details + added, HISTORY_LIMIT), pending + |done| - upTo, |done|, done)
  {
    if |added| < HISTORY_LIMIT {
      NewestConcat(details, upTo, added, done);
      NewestLast(details + added, |done|, done, HISTORY_LIMIT);
    } else {
      LastOfTail(details, added);
    }
  }

  /** An audit that reaches the node leaves its whole counter accounted for. */
  lemma AbsorbAccounts(c: Controller, done: seq<Entry>, record: Option<Record>, reported: int)
    requires Describes(c, done) && c.startRuns == 0 && Accounts(record, reported, done)
    ensures var next := Absorb(record, Snapshot(c));
      && Accounts(next, reported, done)
      && (if next.Some? then next.value.total == |done| else done == [])
  {
    var prior := Known(record);
    if prior.total < |done| {
      var added := Retained(c.history, prior.total, |done| - 1) + [c.last];
      AddedNewest(c, done, prior.total);
      AbsorbAdds(c, done, record, prior.total, added);
      ListsAdd(prior.details, prior.pending, prior.total, done, added);
    }
  }

  lemma SectionsGrow(sections: seq<Section>, done: seq<Entry>, e: Entry)
    requires SectionsTrue(sections, done)
    ensures SectionsTrue(sections, done + [e])
  {
    forall k | 0 <= k < |sections| ensures SectionTrue(sections, k, done + [e]) {
      assert SectionTrue(sections, k, done);
    }
  }

  lemma SectionsAdd(sections: seq<Section>, record: Record, done: seq<Entry>)
    requires SectionsTrue(sections, done)
    requires Lists(record.details, record.pending, Reported(sections, |sections|) + record.pending, done)
    ensures SectionsTrue(sections + [Describe(record)], done)
    ensures Reported(sections + [Describe(record)], |sections| + 1) == Reported(sections, |sections|) + record.pending
  {
    var sections' := sections + [Describe(record)];
    ReportedPrefix(sections, Describe(record), |sections|);
    forall k | 0 <= k < |sections| ensures SectionTrue(sections', k, done) {
      assert SectionTrue(sections, k, done);
      ReportedPrefix(sections, Describe(record), k + 1);
    }
  }

  // ---- what is delivered twice ----

  /** How many runs the saved sections report in all. */
  function Settled(deliveries: seq<Delivery>): int { Reported(Kept(deliveries), |Kept(deliveries)|) }

  /** The delivered section accounts for this run number. */
  predicate Carries(d: Delivery, number: int) { d.upTo - d.section.pending < number <= d.upTo }

  /** A delivered section, saved or not, lists and counts a true stretch of the runs. */
  ghost predicate DeliveryTrue(d: Delivery, done: seq<Entry>)
  {
    && Lists(d.section.items, d.section.pending, d.upTo, done)
    && d.section.missing == Max(0, d.section.pending - HISTORY_LIMIT)
  }

  /** Every delivery is true, and a saved one ends at or below what the saved sections report. */
  ghost predicate DeliveriesTrue(deliveries: seq<Delivery>, done: seq<Entry>)
  {
    forall i :: 0 <= i < |deliveries| ==>
      DeliveryTrue(deliveries[i], done) && (deliveries[i].saved ==> deliveries[i].upTo <= Settled(deliveries))
  }

  /** Two deliveries share a run number only if the save after the earlier one was lost. */
  ghost predicate RepeatsLost(deliveries: seq<Delivery>)
  {
    forall i, j, number :: 0 <= i < j < |deliveries| && Carries(deliveries[i], number) && Carries(deliveries[j], number)
      ==> !deliveries[i].saved
  }

  lemma KeptOn(deliveries: seq<Delivery>, d: Delivery)
    ensures Kept(deliveries + [d]) == if d.saved then Kept(deliveries) + [d.section] else Kept(deliveries)
    ensures Settled(deliveries + [d]) == Settled(deliveries) + if d.saved then d.section.pending else 0
  {
    assert (deliveries + [d])[..|deliveries|] == deliveries;
    if d.saved {
      ReportedPrefix(Kept(deliveries), d.section, |Kept(deliveries)|);
    } else {
      assert Kept(deliveries) + [] == Kept(deliveries);
    }
  }

  lemma DeliveriesGrow(deliveries: seq<Delivery>, done: seq<Entry>, e: Entry)
    requires DeliveriesTrue(deliveries, done)
    ensures DeliveriesTrue(deliveries, done + [e])
  {
    forall i | 0 <= i < |deliveries| ensures DeliveryTrue(deliveries[i], done + [e]) {
      assert DeliveryTrue(deliveries[i], done);
    }
  }

  /** A section delivered on top of what is settled is true, and repeats no saved one. */
  lemma DeliveriesAdd(deliveries: seq<Delivery>, d: Delivery, done: seq<Entry>)
    requires DeliveriesTrue(deliveries, done) && RepeatsLost(deliveries) && DeliveryTrue(d, done)
    requires d.upTo == Settled(deliveries) + d.section.pending
    ensures DeliveriesTrue(deliveries + [d], done) && RepeatsLost(deliveries + [d])
  {
    var all := deliveries + [d];
    KeptOn(deliveries, d);
    forall i | 0 <= i < |all|
      ensures DeliveryTrue(all[i], done) && (all[i].saved ==> all[i].upTo <= Settled(all))
    {
      if i < |deliveries| { assert all[i] == deliveries[i] && DeliveryTrue(deliveries[i], done); }
    }
    forall i, j, number | 0 <= i < j < |all| && Carries(all[i], number) && Carries(all[j], number)
      ensures !all[i].saved
    {
      assert all[i] == deliveries[i];
      if j < |deliveries| { assert Carries(deliveries[i], number) && Carries(deliveries[j], number); }
    }
  }

  /** What every run keeps of the deliveries and the record. */
  ghost predicate Balanced(record: Option<Record>, deliveries: seq<Delivery>, done: seq<Entry>)
  {
    && SectionsTrue(Kept(deliveries), done) && Accounts(record, Settled(deliveries), done)
    && DeliveriesTrue(deliveries, done) && RepeatsLost(deliveries)
  }

  /**
   * Over every run of completions and audits, due or not, lost, delivered, or delivered without their save:
   * the saved sections cover consecutive stretches of the numbering, each lists the newest 256 runs of its
   * stretch and counts the others, and the record holds the stretch still to report. Every delivered section
   * is true, and one repeats a run of an earlier one only if the save after the earlier one was lost.
   */
  lemma {:induction false} DigestConserves(steps: seq<Step>)
    requires Numbered(Done(steps))
    ensures Describes(Run(steps).controller, Done(steps)) && Run(steps).controller.startRuns == 0
    ensures Balanced(Run(steps).record, Run(steps).deliveries, Done(steps))
  {
    if steps != [] {
      var init, step := steps[..|steps| - 1], steps[|steps| - 1];
      var w, done := Run(init), Done(init);
      if step.Finished? {
        var e := Entry(|done| + 1, step.item);
        NumberedInit(done, e);
        DigestConserves(init);
        CompletedDescribes(w.controller, done, step.item);
        SectionsGrow(Kept(w.deliveries), done, e);
        AccountsGrow(w.record, Settled(w.deliveries), done, e);
        DeliveriesGrow(w.deliveries, done, e);
      } else {
        DigestConserves(init);
        AuditConserves(w, step, done);
      }
    }
  }

  lemma AuditConserves(w: Ledger, step: Step, done: seq<Entry>)
    requires step.Audit? && Describes(w.controller, done) && w.controller.startRuns == 0
    requires Balanced(w.record, w.deliveries, done)
    ensures Balanced(Next(w, step).record, Next(w, step).deliveries, done)
    ensures step.reachable ==> Known(Audited(w, true)).total == |done|
  {
    if step.reachable { AbsorbAccounts(w.controller, done, w.record, Settled(w.deliveries)); }
    var next := Audited(w, step.reachable);
    assert Accounts(next, Settled(w.deliveries), done);
    if step.due && !step.fate.PostFails? {
      DeliveryBalances(w.record, w.deliveries, next, step.fate.PostedAndSaved?, done);
    }
  }

  lemma DeliveryBalances(record: Option<Record>, deliveries: seq<Delivery>, next: Option<Record>, saved: bool,
                         done: seq<Entry>)
    requires Balanced(record, deliveries, done) && Accounts(next, Settled(deliveries), done)
    ensures var d := Delivery(Describe(Known(next)), Known(next).total, saved);
      var cleared := if next.Some? then Some(next.value.(pending := 0, details := [])) else None;
      Balanced(if saved then cleared else record, deliveries + [d], done)
  {
    var d := Delivery(Describe(Known(next)), Known(next).total, saved);
    KeptOn(deliveries, d);
    DeliveriesAdd(deliveries, d, done);
    if saved { SectionsAdd(Kept(deliveries), Known(next), done); }
  }

  /** A delivered digest that reached the node accounts for every finished run; saved, it settles them all. */
  lemma DigestReportsAll(steps: seq<Step>)
    requires Numbered(Done(steps)) && steps != []
    requires steps[|steps| - 1].Audit? && steps[|steps| - 1].reachable && steps[|steps| - 1].due
    requires !steps[|steps| - 1].fate.PostFails?
    ensures var deliveries := Run(steps).deliveries;
      && deliveries != [] && deliveries[|deliveries| - 1].upTo == |Done(steps)|
      && (steps[|steps| - 1].fate.PostedAndSaved? ==> Settled(deliveries) == |Done(steps)|)
  {
    var init, step := steps[..|steps| - 1], steps[|steps| - 1];
    DigestConserves(init);
    AuditConserves(Run(init), step, Done(init));
    var next := Audited(Run(init), true);
    AbsorbAccounts(Run(init).controller, Done(init), Run(init).record, Settled(Run(init).deliveries));
    KeptOn(Run(init).deliveries, Delivery(Describe(Known(next)), Known(next).total, step.fate.PostedAndSaved?));
  }
}
