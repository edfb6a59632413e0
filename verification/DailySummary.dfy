/**
 * The daily summary (`load_state`, `collect_statuses`, `deliver`): durable cursors that move only after a
 * confirmed post, and reports that must tile the run numbers without a gap.
 */
module DailySummary {
  import opened Prelude
  import opened Completions

  // ---- the summary's durable state ----

  datatype Summary = Summary(lastSlot: int, lastPostedAt: int, destination: string, cursors: map<string, Cursor>)

  predicate CursorOk(c: Cursor) { c.number >= 0 && (c.runId != "" <==> c.number > 0) }

  /** `load_state` accepts this state at `timestamp` for the configured nodes. */
  predicate Loads(s: Summary, timestamp: int, slotOf: int -> int, names: set<string>)
  {
    && 0 < s.lastPostedAt <= timestamp && s.lastSlot == slotOf(s.lastPostedAt) && |s.destination| == 64
    && names <= s.cursors.Keys && forall n :: n in s.cursors ==> CursorOk(s.cursors[n])
  }

  /** A node that has never finished a run and has nothing to report. */
  predicate Untouched(r: Response, cursor: Cursor)
  {
    r.total == Some(0) && cursor.number == 0 && !r.error
  }

  /** The counters extend the delivered cursor. */
  predicate Extends(r: Response, cursor: Cursor)
  {
    && !r.error && r.digest && r.total.Some? && r.total.value >= cursor.number && r.runId != ""
    && (r.total.value == cursor.number <==> r.runId == cursor.runId)
  }

  predicate Heard(r: Response, cursor: Cursor) { Untouched(r, cursor) || Extends(r, cursor) }

  function NextCursor(r: Response, cursor: Cursor): Cursor
  {
    if !Untouched(r, cursor) && Extends(r, cursor) then Cursor(r.total.value, r.runId) else cursor
  }

  /**
   * A status is heard exactly when it is answered, and either the node has never finished a run and none is
   * on its cursor, or its counter is at or past the cursor with the cursor's run id exactly when it is at it.
   * Whatever a node answers, its cursor never falls, stays well formed, and moves only to what was heard.
   */
  lemma HeardExactly(r: Response, cursor: Cursor)
    ensures Heard(r, cursor) <==>
      && !r.error && r.total.Some?
      && ((r.total.value == 0 && cursor.number == 0)
          || (r.digest && r.runId != "" && r.total.value > cursor.number && r.runId != cursor.runId)
          || (r.digest && r.runId != "" && r.total.value == cursor.number && r.runId == cursor.runId))
    ensures var next := NextCursor(r, cursor);
      && next.number >= cursor.number && (CursorOk(cursor) ==> CursorOk(next))
      && (next != cursor ==> Heard(r, cursor) && next == Cursor(r.total.value, r.runId))
      && (Heard(r, cursor) && r.total.value > cursor.number ==> next.number == r.total.value)
  {
  }

  /** Keep the statuses that can be trusted; everyone else keeps the delivered cursor. */
  method CollectStatuses(nodes: seq<string>, query: string -> Response, cursors: map<string, Cursor>)
    returns (statuses: map<string, Response>, next: map<string, Cursor>)
    requires forall n :: n in nodes ==> n in cursors
    ensures forall n :: n in statuses <==> n in nodes && Heard(query(n), cursors[n])
    ensures forall n :: n in statuses ==> statuses[n] == query(n)
    ensures next.Keys == cursors.Keys
    ensures forall n :: n in cursors ==> next[n] == if n in nodes then NextCursor(query(n), cursors[n]) else cursors[n]
  {
    statuses, next := map[], cursors;
    for i := 0 to |nodes|
      invariant forall n :: n in statuses <==> n in nodes[..i] && Heard(query(n), cursors[n])
      invariant forall n :: n in statuses ==> statuses[n] == query(n)
      invariant next.Keys == cursors.Keys
      invariant forall n :: n in cursors ==>
        next[n] == if n in nodes[..i] then NextCursor(query(n), cursors[n]) else cursors[n]
    {
      var name := nodes[i];
      assert nodes[..i + 1] == nodes[..i] + [name];
      var r, cursor := query(name), cursors[name];
      if r.total == Some(0) && cursor.number == 0 && !r.error {
        statuses := statuses[name := r];
        continue;
      }
      if !Extends(r, cursor) { continue; }
      statuses := statuses[name := r];
      next := next[name := Cursor(r.total.value, r.runId)];
    }
    assert nodes[..|nodes|] == nodes;
  }

  /** The state saved after a confirmed post. */
  function Saved(s: Summary, names: set<string>, query: string -> Response, timestamp: int, slotOf: int -> int): Summary
  {
    s.(lastSlot := slotOf(timestamp), lastPostedAt := timestamp, cursors := NextCursors(s, names, query))
  }

  function NextCursors(s: Summary, names: set<string>, query: string -> Response): map<string, Cursor>
  {
    map n | n in s.cursors :: if n in names then NextCursor(query(n), s.cursors[n]) else s.cursors[n]
  }

  /** Whatever the nodes answered, a saved state passes `load_state` at every later time. */
  lemma SavedLoads(s: Summary, names: set<string>, query: string -> Response, timestamp: int, later: int,
                   slotOf: int -> int)
    requires Loads(s, timestamp, slotOf, names) && timestamp <= later
    ensures Loads(Saved(s, names, query, timestamp, slotOf), later, slotOf, names)
  {
    var s' := Saved(s, names, query, timestamp, slotOf);
    forall n | n in s'.cursors ensures CursorOk(s'.cursors[n]) { assert CursorOk(s.cursors[n]); }
  }

  // ---- reports ----

  function SectionFor(r: Response, cursor: Cursor): Section
  {
    Describe(Absorb(Some(CursorRecord(cursor.number, cursor.runId)), r).value)
  }

  /** The section covers exactly the runs numbered lo+1..hi of the node. */
  ghost predicate Covers(section: Section, lo: nat, hi: nat, done: seq<Entry>)
    requires lo <= hi <= |done|
  {
    && section.pending == hi - lo
    && section.items == Span(done, Max(lo, hi - HISTORY_LIMIT), hi)
    && section.missing == section.pending - |section.items|
  }

  /** A reachable node is heard, its cursor moves to its last run, and its section covers what is new. */
  lemma NodeReports(c: Controller, done: seq<Entry>, cursor: Cursor)
    requires Describes(c, done) && Honest(cursor, done)
    ensures Heard(Snapshot(c), cursor)
    ensures Honest(NextCursor(Snapshot(c), cursor), done) && NextCursor(Snapshot(c), cursor).number == |done|
    ensures Covers(SectionFor(Snapshot(c), cursor), cursor.number, |done|, done)
  {
    NodeHeard(c, done, cursor);
    AbsorbTrue(c, done, cursor.number, cursor.runId);
  }

  /** The last run's id tells an honest cursor that is up to date from one that is behind. */
  lemma NodeHeard(c: Controller, done: seq<Entry>, cursor: Cursor)
    requires Describes(c, done) && Honest(cursor, done)
    ensures cursor.number == |done| <==> cursor.runId == c.lastRun
    ensures Heard(Snapshot(c), cursor)
    ensures Honest(NextCursor(Snapshot(c), cursor), done) && NextCursor(Snapshot(c), cursor).number == |done|
  {
  }

  /** Runs finished later do not change what an earlier section covers. */
  lemma CoversLater(section: Section, lo: nat, hi: nat, done: seq<Entry>, more: seq<Entry>)
    requires lo <= hi <= |done| && done <= more && Covers(section, lo, hi, done)
    ensures Covers(section, lo, hi, more)
  {
  }

  // ---- deliver ----

  datatype DeliverError = BadState | WrongDestination | NotPosted

  function Sections(s: Summary, names: set<string>, query: string -> Response): map<string, Section>
  {
    map n | n in names && n in s.cursors && Heard(query(n), s.cursors[n]) :: SectionFor(query(n), s.cursors[n])
  }

  function Among(sections: map<string, Section>, names: set<string>): map<string, Section>
  {
    map n | n in sections && n in names :: sections[n]
  }

  function NamesOf(nodes: seq<string>): set<string> { set n | n in nodes }

  /** The cursors as the records a digest starts from. */
  function CursorRecords(s: Summary): map<string, Record>
  {
    map n | n in s.cursors :: CursorRecord(s.cursors[n].number, s.cursors[n].runId)
  }

  /** Query the nodes and compose what the post says and where the cursors would go. */
  method Compose(s: Summary, nodes: seq<string>, names: set<string>, query: string -> Response)
    returns (lines: map<string, Section>, cursors: map<string, Cursor>)
    requires names == NamesOf(nodes) && names <= s.cursors.Keys
    ensures lines == Sections(s, names, query)
    ensures cursors == NextCursors(s, names, query)
  {
    assert forall n :: n in nodes ==> n in names;
    var statuses, next := CollectStatuses(nodes, query, s.cursors);
    var previous := CursorRecords(s);
    var sections, records := CompletionUpdates(statuses, previous, true, names);
    // Unavailable nodes are listed without a count.
    lines := Among(sections, statuses.Keys);
    SectionsAgree(s, names, query, statuses, previous, sections);
    cursors := next;
  }

  /** The state to save, or None when the slot is already served; an error leaves the state as it was. */
  method Deliver(s: Summary, nodes: seq<string>, query: string -> Response, timestamp: int, slotOf: int -> int,
                 sameDestination: bool, post: map<string, Section> -> bool)
    returns (r: Result<Option<Summary>, DeliverError>)
    ensures var names := NamesOf(nodes);
      r == if !Loads(s, timestamp, slotOf, names) then Err(BadState)
           else if !sameDestination then Err(WrongDestination)
           else if s.lastSlot >= slotOf(timestamp) then Ok(None)
           else if !post(Sections(s, names, query)) then Err(NotPosted)
           else Ok(Some(Saved(s, names, query, timestamp, slotOf)))
    ensures r == Err(BadState) <==>
      !(&& 0 < s.lastPostedAt <= timestamp && s.lastSlot == slotOf(s.lastPostedAt) && |s.destination| == 64
        && (forall n :: n in nodes ==> n in s.cursors)
        && (forall n :: n in s.cursors ==>
              s.cursors[n].number >= 0 && (s.cursors[n].runId == "" <==> s.cursors[n].number == 0)))
  {
    var names := NamesOf(nodes);
    if !Loads(s, timestamp, slotOf, names) { return Err(BadState); }
    if !sameDestination { return Err(WrongDestination); }
    if s.lastSlot >= slotOf(timestamp) { return Ok(None); }
    var lines, cursors := Compose(s, nodes, names, query);
    if !post(lines) { return Err(NotPosted); }
    r := Ok(Some(s.(lastSlot := slotOf(timestamp), lastPostedAt := timestamp, cursors := cursors)));
  }

  lemma SectionsAgree(s: Summary, names: set<string>, query: string -> Response, statuses: map<string, Response>,
                      previous: map<string, Record>, sections: map<string, Section>)
    requires names <= s.cursors.Keys
    requires forall n :: n in statuses <==> n in names && Heard(query(n), s.cursors[n])
    requires forall n :: n in statuses ==> statuses[n] == query(n)
    requires previous == CursorRecords(s)
    requires forall n :: n in names ==> n in sections
    requires forall n :: n in sections ==>
      var record := Absorbed(statuses, previous, n);
      sections[n] == Describe(if record.Some? then record.value else NOTHING)
    ensures Among(sections, statuses.Keys) == Sections(s, names, query)
  {
  }

  // ---- whole runs of a fleet ----

  datatype Step =
    | Finish(node: string, item: Item)
    | Summarize(reachable: set<string>, timestamp: int, fate: Fate)

  /** A confirmed post: the cursors it started from, what it said of each node, and whether it was saved. */
  datatype Post = Post(before: map<string, Cursor>, sections: map<string, Section>, saved: bool)

  datatype World = World(controllers: map<string, Controller>, done: map<string, seq<Entry>>,
                         state: Summary, posts: seq<Post>)

  const SILENT := Response(true, false, None, "", Item("", None, None), None, [])

  function Query(controllers: map<string, Controller>, reachable: set<string>): string -> Response
  {
    n => if n in reachable && n in controllers then Snapshot(controllers[n]) else SILENT
  }

  ghost function Next(w: World, step: Step, names: set<string>, slotOf: int -> int): World
  {
    match step
    case Finish(n, item) =>
      if n !in w.controllers || n !in w.done || !Numbered(w.done[n] + [Entry(|w.done[n]| + 1, item)]) then w
      else w.(controllers := w.controllers[n := Completed(w.controllers[n], item)],
              done := w.done[n := w.done[n] + [Entry(|w.done[n]| + 1, item)]])
    case Summarize(reachable, timestamp, fate) =>
      var query := Query(w.controllers, reachable);
      if !Loads(w.state, timestamp, slotOf, names) || w.state.lastSlot >= slotOf(timestamp) || fate.PostFails? then w
      else
        var post := Post(w.state.cursors, Sections(w.state, names, query), fate.PostedAndSaved?);
        World(w.controllers, w.done,
              if fate.PostedAndSaved? then Saved(w.state, names, query, timestamp, slotOf) else w.state,
              w.posts + [post])
  }

  ghost function Run(w: World, steps: seq<Step>, names: set<string>, slotOf: int -> int): World
  {
    if steps == [] then w
    else Next(Run(w, steps[..|steps| - 1], names, slotOf), steps[|steps| - 1], names, slotOf)
  }

  /** The numbers lo+1..hi. */
  function Numbers(lo: int, hi: int): (r: seq<int>)
    ensures |r| == if lo <= hi then hi - lo else 0
    ensures forall i :: 0 <= i < |r| ==> r[i] == lo + 1 + i
    decreases hi - lo
  {
    if hi <= lo then [] else Numbers(lo, hi - 1) + [hi]
  }

  /** The run numbers a saved post reports for a node. */
  function Says(p: Post, n: string): seq<int>
  {
    if p.saved && n in p.sections && n in p.before
    then Numbers(p.before[n].number, p.before[n].number + p.sections[n].pending) else []
  }

  /** The run numbers that saved posts reported for a node, in order. */
  function Reported(posts: seq<Post>, n: string): seq<int>
  {
    if posts == [] then [] else Reported(posts[..|posts| - 1], n) + Says(posts[|posts| - 1], n)
  }

  /** The post covers a true stretch of the node's runs from the cursor it started at, if it mentions it. */
  ghost predicate TellsTruth(post: Post, n: string, done: seq<Entry>)
  {
    n in post.sections ==>
      && n in post.before
      && var lo, section := post.before[n].number, post.sections[n];
         0 <= lo <= lo + section.pending <= |done| && Covers(section, lo, lo + section.pending, done)
  }

  /** Every confirmed post, saved or not, tells the truth about the node. */
  ghost predicate Truthful(posts: seq<Post>, n: string, done: seq<Entry>)
  {
    forall i :: 0 <= i < |posts| ==> TellsTruth(posts[i], n, done)
  }

  lemma TruthfulLater(posts: seq<Post>, n: string, done: seq<Entry>, more: seq<Entry>)
    requires Truthful(posts, n, done) && done <= more
    ensures Truthful(posts, n, more)
  {
    forall i | 0 <= i < |posts| ensures TellsTruth(posts[i], n, more) {
      assert TellsTruth(posts[i], n, done);
      if n in posts[i].sections {
        var lo, section := posts[i].before[n].number, posts[i].sections[n];
        CoversLater(section, lo, lo + section.pending, done, more);
      }
    }
  }

  /** A node's reports tile its runs from the starting cursor to the saved one. */
  ghost predicate Tiles(w: World, n: string, start: nat)
  {
    && n in w.controllers && n in w.done && n in w.state.cursors
    && Describes(w.controllers[n], w.done[n]) && Honest(w.state.cursors[n], w.done[n])
    && start <= w.state.cursors[n].number
    && Reported(w.posts, n) == Numbers(start, w.state.cursors[n].number)
    && Truthful(w.posts, n, w.done[n])
  }

  lemma NumbersJoin(a: int, b: int, c: int)
    requires a <= b <= c
    ensures Numbers(a, b) + Numbers(b, c) == Numbers(a, c)
  {
  }

  lemma {:induction false} FinishTiles(w: World, step: Step, names: set<string>, slotOf: int -> int, n: string,
                                       start: nat)
    requires step.Finish? && Tiles(w, n, start)
    ensures Tiles(Next(w, step, names, slotOf), n, start)
  {
    var w' := Next(w, step, names, slotOf);
    if w' != w && step.node == n {
      var more := w.done[n] + [Entry(|w.done[n]| + 1, step.item)];
      CompletedDescribes(w.controllers[n], w.done[n], step.item);
      assert w'.done[n] == more && w'.controllers[n] == Completed(w.controllers[n], step.item);
      TruthfulLater(w.posts, n, w.done[n], more);
    }
  }

  /** What one post says of one node and where its cursor goes. */
  lemma {:induction false} NodePosted(w: World, reachable: set<string>, names: set<string>, n: string)
    requires n in names && n in w.controllers && n in w.done && n in w.state.cursors
    requires Describes(w.controllers[n], w.done[n]) && Honest(w.state.cursors[n], w.done[n])
    ensures var query, cursor := Query(w.controllers, reachable), w.state.cursors[n];
      var sections := Sections(w.state, names, query);
      && (n in sections <==> n in reachable)
      && NextCursor(query(n), cursor).number == (if n in reachable then |w.done[n]| else cursor.number)
      && Honest(NextCursor(query(n), cursor), w.done[n])
      && (n in reachable ==> Covers(sections[n], cursor.number, |w.done[n]|, w.done[n]))
  {
    NodeReports(w.controllers[n], w.done[n], w.state.cursors[n]);
  }

  lemma {:induction false} ReportedAppend(posts: seq<Post>, p: Post, n: string)
    ensures Reported(posts + [p], n) == Reported(posts, n) + Says(p, n)
  {
    assert (posts + [p])[..|posts|] == posts && (posts + [p])[|posts|] == p;
  }

  lemma {:induction false} PostTruthful(w: World, reachable: set<string>, names: set<string>, n: string, start: nat,
                                        saved: bool)
    requires n in names && Tiles(w, n, start)
    ensures var post := Post(w.state.cursors, Sections(w.state, names, Query(w.controllers, reachable)), saved);
      Truthful(w.posts + [post], n, w.done[n])
  {
    NodePosted(w, reachable, names, n);
    var post := Post(w.state.cursors, Sections(w.state, names, Query(w.controllers, reachable)), saved);
    assert TellsTruth(post, n, w.done[n]);
  }

  lemma {:induction false} PostReported(w: World, reachable: set<string>, names: set<string>, n: string, start: nat,
                                        saved: bool)
    requires n in names && Tiles(w, n, start)
    ensures var query := Query(w.controllers, reachable);
      var post := Post(w.state.cursors, Sections(w.state, names, query), saved);
      Reported(w.posts + [post], n) ==
        Numbers(start, if saved then NextCursor(query(n), w.state.cursors[n]).number else w.state.cursors[n].number)
  {
    var post := Post(w.state.cursors, Sections(w.state, names, Query(w.controllers, reachable)), saved);
    NodePosted(w, reachable, names, n);
    ReportedAppend(w.posts, post, n);
    if n in reachable { NumbersJoin(start, w.state.cursors[n].number, |w.done[n]|); }
  }

  lemma {:induction false} PostTiles(w: World, step: Step, names: set<string>, slotOf: int -> int, n: string,
                                     start: nat)
    requires step.Summarize? && n in names && Tiles(w, n, start)
    ensures Tiles(Next(w, step, names, slotOf), n, start)
  {
    PostTruthful(w, step.reachable, names, n, start, step.fate.PostedAndSaved?);
    PostReported(w, step.reachable, names, n, start, step.fate.PostedAndSaved?);
    NodePosted(w, step.reachable, names, n);
  }

  /**
   * For a fixed fleet with distinct run ids and no counter resets: across cycles, unreachable nodes,
   * failed posts and crashes, the saved posts report each run number of a node exactly once and in
   * order, from the starting cursor to the saved one, and every confirmed post tells the truth.
   */
  lemma {:induction false} ReportsTile(w: World, steps: seq<Step>, names: set<string>, slotOf: int -> int,
                                       n: string, start: nat)
    requires n in names && Tiles(w, n, start)
    ensures Tiles(Run(w, steps, names, slotOf), n, start)
  {
    if steps != [] {
      var init, step := steps[..|steps| - 1], steps[|steps| - 1];
      ReportsTile(w, init, names, slotOf, n, start);
      if step.Finish? {
        FinishTiles(Run(w, init, names, slotOf), step, names, slotOf, n, start);
      } else {
        PostTiles(Run(w, init, names, slotOf), step, names, slotOf, n, start);
      }
    }
  }

  // ---- which numbers can repeat ----

  /** The post, saved or not, reports this run number of the node. */
  ghost predicate Mentions(p: Post, n: string, number: int)
  {
    n in p.sections && n in p.before && p.before[n].number < number <= p.before[n].number + p.sections[n].pending
  }

  /** Each post starts at or below the node's cursor, and a saved one ends at or below it. */
  ghost predicate PostsBelow(posts: seq<Post>, n: string, cursor: int)
  {
    forall i :: 0 <= i < |posts| && n in posts[i].sections && n in posts[i].before ==>
      && posts[i].before[n].number <= cursor
      && (posts[i].saved ==> posts[i].before[n].number + posts[i].sections[n].pending <= cursor)
  }

  /** Two posts share a run number of the node only if the earlier one was not saved. */
  ghost predicate RepeatsUnsaved(posts: seq<Post>, n: string)
  {
    forall i, j, number :: 0 <= i < j < |posts| && Mentions(posts[i], n, number) && Mentions(posts[j], n, number) ==>
      !posts[i].saved
  }

  lemma {:induction false} PostAddsNew(w: World, reachable: set<string>, names: set<string>, n: string, start: nat,
                                       saved: bool)
    requires n in names && Tiles(w, n, start)
    requires PostsBelow(w.posts, n, w.state.cursors[n].number) && RepeatsUnsaved(w.posts, n)
    ensures var query := Query(w.controllers, reachable);
      var posts := w.posts + [Post(w.state.cursors, Sections(w.state, names, query), saved)];
      && PostsBelow(posts, n,
                    if saved then NextCursor(query(n), w.state.cursors[n]).number else w.state.cursors[n].number)
      && RepeatsUnsaved(posts, n)
  {
    NodePosted(w, reachable, names, n);
    var query := Query(w.controllers, reachable);
    var posts := w.posts + [Post(w.state.cursors, Sections(w.state, names, query), saved)];
    forall i, j, number | 0 <= i < j < |posts| && Mentions(posts[i], n, number) && Mentions(posts[j], n, number)
      ensures !posts[i].saved
    {
      if j < |w.posts| { assert Mentions(w.posts[i], n, number) && Mentions(w.posts[j], n, number); }
    }
  }

  /**
   * Over every run, a run number appears in two confirmed posts only if the earlier of them was not
   * followed by a save: what a saved post reported is never reported again, saved or not.
   */
  lemma {:induction false} UnsavedRepeats(w: World, steps: seq<Step>, names: set<string>, slotOf: int -> int,
                                          n: string, start: nat)
    requires n in names && Tiles(w, n, start) && w.posts == []
    ensures var after := Run(w, steps, names, slotOf);
      && n in after.state.cursors && PostsBelow(after.posts, n, after.state.cursors[n].number)
      && RepeatsUnsaved(after.posts, n)
  {
    if steps != [] {
      var init, step := steps[..|steps| - 1], steps[|steps| - 1];
      var before := Run(w, init, names, slotOf);
      UnsavedRepeats(w, init, names, slotOf, n, start);
      ReportsTile(w, init, names, slotOf, n, start);
      if step.Summarize? { PostAddsNew(before, step.reachable, names, n, start, step.fate.PostedAndSaved?); }
    }
  }

  /** In any run each saved state still loads later, and each saved post takes a later slot. */
  lemma {:induction false} StateAlwaysLoads(w: World, steps: seq<Step>, names: set<string>, slotOf: int -> int,
                                            later: int)
    requires Loads(w.state, w.state.lastPostedAt, slotOf, names)
    requires w.state.lastPostedAt <= later
    requires forall i :: 0 <= i < |steps| && steps[i].Summarize? ==> steps[i].timestamp <= later
    ensures Loads(Run(w, steps, names, slotOf).state, later, slotOf, names)
    ensures Run(w, steps, names, slotOf).state.lastSlot >= w.state.lastSlot
  {
    if steps != [] {
      var init, step := steps[..|steps| - 1], steps[|steps| - 1];
      StateAlwaysLoads(w, init, names, slotOf, later);
      var before := Run(w, init, names, slotOf);
      if step.Summarize? && Next(before, step, names, slotOf).state != before.state {
        SavedLoads(before.state, names, Query(before.controllers, step.reachable), step.timestamp, later, slotOf);
      }
    }
  }
}
