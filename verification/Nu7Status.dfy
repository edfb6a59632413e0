/**
 * `Nu7Status` of the cluster dashboard: one local source, a header cache keyed by height, and two
 * pruned deques that count the blocks and reorganisations of the last day.
 */
module Nu7Status {
  import opened Prelude
  import opened Chain
  import opened Sessions

  ghost predicate Anchored(book: Book, headers: map<nat, Header>, last: Option<Tip>)
  {
    forall n :: n in headers ==>
      && last.Some? && n <= last.value.height
      && headers[n] == book(Ancestor(book, last.value.hash, last.value.height - n))
  }

  lemma AnchoredExtend(book: Book, headers: map<nat, Header>, last: Tip, view: View, tip: Tip)
    requires Anchored(book, headers, Some(last)) && Linked(book, view)
    requires last.height <= tip.height < |view|
    requires view[tip.height] == tip.hash && view[last.height] == last.hash
    ensures Anchored(book, headers, Some(tip))
  {
    forall n | n in headers ensures headers[n] == book(Ancestor(book, tip.hash, tip.height - n)) {
      ViewAncestor(book, view, last.height, n);
      ViewAncestor(book, view, tip.height, n);
    }
  }

  function Repeat(t: int, n: nat): (s: seq<int>)
    ensures |s| == n && forall i :: 0 <= i < n ==> s[i] == t
  {
    if n == 0 then [] else Repeat(t, n - 1) + [t]
  }

  /** `popleft` while the front is older than the cutoff. */
  method PruneFront(observed: seq<int>, cutoff: int) returns (kept: seq<int>)
    requires Nondecreasing(observed)
    ensures kept == Since(observed, cutoff)
  {
    kept := observed;
    ghost var k := 0;
    while kept != [] && kept[0] < cutoff
      invariant 0 <= k <= |observed| && kept == observed[k..]
      invariant forall i :: 0 <= i < k ==> observed[i] < cutoff
      decreases |kept|
    {
      kept, k := kept[1..], k + 1;
    }
    SinceSuffix(observed, cutoff, k);
  }

  lemma {:induction false} SinceConcat(a: seq<int>, b: seq<int>, cutoff: int)
    ensures Since(a + b, cutoff) == Since(a, cutoff) + Since(b, cutoff)
  {
    if b == [] {
      assert a + b == a;
    } else {
      var init, last := b[..|b| - 1], b[|b| - 1];
      SinceConcat(a, init, cutoff);
      assert a + b == (a + init) + [last];
      SinceAppend(a + init, last, cutoff);
    }
  }

  lemma SinceGrows(log: seq<int>, cutoff: int, now: int, n: nat)
    requires cutoff <= now
    ensures Since(log + Repeat(now, n), cutoff) == Since(log, cutoff) + Repeat(now, n)
  {
    SinceConcat(log, Repeat(now, n), cutoff);
    SinceAll(Repeat(now, n), cutoff);
  }

  /** Appending to a pruned deque and pruning again is pruning the whole log once. */
  lemma PruneOnce(log: seq<int>, cutoff: int, now: int, n: nat, limit: int)
    requires Nondecreasing(log) && (forall i :: 0 <= i < |log| ==> log[i] <= now)
    requires cutoff <= limit && cutoff <= now
    ensures Nondecreasing(Since(log, cutoff) + Repeat(now, n))
    ensures Since(Since(log, cutoff) + Repeat(now, n), limit) == Since(log + Repeat(now, n), limit)
  {
    SinceGrows(log, cutoff, now, n);
    SinceOrdered(log + Repeat(now, n), cutoff);
    SinceTwice(log + Repeat(now, n), cutoff, limit);
  }

  function From(headers: map<nat, Header>, start: nat): (kept: map<nat, Header>)
    ensures forall n :: n in kept <==> n in headers && n >= start
    ensures forall n :: n in kept ==> kept[n] == headers[n]
  {
    map n | n in headers && n >= start :: headers[n]
  }

  /** The headers numbered start..height of a cache that holds them all. */
  function Window(headers: map<nat, Header>, start: nat, height: nat): seq<Header>
    requires start <= height && forall n: nat :: start <= n <= height ==> n in headers
  {
    seq(height + 1 - start, i requires 0 <= i < height + 1 - start => headers[start + i])
  }

  /** Every cached header of the window is the ancestor of the tip at that height. */
  ghost predicate Clean(book: Book, headers: map<nat, Header>, tip: Tip, start: nat)
  {
    forall n: nat :: start <= n <= tip.height ==> CleanAt(book, headers, tip, n)
  }

  ghost predicate CleanAt(book: Book, headers: map<nat, Header>, tip: Tip, n: nat)
    requires n <= tip.height
  {
    n in headers ==> headers[n] == book(Ancestor(book, tip.hash, tip.height - n))
  }

  /** Nothing cached is lost, and whatever is new was read in this session. */
  ghost predicate Filled(book: Book, rpc: Session, before: map<nat, Header>, after: map<nat, Header>)
  {
    && (forall n :: n in before ==> n in after && after[n] == before[n])
    && (forall n :: n in after && n !in before ==> ReadIn(book, rpc, n, after[n]))
  }

  /** At one height, the filled cache holds the direct read exactly when what was cached there was clean. */
  lemma FilledAt(book: Book, rpc: Session, before: map<nat, Header>, after: map<nat, Header>, tip: Tip, n: nat)
    requires rpc.Pinned(book, tip.height, tip.hash) && n <= tip.height && Filled(book, rpc, before, after) && n in after
    ensures n < |rpc.view(0)|
    ensures after[n] == book(rpc.view(0)[n]) <==> CleanAt(book, before, tip, n)
  {
    PinnedRead(book, rpc, tip.height, tip.hash, 0, n);
    if n !in before { PinnedReadIn(book, rpc, tip, n, after[n]); }
  }

  /** In a pinned session, a window read off the filled cache is the direct read if and only if it was clean. */
  lemma WindowExact(book: Book, rpc: Session, before: map<nat, Header>, after: map<nat, Header>, tip: Tip, start: nat)
    requires rpc.Pinned(book, tip.height, tip.hash) && start <= tip.height && Filled(book, rpc, before, after)
    requires forall n: nat :: start <= n <= tip.height ==> n in after
    ensures tip.height < |rpc.view(0)|
    ensures Window(after, start, tip.height) == DirectRead(book, rpc.view(0), start, tip.height) <==>
      Clean(book, before, tip, start)
  {
    var window, direct := Window(after, start, tip.height), DirectRead(book, rpc.view(0), start, tip.height);
    forall i | 0 <= i < |window| ensures window[i] == direct[i] <==> CleanAt(book, before, tip, start + i) {
      FilledAt(book, rpc, before, after, tip, start + i);
    }
    if window == direct {
      forall n: nat | start <= n <= tip.height ensures CleanAt(book, before, tip, n) {
        assert window[n - start] == direct[n - start];
      }
    }
    if Clean(book, before, tip, start) {
      forall i | 0 <= i < |window| ensures window[i] == direct[i] { assert CleanAt(book, before, tip, start + i); }
    }
  }

  lemma PinnedReadIn(book: Book, rpc: Session, tip: Tip, n: nat, header: Header)
    requires rpc.Pinned(book, tip.height, tip.hash) && n <= tip.height && ReadIn(book, rpc, n, header)
    ensures header == book(Ancestor(book, tip.hash, tip.height - n))
  {
    var t: nat :| n < |rpc.view(t)| && header == book(rpc.view(t)[n]);
    PinnedRead(book, rpc, tip.height, tip.hash, t, n);
  }

  lemma FilledAnchored(book: Book, rpc: Session, before: map<nat, Header>, after: map<nat, Header>, tip: Tip)
    requires rpc.Pinned(book, tip.height, tip.hash) && Filled(book, rpc, before, after)
    requires Anchored(book, before, Some(tip)) && forall n :: n in after && n !in before ==> n <= tip.height
    ensures Anchored(book, after, Some(tip))
  {
    forall n | n in after && n !in before ensures after[n] == book(Ancestor(book, tip.hash, tip.height - n)) {
      PinnedReadIn(book, rpc, tip, n, after[n]);
    }
  }

  // ---- what one build finds ----

  /** The recorded tip cannot be compared: the read of its height raises. */
  predicate Unanswered(last: Option<Tip>, rpc: Session, tip: Tip)
  {
    last.Some? && last.value != tip && last.value.height <= tip.height && rpc.HashAt(0, last.value.height).None?
  }

  /** The newly sampled tip replaces the recorded one, as `record_tip` decides it. */
  predicate Replaces(last: Option<Tip>, rpc: Session, tip: Tip)
  {
    && last.Some? && last.value != tip && !Unanswered(last, rpc, tip)
    && (last.value.height > tip.height || rpc.HashAt(0, last.value.height) != Some(last.value.hash))
  }

  function Survivors(headers: map<nat, Header>, last: Option<Tip>, rpc: Session, tip: Tip): map<nat, Header>
  {
    if Replaces(last, rpc, tip) then map[] else headers
  }

  /** A pinned build answers when no call fails, with the uncached read if and only if its cache was clean. */
  ghost predicate AnswersExactly(book: Book, rpc: Session, found: map<nat, Header>, tip: Tip, activation: nat,
                                 r: Result<seq<Header>, ()>)
    requires rpc.Pinned(book, tip.height, tip.hash)
  {
    && (rpc.AlwaysUp() ==> r.Ok?)
    && (r.Ok? ==>
          && (r.value == DirectRead(book, rpc.view(0), WindowStart(activation, tip.height), tip.height) <==>
              Clean(book, found, tip, WindowStart(activation, tip.height)))
          && (Recent(book, tip, activation, r.value) <==>
              Clean(book, found, tip, WindowStart(activation, tip.height))))
  }

  lemma WindowAnswers(book: Book, rpc: Session, before: map<nat, Header>, after: map<nat, Header>, tip: Tip,
                      activation: nat)
    requires rpc.Pinned(book, tip.height, tip.hash) && Filled(book, rpc, before, after)
    requires forall n: nat :: WindowStart(activation, tip.height) <= n <= tip.height ==> n in after
    ensures AnswersExactly(book, rpc, before, tip, activation,
                           Ok(Window(after, WindowStart(activation, tip.height), tip.height)))
  {
    var start := WindowStart(activation, tip.height);
    WindowExact(book, rpc, before, after, tip, start);
    DirectIsRecent(book, rpc, tip, activation, Window(after, start, tip.height));
  }

  class Status {
    const generationStart: int
    var headers: map<nat, Header>
    var lastTip: Option<Tip>
    var observedBlocks: seq<int>
    var observedReorgs: seq<int>

    // Everything ever observed, never pruned, and the cutoff and time of the last recorded tip.
    ghost var blockLog: seq<int>
    ghost var reorgLog: seq<int>
    ghost var cutoff: int
    ghost var clock: int

    /** The deques are the unpruned logs restricted to the window of the last recorded tip. */
    ghost predicate Valid()
      reads this
    {
      && generationStart <= clock && cutoff <= Max(clock - 86400, generationStart)
      && PrunedLog(blockLog, observedBlocks, cutoff, clock)
      && PrunedLog(reorgLog, observedReorgs, cutoff, clock)
    }

    constructor (generationStart: int)
      ensures Valid() && this.generationStart == generationStart
      ensures headers == map[] && lastTip == None && blockLog == [] && reorgLog == [] && clock == generationStart
    {
      this.generationStart := generationStart;
      headers, lastTip, observedBlocks, observedReorgs := map[], None, [], [];
      blockLog, reorgLog, cutoff, clock := [], [], generationStart, generationStart;
    }

    static function Growth(last: Option<Tip>, tip: Tip): (grown: nat)
      ensures grown == if last.None? then 0 else Max(0, tip.height - last.value.height)
    {
      if last.Some? && tip.height > last.value.height then tip.height - last.value.height else 0
    }

    /** Compare the recorded tip with the source's chain; a replacement empties the cache. */
    method Compare(book: Book, rpc: Session, tip: Tip) returns (ok: bool, replaced: bool)
      modifies this`headers, this`lastTip
      ensures ok <==> !Unanswered(old(lastTip), rpc, tip)
      ensures !ok ==> unchanged(this)
      ensures ok ==> lastTip == Some(tip) && replaced == Replaces(old(lastTip), rpc, tip)
      ensures headers == Survivors(old(headers), old(lastTip), rpc, tip)
      ensures match old(lastTip)
        case None => ok && !replaced
        case Some(last) =>
          && (!ok <==> last != tip && last.height <= tip.height && rpc.HashAt(0, last.height) == None)
          && (ok && replaced <==>
                last != tip && (last.height > tip.height ||
                                rpc.HashAt(0, last.height) !in {None, Some(last.hash)}))
      ensures headers == if ok && replaced then map[] else old(headers)
      ensures old(Anchored(book, headers, lastTip)) && rpc.Pinned(book, tip.height, tip.hash) ==>
        Anchored(book, headers, lastTip)
    {
      replaced := false;
      if lastTip.Some? && lastTip.value != tip {
        var last := lastTip.value;
        replaced := last.height > tip.height;
        if !replaced {
          var hash := rpc.HashAt(0, last.height);
          if hash.None? { return false, false; }
          replaced := hash.value != last.hash;
        }
        if replaced {
          headers := map[];
        } else if Anchored(book, headers, lastTip) && rpc.Pinned(book, tip.height, tip.hash) {
          AnchoredExtend(book, headers, last, rpc.view(0), tip);
        }
      }
      lastTip := Some(tip);
      ok := true;
    }

    /**
     * Record a sampled tip. The block and reorganisation counts published from the deques are those of
     * the complete logs over the trailing day of this network generation.
     */
    method RecordTip(book: Book, rpc: Session, tip: Tip, now: int) returns (ok: bool)
      requires Valid() && clock <= now
      modifies this
      ensures Valid()
      ensures ok <==> !Unanswered(old(lastTip), rpc, tip)
      ensures !ok ==> unchanged(this)
      ensures ok ==> lastTip == Some(tip) && clock == now && cutoff == Max(now - 86400, generationStart)
      ensures ok ==> blockLog == old(blockLog) + Repeat(now, Growth(old(lastTip), tip))
      ensures ok ==> reorgLog == old(reorgLog) + Repeat(now, if Replaces(old(lastTip), rpc, tip) then 1 else 0)
      ensures headers == Survivors(old(headers), old(lastTip), rpc, tip)
      ensures old(Anchored(book, headers, lastTip)) && rpc.Pinned(book, tip.height, tip.hash) ==>
        Anchored(book, headers, lastTip)
    {
      var grown := Growth(lastTip, tip);
      var compared, replaced := Compare(book, rpc, tip);
      if !compared { return false; }
      var limit, reorgs := Max(now - 86400, generationStart), if replaced then 1 else 0;
      observedBlocks := Slide(observedBlocks, now, grown, limit, blockLog, cutoff, clock);
      observedReorgs := Slide(observedReorgs, now, reorgs, limit, reorgLog, cutoff, clock);
      blockLog, reorgLog := blockLog + Repeat(now, grown), reorgLog + Repeat(now, reorgs);
      cutoff, clock := limit, now;
      ok := true;
    }

    /** Read the headers of the window that are not cached. */
    method Fill(book: Book, rpc: Session, tip: Tip, start: nat, calls: nat) returns (ok: bool)
      requires start <= tip.height
      modifies this`headers
      ensures ok ==> forall n: nat :: start <= n <= tip.height ==> n in headers
      ensures Filled(book, rpc, old(headers), headers)
      ensures forall n :: n in headers && n !in old(headers) ==> n <= tip.height
      ensures rpc.AlwaysUp() && rpc.Reaches(tip.height) ==> ok
    {
      var number, t := start, calls;
      while number <= tip.height
        invariant start <= number <= tip.height + 1
        invariant forall n: nat :: start <= n < number ==> n in headers
        invariant forall n :: n in headers && n !in old(headers) ==> n < number
        invariant Filled(book, rpc, old(headers), headers)
      {
        if number !in headers {
          var hash := rpc.HashAt(t, number);
          if hash.None? || !rpc.up(t + 1) { return false; }
          ghost var view := rpc.view(t);
          assert ReadIn(book, rpc, number, book(view[number]));
          headers := headers[number := book(hash.value)];
          t := t + 2;
        }
        number := number + 1;
      }
      ok := true;
    }

    /** Read the missing headers of the window, then forget those below it. */
    method SampleHeaders(book: Book, rpc: Session, height: nat, activation: nat, calls: nat)
      returns (r: Result<seq<Header>, ()>)
      requires lastTip.Some? && lastTip.value.height == height
      modifies this`headers
      ensures forall n :: n in headers ==>
        (n in old(headers) && headers[n] == old(headers)[n]) || ReadIn(book, rpc, n, headers[n])
      ensures rpc.AlwaysUp() && rpc.Reaches(height) ==>
        forall n: nat :: WindowStart(activation, height) <= n <= height ==> n in headers
      ensures rpc.Pinned(book, height, lastTip.value.hash) ==>
        && (old(Anchored(book, headers, lastTip)) ==> Anchored(book, headers, lastTip))
        && AnswersExactly(book, rpc, old(headers), lastTip.value, activation, r)
    {
      var start, tip := WindowStart(activation, height), lastTip.value;
      var filled := Fill(book, rpc, tip, start, calls);
      ghost var all := headers;
      if rpc.Pinned(book, height, tip.hash) {
        if Anchored(book, old(headers), lastTip) { FilledAnchored(book, rpc, old(headers), all, tip); }
        if filled { WindowAnswers(book, rpc, old(headers), all, tip, activation); }
      }
      if !filled { return Err(()); }
      headers := From(headers, start);
      assert Window(headers, start, height) == Window(all, start, height);
      r := Ok(Window(headers, start, height));
    }

    /** The header part of `build`: record the sampled tip, then sample the window below it. */
    method Build(book: Book, rpc: Session, tip: Tip, activation: nat, now: int)
      returns (r: Result<seq<Header>, ()>)
      requires Valid() && clock <= now
      modifies this
      ensures Valid() && clock <= now
      ensures lastTip == NextTip(old(lastTip), rpc, tip)
      ensures Unanswered(old(lastTip), rpc, tip) ==> r.Err? && headers == old(headers)
      ensures var found := Survivors(old(headers), old(lastTip), rpc, tip);
        forall n :: n in headers ==> (n in found && headers[n] == found[n]) || ReadIn(book, rpc, n, headers[n])
      ensures rpc.AlwaysUp() && rpc.Reaches(tip.height) && !Unanswered(old(lastTip), rpc, tip) ==>
        forall n: nat :: WindowStart(activation, tip.height) <= n <= tip.height ==> n in headers
      ensures rpc.Pinned(book, tip.height, tip.hash) ==>
        && (old(Anchored(book, headers, lastTip)) || Replaces(old(lastTip), rpc, tip) ==>
              Anchored(book, headers, lastTip))
        && AnswersExactly(book, rpc, Survivors(old(headers), old(lastTip), rpc, tip), tip, activation, r)
    {
      var ok := RecordTip(book, rpc, tip, now);
      if !ok { return Err(()); }
      r := SampleHeaders(book, rpc, tip.height, activation, 1);
    }
  }

  // ---- whole runs ----

  datatype Sample = Sample(rpc: Session, tip: Tip, activation: nat, now: int) {
    ghost predicate Steady(book: Book) { rpc.Pinned(book, tip.height, tip.hash) }
  }

  function NextTip(last: Option<Tip>, rpc: Session, tip: Tip): Option<Tip>
  {
    if Unanswered(last, rpc, tip) then last else Some(tip)
  }

  /** The tip on record after the builds. */
  function Recorded(samples: seq<Sample>): Option<Tip>
  {
    if samples == [] then None
    else
      var s := samples[|samples| - 1];
      NextTip(Recorded(samples[..|samples| - 1]), s.rpc, s.tip)
  }

  /**
   * Every build since the cache was last emptied kept its sampled tip on the chain. A build that could not
   * read the recorded tip's height stored nothing, and does not count.
   */
  ghost predicate Undisturbed(book: Book, samples: seq<Sample>)
  {
    samples == []
    || var init, s := samples[..|samples| - 1], samples[|samples| - 1];
       if Unanswered(Recorded(init), s.rpc, s.tip) then Undisturbed(book, init)
       else s.Steady(book) && (Replaces(Recorded(init), s.rpc, s.tip) || Undisturbed(book, init))
  }

  /** The build after these sees a steady chain, with an empty cache or an undisturbed one. */
  ghost predicate Trusted(book: Book, before: seq<Sample>, s: Sample)
  {
    s.Steady(book) && (Replaces(Recorded(before), s.rpc, s.tip) || Undisturbed(book, before))
  }

  /** A build from an anchored cache, or one it empties first, is the uncached read. */
  lemma TrustedIsDirect(book: Book, s: Sample, headers: map<nat, Header>, last: Option<Tip>, r: Result<seq<Header>, ()>)
    requires s.Steady(book) && (Replaces(last, s.rpc, s.tip) || Anchored(book, headers, last))
    requires Unanswered(last, s.rpc, s.tip) ==> r.Err?
    requires AnswersExactly(book, s.rpc, Survivors(headers, last, s.rpc, s.tip), s.tip, s.activation, r)
    ensures Direct(book, s.rpc, s.tip, s.activation, r)
  {
    if !Replaces(last, s.rpc, s.tip) && !Unanswered(last, s.rpc, s.tip) && last.Some? {
      PinnedRead(book, s.rpc, s.tip.height, s.tip.hash, 0, last.value.height);
      AnchoredExtend(book, headers, last.value, s.rpc.view(0), s.tip);
    }
  }

  /** One build of a run. */
  method BuildOnce(book: Book, status: Status, ghost before: seq<Sample>, s: Sample)
    returns (r: Result<seq<Header>, ()>)
    requires status.Valid() && status.clock <= s.now && status.lastTip == Recorded(before)
    requires Undisturbed(book, before) ==> Anchored(book, status.headers, status.lastTip)
    modifies status
    ensures status.Valid() && status.clock <= s.now && status.lastTip == Recorded(before + [s])
    ensures Undisturbed(book, before + [s]) ==> Anchored(book, status.headers, status.lastTip)
    ensures Trusted(book, before, s) ==> Direct(book, s.rpc, s.tip, s.activation, r)
  {
    assert (before + [s])[..|before|] == before;
    ghost var headers := status.headers;
    r := status.Build(book, s.rpc, s.tip, s.activation, s.now);
    if Trusted(book, before, s) { TrustedIsDirect(book, s, headers, Recorded(before), r); }
  }

  /** A trusted build answers with the uncached read. */
  ghost predicate Answered(book: Book, samples: seq<Sample>, i: nat, r: Result<seq<Header>, ()>)
    requires i < |samples|
  {
    Trusted(book, samples[..i], samples[i]) ==>
      Direct(book, samples[i].rpc, samples[i].tip, samples[i].activation, r)
  }

  /**
   * Over any run of builds, with reorganisations between them and reads free to fail, a build whose
   * chain keeps the sampled tip answers with the uncached read whenever all those since the cache was last
   * emptied did so too.
   */
  method RunBuilds(book: Book, generationStart: int, samples: seq<Sample>)
    returns (results: seq<Result<seq<Header>, ()>>)
    requires forall i :: 0 <= i < |samples| ==> generationStart <= samples[i].now
    requires forall i, j :: 0 <= i < j < |samples| ==> samples[i].now <= samples[j].now
    ensures |results| == |samples| && forall i :: 0 <= i < |samples| ==> Answered(book, samples, i, results[i])
  {
    var status := new Status(generationStart);
    results := [];
    for i := 0 to |samples|
      invariant fresh(status) && status.Valid() && |results| == i && status.lastTip == Recorded(samples[..i])
      invariant forall j :: i <= j < |samples| ==> status.clock <= samples[j].now
      invariant Undisturbed(book, samples[..i]) ==> Anchored(book, status.headers, status.lastTip)
      invariant forall j :: 0 <= j < i ==> Answered(book, samples, j, results[j])
    {
      var r := BuildOnce(book, status, samples[..i], samples[i]);
      assert samples[..i + 1] == samples[..i] + [samples[i]];
      results := results + [r];
    }
  }

  lemma StaleIsNotClean(book: Book, headers: map<nat, Header>, tip: Tip, start: nat, number: nat, view: View,
                        branch: View)
    requires Linked(book, view) && Linked(book, branch) && tip.height < |view| && view[tip.height] == tip.hash
    requires start <= number <= tip.height && number < |branch| && number in headers
    requires headers[number] == book(branch[number]) && view[number] != branch[number]
    ensures !Clean(book, headers, tip, start)
  {
    ViewAncestor(book, view, tip.height, number);
    assert book(view[number]).hash != book(branch[number]).hash;
    assert !CleanAt(book, headers, tip, number);
  }

  /** A first build while the source stands on `branch` caches that branch, whatever tip it is under. */
  method BuildAway(book: Book, status: Status, away: Session, branch: View, tip: Tip, activation: nat, now: int)
    requires status.Valid() && status.clock <= now && status.headers == map[] && status.lastTip == None
    requires away.Stands(branch) && tip.height < |branch|
    modifies status
    ensures status.Valid() && status.clock <= now && status.lastTip == Some(tip)
    ensures forall n: nat :: WindowStart(activation, tip.height) <= n <= tip.height ==>
      n in status.headers && status.headers[n] == book(branch[n])
  {
    var first := status.Build(book, away, tip, activation, now);
    forall n: nat | WindowStart(activation, tip.height) <= n <= tip.height
      ensures status.headers[n] == book(branch[n])
    {
      assert ReadIn(book, away, n, status.headers[n]);
    }
  }

  /**
   * A build under a tip of one branch while the source stands on another caches the other branch. Back on
   * the first branch nothing is dropped, and a build whose chain keeps its sampled tip serves it: it is
   * not the uncached read, for any two branches that differ within both windows.
   */
  method StaleAfterInterruption(book: Book, away: Session, branch: View, back: Session, tip: Tip, later: Tip,
                                activation: nat, number: nat, now: int)
    returns (served: Result<seq<Header>, ()>)
    requires Linked(book, branch) && away.Stands(branch) && tip.height < |branch|
    requires back.Pinned(book, later.height, later.hash) && back.AlwaysUp()
    requires tip.height <= later.height < |back.view(0)| && back.view(0)[tip.height] == tip.hash
    requires WindowStart(activation, tip.height) <= number <= tip.height
    requires WindowStart(activation, later.height) <= number
    requires back.view(0)[number] != branch[number]
    ensures served.Ok?
    ensures served.value != DirectRead(book, back.view(0), WindowStart(activation, later.height), later.height)
  {
    var status := new Status(now);
    BuildAway(book, status, away, branch, tip, activation, now);
    StaleIsNotClean(book, status.headers, later, WindowStart(activation, later.height), number, back.view(0), branch);
    served := status.Build(book, back, later, activation, now);
  }

  /** Such an interruption on two branches of n blocks: a tip sampled on one, read on the other. */
  method InterruptedBuild(n: nat, now: int) returns (served: Result<seq<Header>, ()>)
    requires 2 <= n <= 300
    ensures served.Ok? && served.value != DirectRead(Spelled(), Branch('a', n), 0, n)
  {
    var view, branch := Branch('a', n), Branch('b', n);
    BranchLinked('a', n);
    BranchLinked('b', n);
    StillStands(Spelled(), view, n);
    StillStands(Spelled(), branch, n);
    assert view[1][1] == 'a' && branch[1][1] == 'b';
    var tip, later := Tip(n - 1, view[n - 1]), Tip(n, view[n]);
    served := StaleAfterInterruption(Spelled(), Still(branch), branch, Still(view), tip, later, 0, 1, now);
  }

  /** The pruned deque `observed` stands for the unpruned log at time `clock`. */
  ghost predicate PrunedLog(log: seq<int>, observed: seq<int>, cutoff: int, clock: int)
  {
    && Nondecreasing(log) && (forall i :: 0 <= i < |log| ==> log[i] <= clock)
    && observed == Since(log, cutoff)
  }

  /** Append `n` observations made now and prune to `limit`. */
  method Slide(observed: seq<int>, now: int, n: nat, limit: int, ghost log: seq<int>, ghost cutoff: int,
               ghost clock: int)
    returns (kept: seq<int>)
    requires PrunedLog(log, observed, cutoff, clock) && clock <= now
    requires cutoff <= limit && cutoff <= now
    ensures PrunedLog(log + Repeat(now, n), kept, limit, now)
  {
    PruneOnce(log, cutoff, now, n, limit);
    kept := PruneFront(observed + Repeat(now, n), limit);
  }
}
