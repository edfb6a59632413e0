/** Run retention of the continuous-sync controller (`cleanup_retention`). */
module Retention {
  import opened Prelude

  datatype Phase = Complete | Failed | Unfinished

  /** A run directory; `name` and `startedAt` stand for their places in path and stamp order. */
  datatype RunDir = RunDir(phase: Phase, startedAt: int, name: int, size: nat)

  /** Successful runs are expendable first, then the oldest within each group. */
  predicate Precedes(a: RunDir, b: RunDir)
  {
    if a.phase.Complete? != b.phase.Complete? then a.phase.Complete?
    else a.startedAt < b.startedAt || (a.startedAt == b.startedAt && a.name <= b.name)
  }

  ghost predicate InOrder(s: seq<RunDir>)
  {
    forall i, j :: 0 <= i < j < |s| ==> Precedes(s[i], s[j])
  }

  function Insert(r: RunDir, s: seq<RunDir>): seq<RunDir>
  {
    if s == [] || Precedes(r, s[0]) then [r] + s else [s[0]] + Insert(r, s[1..])
  }

  function Sort(s: seq<RunDir>): seq<RunDir>
  {
    if s == [] then [] else Insert(s[0], Sort(s[1..]))
  }

  lemma {:induction false} InsertPermutes(r: RunDir, s: seq<RunDir>)
    ensures multiset(Insert(r, s)) == multiset(s) + multiset{r}
  {
    if s != [] && !Precedes(r, s[0]) {
      InsertPermutes(r, s[1..]);
      assert s == [s[0]] + s[1..];
    }
  }

  lemma {:induction false} InsertInOrder(r: RunDir, s: seq<RunDir>)
    requires InOrder(s)
    ensures InOrder(Insert(r, s))
  {
    if s != [] && !Precedes(r, s[0]) {
      var rest := Insert(r, s[1..]);
      InsertInOrder(r, s[1..]);
      forall i | 0 <= i < |rest| ensures Precedes(s[0], rest[i]) {
        InsertPermutes(r, s[1..]);
        assert rest[i] in multiset(rest);
      }
    }
  }

  lemma {:induction false} SortOrders(s: seq<RunDir>)
    ensures InOrder(Sort(s)) && multiset(Sort(s)) == multiset(s)
  {
    if s != [] {
      SortOrders(s[1..]);
      InsertInOrder(s[0], Sort(s[1..]));
      InsertPermutes(s[0], Sort(s[1..]));
      assert s == [s[0]] + s[1..];
    }
  }

  function Size(s: seq<RunDir>): nat
  {
    if s == [] then 0 else Size(s[..|s| - 1]) + s[|s| - 1].size
  }

  lemma {:induction false} SizeConcat(s: seq<RunDir>, t: seq<RunDir>)
    ensures Size(s + t) == Size(s) + Size(t)
  {
    if t == [] {
      assert s + t == s;
    } else {
      SizeConcat(s, t[..|t| - 1]);
      assert s + t == (s + t[..|t| - 1]) + [t[|t| - 1]];
    }
  }

  lemma {:induction false} SizeInsert(r: RunDir, s: seq<RunDir>)
    ensures Size(Insert(r, s)) == Size(s) + r.size
  {
    if s == [] || Precedes(r, s[0]) {
      SizeConcat([r], s);
    } else {
      SizeInsert(r, s[1..]);
      SizeConcat([s[0]], s[1..]);
      SizeConcat([s[0]], Insert(r, s[1..]));
      assert s == [s[0]] + s[1..];
    }
  }

  lemma {:induction false} SizeSort(s: seq<RunDir>)
    ensures Size(Sort(s)) == Size(s)
  {
    if s != [] {
      SizeSort(s[1..]);
      SizeInsert(s[0], Sort(s[1..]));
      SizeConcat([s[0]], s[1..]);
      assert s == [s[0]] + s[1..];
    }
  }

  // ---- protected runs ----

  /** The most recent failed run, kept for diagnosis. */
  ghost predicate LatestFailed(r: RunDir, runs: seq<RunDir>)
  {
    && r in runs && r.phase.Failed?
    && forall o :: o in runs && o.phase.Failed? ==>
         o.startedAt < r.startedAt || (o.startedAt == r.startedAt && o.name <= r.name)
  }

  method Protect(runs: seq<RunDir>, active: Option<int>) returns (names: set<int>)
    ensures active.Some? ==> active.value in names
    ensures forall r :: LatestFailed(r, runs) ==> r.name in names
    ensures forall n :: n in names ==>
      active == Some(n) || exists r :: LatestFailed(r, runs) && r.name == n
  {
    names := if active.Some? then {active.value} else {};
    var latest: Option<RunDir> := None;
    for i := 0 to |runs|
      invariant latest.None? ==> forall j :: 0 <= j < i ==> !runs[j].phase.Failed?
      invariant latest.Some? ==> LatestFailed(latest.value, runs[..i])
    {
      if runs[i].phase.Failed? && (latest.None? || !Precedes(runs[i], latest.value)) {
        latest := Some(runs[i]);
      }
      assert runs[..i + 1] == runs[..i] + [runs[i]];
    }
    assert runs[..|runs|] == runs;
    if latest.Some? {
      names := names + {latest.value.name};
      forall r | LatestFailed(r, runs) ensures r.name == latest.value.name { }
    } else {
      assert forall r :: r in runs ==> !r.phase.Failed?;
    }
  }

  /** The runs that may be deleted, in deletion order. */
  function Expendable(s: seq<RunDir>, protect: set<int>): seq<RunDir>
  {
    if s == [] then []
    else
      var last := s[|s| - 1];
      Expendable(s[..|s| - 1], protect) + if last.name in protect then [] else [last]
  }

  lemma {:induction false} ExpendableMembers(s: seq<RunDir>, protect: set<int>, r: RunDir)
    ensures r in Expendable(s, protect) <==> r in s && r.name !in protect
  {
    if s != [] {
      ExpendableMembers(s[..|s| - 1], protect, r);
      assert s == s[..|s| - 1] + [s[|s| - 1]];
    }
  }

  lemma {:induction false} ExpendableInOrder(s: seq<RunDir>, protect: set<int>)
    requires InOrder(s)
    ensures InOrder(Expendable(s, protect))
  {
    if s != [] {
      var init, last := s[..|s| - 1], s[|s| - 1];
      ExpendableInOrder(init, protect);
      forall i | 0 <= i < |Expendable(init, protect)| ensures Precedes(Expendable(init, protect)[i], last) {
        ExpendableMembers(init, protect, Expendable(init, protect)[i]);
      }
    }
  }

  /** The runs skipped because they are protected. */
  function Shielded(s: seq<RunDir>, protect: set<int>): seq<RunDir>
  {
    if s == [] then []
    else
      var last := s[|s| - 1];
      Shielded(s[..|s| - 1], protect) + if last.name in protect then [last] else []
  }

  lemma {:induction false} ShieldedRest(s: seq<RunDir>, protect: set<int>)
    ensures multiset(Shielded(s, protect)) + multiset(Expendable(s, protect)) == multiset(s)
  {
    if s != [] {
      ShieldedRest(s[..|s| - 1], protect);
      assert s == s[..|s| - 1] + [s[|s| - 1]];
    }
  }

  lemma {:induction false} ShieldedSize(s: seq<RunDir>, protect: set<int>)
    ensures Size(Shielded(s, protect)) + Size(Expendable(s, protect)) == Size(s)
    ensures |Shielded(s, protect)| + |Expendable(s, protect)| == |s|
  {
    if s != [] {
      var init, last := s[..|s| - 1], s[|s| - 1];
      ShieldedSize(init, protect);
      if last.name in protect {
        assert Expendable(s, protect) == Expendable(init, protect);
      } else {
        assert Shielded(s, protect) == Shielded(init, protect);
      }
    }
  }

  // ---- what must go ----

  datatype Bounds = Bounds(runs: int, bytes: int)

  predicate Over(count: int, total: int, bounds: Bounds) { count > bounds.runs || total > bounds.bytes }

  /** How many runs at the front of the queue the bounds alone require to go. */
  function Needed(queue: seq<RunDir>, count: int, total: int, bounds: Bounds): (n: nat)
    ensures n <= |queue|
  {
    if queue == [] || !Over(count, total, bounds) then 0
    else 1 + Needed(queue[1..], count - 1, total - queue[0].size, bounds)
  }

  /** Deleting one fewer leaves a bound exceeded; deleting that many meets both unless the queue is empty. */
  lemma {:induction false} NeededExact(queue: seq<RunDir>, count: int, total: int, bounds: Bounds, k: nat)
    requires k <= |queue|
    ensures k < Needed(queue, count, total, bounds) ==> Over(count - k, total - Size(queue[..k]), bounds)
    ensures Needed(queue, count, total, bounds) <= k && (k < |queue| || Needed(queue, count, total, bounds) < k) ==>
      !Over(count - k, total - Size(queue[..k]), bounds)
    decreases k
  {
    if k > 0 {
      assert queue[..k] == [queue[0]] + queue[1..][..k - 1];
      SizeConcat([queue[0]], queue[1..][..k - 1]);
      if Over(count, total, bounds) {
        NeededExact(queue[1..], count - 1, total - queue[0].size, bounds, k - 1);
      }
    }
  }

  /** The runs of the queue marked for deletion. */
  function Marked(queue: seq<RunDir>, gone: seq<bool>): seq<RunDir>
    requires |queue| == |gone|
  {
    if queue == [] then []
    else
      var i := |queue| - 1;
      Marked(queue[..i], gone[..i]) + if gone[i] then [queue[i]] else []
  }

  /** The runs of the queue left in place. */
  function Unmarked(queue: seq<RunDir>, gone: seq<bool>): seq<RunDir>
    requires |queue| == |gone|
  {
    if queue == [] then []
    else
      var i := |queue| - 1;
      Unmarked(queue[..i], gone[..i]) + if gone[i] then [] else [queue[i]]
  }

  lemma {:induction false} MarksDivide(queue: seq<RunDir>, gone: seq<bool>)
    requires |queue| == |gone|
    ensures multiset(Unmarked(queue, gone)) + multiset(Marked(queue, gone)) == multiset(queue)
  {
    if queue != [] {
      var i := |queue| - 1;
      MarksDivide(queue[..i], gone[..i]);
      assert queue == queue[..i] + [queue[i]];
    }
  }

  lemma {:induction false} MarksSplitSize(queue: seq<RunDir>, gone: seq<bool>)
    requires |queue| == |gone|
    ensures Size(Unmarked(queue, gone)) + Size(Marked(queue, gone)) == Size(queue)
    ensures |Unmarked(queue, gone)| + |Marked(queue, gone)| == |queue|
  {
    if queue != [] {
      var i := |queue| - 1;
      var init, flags := queue[..i], gone[..i];
      MarksSplitSize(init, flags);
      if gone[i] {
        assert Unmarked(queue, gone) == Unmarked(init, flags);
      } else {
        assert Marked(queue, gone) == Marked(init, flags);
      }
    }
  }

  /** Free bytes where the chain state, the runs and the build cache live, as one check finds them. */
  datatype Free = Free(chainState: nat, runs: nat, buildCache: nat)

  const RECOVERY_RESERVE := 5 * 1024 * 1024 * 1024

  /** The check made in recovery fails: some file system holds less than the minimum and the reserve. */
  predicate Short(free: Free, minimum: int)
    ensures Short(free, minimum) <==> Least(free) - minimum < 5368709120
  {
    var floor := minimum + RECOVERY_RESERVE;
    free.chainState < floor || free.runs < floor || free.buildCache < floor
  }

  /** What the fullest of the three file systems still has. */
  function Least(free: Free): nat
  {
    var least := if free.chainState <= free.runs then free.chainState else free.runs;
    if least <= free.buildCache then least else free.buildCache
  }

  /** The k-th run goes when the bounds alone require it, or its free-space check fails in recovery. */
  ghost predicate Decides(queue: seq<RunDir>, runs: int, bytes: int, bounds: Bounds, recovery: bool,
                          free: nat -> Free, minimum: int, gone: seq<bool>)
  {
    && |gone| == |queue|
    && forall k :: 0 <= k < |queue| ==>
         gone[k] == (k < Needed(queue, runs, bytes, bounds) || (recovery && Short(free(k), minimum)))
  }

  lemma MarkedSnoc(queue: seq<RunDir>, gone: seq<bool>, r: RunDir, goes: bool)
    requires |queue| == |gone|
    ensures Marked(queue + [r], gone + [goes]) == Marked(queue, gone) + if goes then [r] else []
  {
    assert (queue + [r])[..|queue|] == queue && (gone + [goes])[..|gone|] == gone;
  }

  lemma UnmarkedSnoc(queue: seq<RunDir>, gone: seq<bool>, r: RunDir, goes: bool)
    requires |queue| == |gone|
    ensures Unmarked(queue + [r], gone + [goes]) == Unmarked(queue, gone) + if goes then [] else [r]
  {
    assert (queue + [r])[..|queue|] == queue && (gone + [goes])[..|gone|] == gone;
  }

  /**
   * The decision on the k-th run: it goes exactly when the runs not deleted before it are too many or too
   * large, or its own space check fails in recovery.
   */
  ghost predicate Lawful(queue: seq<RunDir>, runs: int, bytes: int, bounds: Bounds, recovery: bool,
                         free: nat -> Free, minimum: int, gone: seq<bool>, k: nat)
    requires k < |gone| <= |queue|
  {
    var before := Marked(queue[..k], gone[..k]);
    gone[k] <==>
      || runs - |before| > bounds.runs || bytes - Size(before) > bounds.bytes
      || (recovery && Least(free(k)) - minimum < 5368709120)
  }

  /** The walk has decided on the runs of `done`, and left this behind. */
  ghost predicate Walked(done: seq<RunDir>, gone: seq<bool>, spared: seq<RunDir>, deleted: seq<RunDir>)
  {
    |gone| == |done| && deleted == Marked(done, gone) && spared == Unmarked(done, gone)
  }

  lemma WalkedOn(done: seq<RunDir>, gone: seq<bool>, spared: seq<RunDir>, deleted: seq<RunDir>, r: RunDir, goes: bool)
    requires Walked(done, gone, spared, deleted)
    ensures goes ==> Walked(done + [r], gone + [true], spared, deleted + [r])
    ensures !goes ==> Walked(done + [r], gone + [false], spared + [r], deleted)
  {
    MarkedSnoc(done, gone, r, goes);
    UnmarkedSnoc(done, gone, r, goes);
    assert spared + [] == spared && deleted + [] == deleted;
  }

  /** The running count and total after k runs: exact while the bounds demand more, within them afterwards. */
  ghost predicate Counted(queue: seq<RunDir>, runs: int, bytes: int, bounds: Bounds, b: nat, k: nat, count: int,
                          total: int)
    requires k <= |queue|
  {
    && (k <= b ==> count == runs - k && total == bytes - Size(queue[..k]))
    && (k > b ==> !Over(count, total, bounds))
  }

  lemma CountedOn(queue: seq<RunDir>, runs: int, bytes: int, bounds: Bounds, b: nat, k: nat, count: int, total: int)
    requires b == Needed(queue, runs, bytes, bounds)
    requires k < |queue| && Counted(queue, runs, bytes, bounds, b, k, count, total)
    ensures Over(count, total, bounds) <==> k < b
    ensures Counted(queue, runs, bytes, bounds, b, k + 1, count - 1, total - queue[k].size)
    ensures k >= b ==> Counted(queue, runs, bytes, bounds, b, k + 1, count, total)
  {
    if k <= b { NeededExact(queue, runs, bytes, bounds, k); }
    assert queue[..k + 1] == queue[..k] + [queue[k]];
  }

  ghost predicate AllLawful(queue: seq<RunDir>, runs: int, bytes: int, bounds: Bounds, recovery: bool,
                            free: nat -> Free, minimum: int, gone: seq<bool>)
    requires |gone| <= |queue|
  {
    forall k :: 0 <= k < |gone| ==> Lawful(queue, runs, bytes, bounds, recovery, free, minimum, gone, k)
  }

  lemma LawfulOn(queue: seq<RunDir>, runs: int, bytes: int, bounds: Bounds, recovery: bool, free: nat -> Free,
                 minimum: int, gone: seq<bool>, goes: bool)
    requires |gone| < |queue| && AllLawful(queue, runs, bytes, bounds, recovery, free, minimum, gone)
    requires var before := Marked(queue[..|gone|], gone);
      goes <==> Over(runs - |before|, bytes - Size(before), bounds) || (recovery && Short(free(|gone|), minimum))
    ensures AllLawful(queue, runs, bytes, bounds, recovery, free, minimum, gone + [goes])
  {
    forall i | 0 <= i <= |gone|
      ensures Lawful(queue, runs, bytes, bounds, recovery, free, minimum, gone + [goes], i)
    {
      assert (gone + [goes])[..i] == gone[..i];
      if i < |gone| {
        assert Lawful(queue, runs, bytes, bounds, recovery, free, minimum, gone, i);
      } else {
        assert gone[..i] == gone;
      }
    }
  }

  /** What is deleted of the first k runs. */
  function GoneBefore(queue: seq<RunDir>, gone: seq<bool>, k: nat): seq<RunDir>
    requires k <= |gone| == |queue|
  {
    Marked(queue[..k], gone[..k])
  }

  lemma GoneNext(queue: seq<RunDir>, gone: seq<bool>, k: nat)
    requires k < |gone| == |queue|
    ensures GoneBefore(queue, gone, k + 1) == GoneBefore(queue, gone, k) + if gone[k] then [queue[k]] else []
    ensures Size(GoneBefore(queue, gone, k + 1)) ==
      Size(GoneBefore(queue, gone, k)) + if gone[k] then queue[k].size else 0
  {
    assert queue[..k + 1] == queue[..k] + [queue[k]] && gone[..k + 1] == gone[..k] + [gone[k]];
    MarkedSnoc(queue[..k], gone[..k], queue[k], gone[k]);
    if !gone[k] { assert GoneBefore(queue, gone, k) + [] == GoneBefore(queue, gone, k); }
  }

  /** Decided one by one, the bounds alone take the front of the queue and the space checks the rest. */
  lemma LawfulDecides(queue: seq<RunDir>, runs: int, bytes: int, bounds: Bounds, recovery: bool, free: nat -> Free,
                      minimum: int, gone: seq<bool>)
    requires |gone| == |queue| && AllLawful(queue, runs, bytes, bounds, recovery, free, minimum, gone)
    ensures Decides(queue, runs, bytes, bounds, recovery, free, minimum, gone)
  {
    var b := Needed(queue, runs, bytes, bounds);
    var k := 0;
    var before: seq<RunDir> := [];
    while k < |queue|
      invariant k <= |queue| && before == GoneBefore(queue, gone, k)
      invariant Counted(queue, runs, bytes, bounds, b, k, runs - |before|, bytes - Size(before))
      invariant forall i :: 0 <= i < k ==> gone[i] == (i < b || (recovery && Short(free(i), minimum)))
    {
      assert Lawful(queue, runs, bytes, bounds, recovery, free, minimum, gone, k);
      CountedOn(queue, runs, bytes, bounds, b, k, runs - |before|, bytes - Size(before));
      GoneNext(queue, gone, k);
      before := GoneBefore(queue, gone, k + 1);
      k := k + 1;
    }
  }

  /** Walk the queue once; `free(k)` is what the check made for the k-th run finds. */
  method Walk(queue: seq<RunDir>, runs: int, bytes: int, bounds: Bounds, recovery: bool, free: nat -> Free,
              minimum: int)
    returns (spared: seq<RunDir>, deleted: seq<RunDir>, gone: seq<bool>, count: int, total: int)
    ensures |gone| == |queue| && AllLawful(queue, runs, bytes, bounds, recovery, free, minimum, gone)
    ensures deleted == Marked(queue, gone) && spared == Unmarked(queue, gone)
    ensures count == runs - |deleted| && total == bytes - Size(deleted)
  {
    ghost var done: seq<RunDir> := [];
    total, count, spared, deleted, gone := bytes, runs, [], [], [];
    for k := 0 to |queue|
      invariant done == queue[..k] && Walked(done, gone, spared, deleted)
      invariant AllLawful(queue, runs, bytes, bounds, recovery, free, minimum, gone)
      invariant count == runs - |deleted| && total == bytes - Size(deleted)
    {
      var child := queue[k];
      var goes := Over(count, total, bounds) || (recovery && Short(free(k), minimum));
      LawfulOn(queue, runs, bytes, bounds, recovery, free, minimum, gone, goes);
      WalkedOn(done, gone, spared, deleted, child, goes);
      done := done + [child];
      if goes {
        deleted := deleted + [child];
        total, count := total - child.size, count - 1;
      } else {
        spared := spared + [child];
      }
      gone := gone + [goes];
    }
    assert queue[..|queue|] == queue;
  }

  /** The running count and total are those of the runs that remain. */
  method Cleanup(runs: seq<RunDir>, protect: set<int>, bounds: Bounds, recovery: bool, free: nat -> Free, minimum: int)
    returns (kept: seq<RunDir>, deleted: seq<RunDir>, gone: seq<bool>, count: int, total: int)
    ensures |gone| == |Expendable(Sort(runs), protect)|
    ensures AllLawful(Expendable(Sort(runs), protect), |runs|, Size(runs), bounds, recovery, free, minimum, gone)
    ensures deleted == Marked(Expendable(Sort(runs), protect), gone)
    ensures multiset(kept) + multiset(deleted) == multiset(runs)
    ensures count == |kept| == |runs| - |deleted| && total == Size(kept) == Size(runs) - Size(deleted)
  {
    var sorted := Sort(runs);
    SortOrders(runs);
    SizeSort(runs);
    assert |sorted| == |multiset(sorted)| == |multiset(runs)| == |runs|;
    ShieldedRest(sorted, protect);
    ShieldedSize(sorted, protect);
    var queue := Expendable(sorted, protect);
    var spared;
    spared, deleted, gone, count, total := Walk(queue, |runs|, Size(runs), bounds, recovery, free, minimum);
    MarksDivide(queue, gone);
    MarksSplitSize(queue, gone);
    kept := Shielded(sorted, protect) + spared;
    SizeConcat(Shielded(sorted, protect), spared);
  }

  /** Complete runs come first, and the oldest first within each group. */
  ghost predicate OldestFirst(queue: seq<RunDir>)
  {
    forall i, j :: 0 <= i < j < |queue| ==>
      && (queue[j].phase.Complete? ==> queue[i].phase.Complete?)
      && (queue[i].phase.Complete? == queue[j].phase.Complete? ==>
            || queue[i].startedAt < queue[j].startedAt
            || (queue[i].startedAt == queue[j].startedAt && queue[i].name <= queue[j].name))
  }

  /** The run is the active one, or shares its name with the latest failed run. */
  ghost predicate Spared(r: RunDir, runs: seq<RunDir>, active: Option<int>)
  {
    active == Some(r.name) || exists f :: LatestFailed(f, runs) && f.name == r.name
  }

  /**
   * The whole call. Only the runs that are not spared can go, in deletion order, each exactly when those not
   * deleted before it are too many or too large, or its own space check fails in recovery. Without recovery
   * the deletions are a prefix of that order, so runs within both bounds lose nothing.
   */
  method CleanupRetention(runs: seq<RunDir>, active: Option<int>, bounds: Bounds, recovery: bool, free: nat -> Free,
                          minimum: int)
    returns (kept: seq<RunDir>, deleted: seq<RunDir>, ghost queue: seq<RunDir>, ghost gone: seq<bool>)
    ensures multiset(kept) + multiset(deleted) == multiset(runs)
    ensures OldestFirst(queue) && forall r :: r in queue <==> r in runs && !Spared(r, runs, active)
    ensures |gone| == |queue| && deleted == Marked(queue, gone)
    ensures AllLawful(queue, |runs|, Size(runs), bounds, recovery, free, minimum, gone)
    ensures forall r :: r in deleted ==> !Spared(r, runs, active)
    ensures !recovery ==> deleted <= queue
    ensures !recovery && |runs| <= bounds.runs && Size(runs) <= bounds.bytes ==> deleted == []
    ensures !recovery && (|kept| > bounds.runs || Size(kept) > bounds.bytes) ==>
      forall r :: r in kept ==> Spared(r, runs, active)
  {
    var protect := Protect(runs, active);
    var marks, count, total;
    kept, deleted, marks, count, total := Cleanup(runs, protect, bounds, recovery, free, minimum);
    queue, gone := Expendable(Sort(runs), protect), marks;
    QueueSpares(runs, active, protect);
    LawfulDecides(queue, |runs|, Size(runs), bounds, recovery, free, minimum, gone);
    forall r | r in deleted ensures !Spared(r, runs, active) { MarkedMembers(queue, gone, r); }
    if !recovery {
      PlainCleanup(queue, |runs|, Size(runs), bounds, free, minimum, gone);
      if deleted != [] { assert Over(|runs| - 0, Size(runs) - Size(queue[..0]), bounds); }
      if Over(|kept|, Size(kept), bounds) {
        AllGone(runs, protect, bounds, free, minimum, gone, kept, deleted);
      }
    }
  }

  lemma QueueSpares(runs: seq<RunDir>, active: Option<int>, protect: set<int>)
    requires forall r :: r in runs ==> (r.name in protect <==> Spared(r, runs, active))
    ensures var queue := Expendable(Sort(runs), protect);
      OldestFirst(queue) && forall r :: r in queue <==> r in runs && !Spared(r, runs, active)
  {
    var queue := Expendable(Sort(runs), protect);
    forall r ensures r in queue <==> r in runs && !Spared(r, runs, active) { QueueOrder(runs, protect, r); }
    SortOrders(runs);
    ExpendableInOrder(Sort(runs), protect);
  }

  /** Still over a bound without recovery, the whole queue has been deleted. */
  lemma AllGone(runs: seq<RunDir>, protect: set<int>, bounds: Bounds, free: nat -> Free, minimum: int, gone: seq<bool>,
                kept: seq<RunDir>, deleted: seq<RunDir>)
    requires Decides(Expendable(Sort(runs), protect), |runs|, Size(runs), bounds, false, free, minimum, gone)
    requires deleted == Marked(Expendable(Sort(runs), protect), gone)
    requires multiset(kept) + multiset(deleted) == multiset(runs)
    requires |kept| == |runs| - |deleted| && Size(kept) == Size(runs) - Size(deleted)
    requires Over(|kept|, Size(kept), bounds)
    ensures forall r :: r in kept ==> r.name in protect
  {
    var queue := Expendable(Sort(runs), protect);
    PlainCleanup(queue, |runs|, Size(runs), bounds, free, minimum, gone);
    assert deleted == queue;
    KeptIsShielded(runs, protect, kept);
  }

  lemma KeptIsShielded(runs: seq<RunDir>, protect: set<int>, kept: seq<RunDir>)
    requires multiset(kept) + multiset(Expendable(Sort(runs), protect)) == multiset(runs)
    ensures forall r :: r in kept ==> r.name in protect
  {
    SortOrders(runs);
    ShieldedRest(Sort(runs), protect);
    Cancel(multiset(kept), multiset(Shielded(Sort(runs), protect)), multiset(Expendable(Sort(runs), protect)));
    forall r | r in kept ensures r.name in protect {
      assert r in multiset(kept);
      ShieldedMembers(Sort(runs), protect, r);
    }
  }

  lemma Cancel(a: multiset<RunDir>, b: multiset<RunDir>, c: multiset<RunDir>)
    requires a + c == b + c
    ensures a == b
  {
    forall r ensures a[r] == b[r] { assert (a + c)[r] == (b + c)[r]; }
  }

  lemma {:induction false} ShieldedMembers(s: seq<RunDir>, protect: set<int>, r: RunDir)
    ensures r in Shielded(s, protect) ==> r.name in protect
  {
    if s != [] { ShieldedMembers(s[..|s| - 1], protect, r); }
  }

  // ---- what the policy promises ----

  /** No run protected by the call is ever deleted, with or without recovery. */
  lemma ProtectedSurvive(runs: seq<RunDir>, protect: set<int>, gone: seq<bool>, r: RunDir)
    requires |gone| == |Expendable(Sort(runs), protect)|
    requires r in Marked(Expendable(Sort(runs), protect), gone)
    ensures r in runs && r.name !in protect
  {
    MarkedMembers(Expendable(Sort(runs), protect), gone, r);
    ExpendableMembers(Sort(runs), protect, r);
    SortOrders(runs);
    assert r in multiset(Sort(runs));
  }

  lemma {:induction false} MarkedMembers(queue: seq<RunDir>, gone: seq<bool>, r: RunDir)
    requires |queue| == |gone|
    ensures r in Marked(queue, gone) ==> r in queue
  {
    if queue != [] { MarkedMembers(queue[..|queue| - 1], gone[..|gone| - 1], r); }
  }

  /** Marks that are all in front delete a prefix. */
  lemma {:induction false} MarkedPrefix(queue: seq<RunDir>, gone: seq<bool>, n: nat)
    requires |queue| == |gone| && n <= |queue|
    requires forall i :: 0 <= i < |queue| ==> gone[i] == (i < n)
    ensures Marked(queue, gone) == queue[..n]
  {
    if queue != [] {
      var i := |queue| - 1;
      MarkedPrefix(queue[..i], gone[..i], if n <= i then n else i);
      if n == |queue| { assert queue[..n] == queue[..i] + [queue[i]]; }
    }
  }

  /** The queue is the unprotected runs, complete ones first and oldest first within each group. */
  lemma QueueOrder(runs: seq<RunDir>, protect: set<int>, r: RunDir)
    ensures InOrder(Expendable(Sort(runs), protect))
    ensures r in Expendable(Sort(runs), protect) <==> r in runs && r.name !in protect
  {
    SortOrders(runs);
    ExpendableInOrder(Sort(runs), protect);
    ExpendableMembers(Sort(runs), protect, r);
    assert r in Sort(runs) <==> r in multiset(Sort(runs));
  }

  /**
   * Without recovery the deleted runs are a prefix of the queue; a surviving run of the queue means both
   * bounds hold; and no run is deleted that the bounds did not require.
   */
  lemma PlainCleanup(queue: seq<RunDir>, runs: int, bytes: int, bounds: Bounds, free: nat -> Free, minimum: int,
                     gone: seq<bool>)
    requires Decides(queue, runs, bytes, bounds, false, free, minimum, gone)
    ensures var deleted := Marked(queue, gone);
      && deleted <= queue
      && (|deleted| < |queue| ==> !Over(runs - |deleted|, bytes - Size(deleted), bounds))
      && forall k :: 0 <= k < |deleted| ==> Over(runs - k, bytes - Size(queue[..k]), bounds)
  {
    var b := Needed(queue, runs, bytes, bounds);
    MarkedPrefix(queue, gone, b);
    NeededExact(queue, runs, bytes, bounds, b);
    forall k | 0 <= k < b ensures Over(runs - k, bytes - Size(queue[..k]), bounds) {
      NeededExact(queue, runs, bytes, bounds, k);
    }
  }

  /** The marks are all in front of the runs that survive. */
  ghost predicate InFront(gone: seq<bool>)
  {
    forall i, j :: 0 <= i < j < |gone| && gone[j] ==> gone[i]
  }

  /** From the `first` check on, the fullest file system never has less than it had at an earlier check. */
  ghost predicate NeverFalls(free: nat -> Free, first: nat, checks: nat)
  {
    forall i, j :: first <= i < j < checks ==> Least(free(i)) <= Least(free(j))
  }

  /**
   * In recovery, when free space never falls once the bounds are met, the deleted runs are the shortest
   * prefix of the queue that meets the bounds and the reserve: a survivor means that all of them hold, and
   * each deletion was demanded by a bound or by the check made for it.
   */
  lemma RecoveryPrefix(queue: seq<RunDir>, runs: int, bytes: int, bounds: Bounds, free: nat -> Free, minimum: int,
                       gone: seq<bool>)
    requires Decides(queue, runs, bytes, bounds, true, free, minimum, gone)
    requires NeverFalls(free, Needed(queue, runs, bytes, bounds), |queue|)
    ensures var deleted := Marked(queue, gone);
      && deleted <= queue
      && (|deleted| < |queue| ==>
            !Over(runs - |deleted|, bytes - Size(deleted), bounds) && !Short(free(|deleted|), minimum))
      && forall k :: 0 <= k < |deleted| ==>
           Over(runs - k, bytes - Size(queue[..k]), bounds) || Short(free(k), minimum)
  {
    var b := Needed(queue, runs, bytes, bounds);
    assert InFront(gone);
    var n := Front(gone);
    MarkedPrefix(queue, gone, n);
    if n < |queue| {
      assert !gone[n];
      NeededExact(queue, runs, bytes, bounds, n);
    }
    forall k | 0 <= k < n ensures Over(runs - k, bytes - Size(queue[..k]), bounds) || Short(free(k), minimum) {
      assert gone[k];
      if k < b { NeededExact(queue, runs, bytes, bounds, k); }
    }
  }

  /** What the walk decides. */
  ghost function Decision(queue: seq<RunDir>, runs: int, bytes: int, bounds: Bounds, free: nat -> Free,
                          minimum: int): (gone: seq<bool>)
    ensures Decides(queue, runs, bytes, bounds, true, free, minimum, gone)
  {
    seq(|queue|, k requires 0 <= k => k < Needed(queue, runs, bytes, bounds) || Short(free(k), minimum))
  }

  /** Every minimum deletes from the front of the queue exactly when free space never falls past the bounds. */
  lemma RecoveryPrefixExactly(queue: seq<RunDir>, runs: int, bytes: int, bounds: Bounds, free: nat -> Free)
    ensures (forall minimum :: InFront(Decision(queue, runs, bytes, bounds, free, minimum))) <==>
      NeverFalls(free, Needed(queue, runs, bytes, bounds), |queue|)
  {
    var b := Needed(queue, runs, bytes, bounds);
    if forall minimum :: InFront(Decision(queue, runs, bytes, bounds, free, minimum)) {
      forall i, j | b <= i < j < |queue| ensures Least(free(i)) <= Least(free(j)) {
        var minimum := Least(free(i)) - RECOVERY_RESERVE;
        var gone := Decision(queue, runs, bytes, bounds, free, minimum);
        assert InFront(gone) && !gone[i] && !gone[j];
      }
    }
  }

  lemma {:induction false} Front(gone: seq<bool>) returns (n: nat)
    requires InFront(gone)
    ensures n <= |gone| && forall i :: 0 <= i < |gone| ==> gone[i] == (i < n)
  {
    n := 0;
    while n < |gone| && gone[n]
      invariant n <= |gone| && forall i :: 0 <= i < n ==> gone[i]
    {
      n := n + 1;
    }
  }

  /**
   * A writer that takes one byte between two checks: with the default minimum of ten gibibytes the newer of
   * two runs goes and the older one stays.
   */
  lemma RecoveryCanSkip(older: RunDir, newer: RunDir)
    ensures exists free: nat -> Free, gone: seq<bool> ::
      && Decides([older, newer], 2, older.size + newer.size, Bounds(2, older.size + newer.size), true, free,
                 2 * RECOVERY_RESERVE, gone)
      && Least(free(1)) == Least(free(0)) - 1
      && Marked([older, newer], gone) == [newer]
  {
    var queue := [older, newer];
    var level := 3 * RECOVERY_RESERVE;
    var free := (k: nat) => if k == 0 then Free(level, level, level) else Free(level - 1, level, level);
    var gone := [false, true];
    assert Decides(queue, 2, older.size + newer.size, Bounds(2, older.size + newer.size), true, free,
                   2 * RECOVERY_RESERVE, gone);
    MarkedSnoc([older], [false], newer, true);
    assert [older] + [newer] == queue && [false] + [true] == gone;
    assert Least(free(1)) == Least(free(0)) - 1;
  }
}
