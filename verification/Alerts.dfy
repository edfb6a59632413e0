/**
 * Alert records of the per-node monitor: `maybe_alert`, `retire_alert` and the guards under which
 * `run_once` calls them.
 */
module Alerts {
  // ---- maybe_alert ----

  datatype Alert = Alert(active: bool, lastSent: int, recoveryPending: bool)

  /** One call: whether the condition holds now, and whether the post it may make would be delivered. */
  datatype Check = Check(active: bool, delivered: bool, ts: int)

  predicate Speaks(a: Alert, c: Check, throttle: int)
  {
    if c.active then !a.active || c.ts - a.lastSent >= throttle else a.active
  }

  function AfterCheck(a: Alert, c: Check, throttle: int): Alert
  {
    var sent := Speaks(a, c, throttle) && c.delivered;
    if c.active then Alert(true, if sent then c.ts else a.lastSent, false)
    else if !a.active then a
    else if sent then Alert(false, c.ts, false) else a.(recoveryPending := true)
  }

  /**
   * One call. A condition that holds is posted when the alert is not active yet or was last posted a
   * throttle ago; an active one whose condition has ended is posted as recovered until that is delivered.
   */
  method MaybeAlert(a: Alert, c: Check, throttle: int) returns (next: Alert, sent: bool)
    ensures next == AfterCheck(a, c, throttle)
    ensures sent <==> Speaks(a, c, throttle) && c.delivered
    ensures sent <==>
      c.delivered && (if c.active then a.active ==> c.ts >= a.lastSent + throttle else a.active)
    ensures next.active <==> c.active || (a.active && !sent)
    ensures next.lastSent == if sent then c.ts else a.lastSent
    ensures c.active || sent ==> !next.recoveryPending
    ensures !c.active && !sent ==> (next.recoveryPending <==> a.active || a.recoveryPending)
  {
    next, sent := a, false;
    if c.active {
      next := next.(recoveryPending := false);
      if !next.active || c.ts - next.lastSent >= throttle {
        if c.delivered {
          next := next.(lastSent := c.ts);
          sent := true;
        }
      }
      next := next.(active := true);
    } else if next.active {
      if c.delivered {
        next := Alert(false, c.ts, false);
        sent := true;
      } else {
        next := next.(recoveryPending := true);
      }
    }
  }

  // ---- retire_alert ----

  method Retire(a: Alert) returns (next: Alert)
    ensures !next.active && !next.recoveryPending && next.lastSent == a.lastSent
    ensures !a.active && !a.recoveryPending ==> next == a
  {
    next := a;
    if !(a.active || a.recoveryPending) { return; }
    next := a.(active := false, recoveryPending := false);
  }

  // ---- one sample ----

  /**
   * What one sample says of an alert's condition: nothing, that the controller answers for the node, that
   * the condition holds, that it has plainly ended, or only that it does not hold.
   */
  datatype Signal = Silent | Owned | Raised | Better | Calm

  datatype Turn = Turn(signal: Signal, delivered: bool, ts: int) {
    function Against(): Check { Check(signal.Raised?, delivered, ts) }
  }

  /** The turn calls `maybe_alert`: a calm sample does so only while a recovery is owed. */
  predicate Calls(a: Alert, t: Turn)
  {
    t.signal.Raised? || (a.active && (t.signal.Better? || (t.signal.Calm? && a.recoveryPending)))
  }

  predicate Posts(a: Alert, t: Turn, throttle: int) { Calls(a, t) && Speaks(a, t.Against(), throttle) }

  function AfterTurn(a: Alert, t: Turn, throttle: int): Alert
  {
    if t.signal.Owned? then a.(active := false, recoveryPending := false)
    else if Calls(a, t) then AfterCheck(a, t.Against(), throttle)
    else a
  }

  // ---- whole runs ----

  function Alerted(turns: seq<Turn>, throttle: int): Alert
  {
    if turns == [] then Alert(false, 0, false)
    else AfterTurn(Alerted(turns[..|turns| - 1], throttle), turns[|turns| - 1], throttle)
  }

  lemma AlertedOn(turns: seq<Turn>, turn: Turn, throttle: int)
    ensures Alerted(turns + [turn], throttle) == AfterTurn(Alerted(turns, throttle), turn, throttle)
  {
    assert (turns + [turn])[..|turns|] == turns;
  }

  predicate PostsAt(turns: seq<Turn>, i: nat, throttle: int)
    requires i < |turns|
  {
    Posts(Alerted(turns[..i], throttle), turns[i], throttle)
  }

  ghost predicate RaisedLast(turns: seq<Turn>, i: nat)
  {
    && i < |turns| && turns[i].signal.Raised?
    && forall j :: i < j < |turns| ==> !turns[j].signal.Raised?
  }

  /** The condition has plainly ended at some sample after i, up to n. */
  ghost predicate EndedBy(turns: seq<Turn>, i: nat, n: nat)
    requires n <= |turns|
  {
    exists k :: i < k < n && turns[k].signal.Better?
  }

  /** Sample j lifts the alert last raised at i: the controller takes over, or a recovery is delivered. */
  ghost predicate Lifts(turns: seq<Turn>, i: nat, j: nat)
    requires j < |turns|
  {
    || turns[j].signal.Owned?
    || (turns[j].delivered && (turns[j].signal.Better? || turns[j].signal.Calm?) && EndedBy(turns, i, j + 1))
  }

  ghost predicate StandsFrom(turns: seq<Turn>, i: nat)
  {
    RaisedLast(turns, i) && forall j :: i < j < |turns| ==> !Lifts(turns, i, j)
  }

  /**
   * Over every run, an alert stands exactly when its condition was last raised at a sample since which the
   * controller has not taken over and no recovery was delivered at or after a plain end.
   */
  lemma AlertExactly(turns: seq<Turn>, throttle: int)
    ensures Alerted(turns, throttle).active <==> exists i :: StandsFrom(turns, i)
  {
    if forall i :: 0 <= i < |turns| ==> !turns[i].signal.Raised? {
      NeverRaised(turns, throttle);
    } else {
      var i := LastRaised(turns);
      AlertedFrom(turns, i, throttle);
      forall j | StandsFrom(turns, j) ensures j == i { }
    }
  }

  lemma {:induction false} LastRaised(turns: seq<Turn>) returns (i: nat)
    requires exists j :: 0 <= j < |turns| && turns[j].signal.Raised?
    ensures RaisedLast(turns, i)
  {
    i := |turns| - 1;
    while !turns[i].signal.Raised?
      invariant i < |turns| && forall j :: i < j < |turns| ==> !turns[j].signal.Raised?
      decreases i
    {
      i := i - 1;
    }
  }

  lemma {:induction false} NeverRaised(turns: seq<Turn>, throttle: int)
    requires forall i :: 0 <= i < |turns| ==> !turns[i].signal.Raised?
    ensures !Alerted(turns, throttle).active && !Alerted(turns, throttle).recoveryPending
  {
    if turns != [] { NeverRaised(turns[..|turns| - 1], throttle); }
  }

  /** A recovery is owed exactly when the condition has plainly ended under a standing alert. */
  lemma {:induction false} AlertedFrom(turns: seq<Turn>, i: nat, throttle: int)
    requires RaisedLast(turns, i)
    ensures var a := Alerted(turns, throttle);
      && (a.active <==> StandsFrom(turns, i))
      && (a.recoveryPending <==> a.active && EndedBy(turns, i, |turns|))
  {
    var n := |turns| - 1;
    if i < n {
      var init := turns[..n];
      AlertedFrom(init, i, throttle);
      forall j | i < j < n ensures Lifts(init, i, j) <==> Lifts(turns, i, j) { EndedInit(turns, i, j + 1); }
      EndedInit(turns, i, n);
      EndedNext(turns, i);
      assert StandsFrom(turns, i) <==> StandsFrom(init, i) && !Lifts(turns, i, n);
    }
  }

  lemma EndedInit(turns: seq<Turn>, i: nat, n: nat)
    requires n < |turns|
    ensures EndedBy(turns[..|turns| - 1], i, n) <==> EndedBy(turns, i, n)
  {
    var init := turns[..|turns| - 1];
    if k :| i < k < n && turns[k].signal.Better? { assert init[k].signal.Better?; }
    if k :| i < k < n && init[k].signal.Better? { assert turns[k].signal.Better?; }
  }

  lemma EndedNext(turns: seq<Turn>, i: nat)
    requires i < |turns| - 1
    ensures EndedBy(turns, i, |turns|) <==> EndedBy(turns, i, |turns| - 1) || turns[|turns| - 1].signal.Better?
  {
  }

  predicate SentAt(turns: seq<Turn>, i: nat, throttle: int)
    requires i < |turns|
  {
    PostsAt(turns, i, throttle) && turns[i].delivered
  }

  /** Turn i is the latest that delivered a post. */
  ghost predicate SentLast(turns: seq<Turn>, i: nat, throttle: int)
  {
    i < |turns| && SentAt(turns, i, throttle) && forall j :: i < j < |turns| ==> !SentAt(turns, j, throttle)
  }

  /** The stored time is that of the latest delivered post. */
  lemma {:induction false} LastSentSeen(turns: seq<Turn>, i: nat, throttle: int)
    requires SentLast(turns, i, throttle)
    ensures Alerted(turns, throttle).lastSent == turns[i].ts
  {
    var n := |turns| - 1;
    if i < n {
      var init := turns[..n];
      forall j | i <= j < n ensures SentAt(init, j, throttle) == SentAt(turns, j, throttle) {
        assert init[..j] == turns[..j];
      }
      LastSentSeen(init, i, throttle);
      assert !SentAt(turns, n, throttle);
    }
  }

  /**
   * What each sample posts. A raised condition always speaks when no alert stands, and otherwise a throttle
   * after the latest delivered post; a standing alert posts its recovery at each sample that ends the
   * condition and at each calm one after an end; nothing else posts.
   */
  lemma PostsExactly(turns: seq<Turn>, i: nat, throttle: int)
    requires i < |turns|
    ensures var stands, signal := exists k: nat :: StandsFrom(turns[..i], k), turns[i].signal;
      PostsAt(turns, i, throttle) <==>
        || (signal.Raised? && !stands)
        || (signal.Raised? && turns[i].ts - Alerted(turns[..i], throttle).lastSent >= throttle)
        || (signal.Better? && stands)
        || (signal.Calm? && exists k: nat :: StandsFrom(turns[..i], k) && EndedBy(turns[..i], k, i))
  {
    var before := turns[..i];
    AlertExactly(before, throttle);
    forall k: nat | RaisedLast(before, k)
      ensures Alerted(before, throttle).recoveryPending <==> StandsFrom(before, k) && EndedBy(before, k, i)
    {
      AlertedFrom(before, k, throttle);
    }
    if Alerted(before, throttle).recoveryPending && !Alerted(before, throttle).active {
      PendingStands(before, throttle);
    }
  }

  lemma PendingStands(turns: seq<Turn>, throttle: int)
    ensures Alerted(turns, throttle).recoveryPending ==> Alerted(turns, throttle).active
  {
    if forall i :: 0 <= i < |turns| ==> !turns[i].signal.Raised? {
      NeverRaised(turns, throttle);
    } else {
      var i := LastRaised(turns);
      AlertedFrom(turns, i, throttle);
    }
  }

  /**
   * A recovery that could not be delivered is posted again at every later sample that says anything, until
   * one is delivered, the condition returns or the controller takes over.
   */
  lemma {:induction false} RecoveryOwed(turns: seq<Turn>, k: nat, throttle: int)
    requires k < |turns| && Alerted(turns[..k], throttle).active && turns[k].signal.Better?
    requires forall j :: k <= j < |turns| ==>
      !turns[j].delivered && !turns[j].signal.Owned? && !turns[j].signal.Raised?
    ensures Alerted(turns, throttle).active && Alerted(turns, throttle).recoveryPending
    ensures !turns[|turns| - 1].signal.Silent? ==> PostsAt(turns, |turns| - 1, throttle)
  {
    if k < |turns| - 1 {
      var init := turns[..|turns| - 1];
      assert init[..k] == turns[..k];
      RecoveryOwed(init, k, throttle);
    }
  }

  // ---- samples whose save is lost ----

  /** A sample posts before it saves; a crash between the two leaves the record as it was. */
  datatype Attempt = Attempt(turn: Turn, saved: bool)

  function Kept(attempts: seq<Attempt>): seq<Turn>
  {
    if attempts == [] then []
    else
      var last := attempts[|attempts| - 1];
      Kept(attempts[..|attempts| - 1]) + if last.saved then [last.turn] else []
  }

  /** The record that attempt i finds. */
  function Found(attempts: seq<Attempt>, i: nat, throttle: int): Alert
    requires i <= |attempts|
  {
    Alerted(Kept(attempts[..i]), throttle)
  }

  predicate DeliversAt(attempts: seq<Attempt>, i: nat, throttle: int)
    requires i < |attempts|
  {
    Posts(Found(attempts, i, throttle), attempts[i].turn, throttle) && attempts[i].turn.delivered
  }

  lemma FoundNext(attempts: seq<Attempt>, i: nat, throttle: int)
    requires i < |attempts|
    ensures Found(attempts, i + 1, throttle) ==
      if attempts[i].saved then AfterTurn(Found(attempts, i, throttle), attempts[i].turn, throttle)
      else Found(attempts, i, throttle)
  {
    assert attempts[..i + 1][..i] == attempts[..i];
    var kept := Kept(attempts[..i]);
    if attempts[i].saved { AlertedOn(kept, attempts[i].turn, throttle); } else { assert kept + [] == kept; }
  }

  /** Between i and j no attempt that was saved delivered anything or found the controller in charge. */
  ghost predicate NothingSaved(attempts: seq<Attempt>, i: nat, j: nat, throttle: int)
    requires j <= |attempts|
  {
    forall k :: i < k < j && attempts[k].saved ==>
      !DeliversAt(attempts, k, throttle) && !attempts[k].turn.signal.Owned?
  }

  /**
   * Two delivered posts of an alert are a throttle apart when the earlier one was saved and nothing saved
   * between them delivered a post or retired the alert.
   */
  lemma {:induction false} PostsThrottled(attempts: seq<Attempt>, i: nat, j: nat, throttle: int)
    requires i < j < |attempts| && attempts[i].turn.signal.Raised? && attempts[j].turn.signal.Raised?
    requires DeliversAt(attempts, i, throttle) && DeliversAt(attempts, j, throttle)
    requires attempts[i].saved && NothingSaved(attempts, i, j, throttle)
    ensures attempts[j].turn.ts - attempts[i].turn.ts >= throttle
  {
    LastSentKept(attempts, i, j, throttle);
  }

  lemma {:induction false} LastSentKept(attempts: seq<Attempt>, i: nat, j: nat, throttle: int)
    requires i < j <= |attempts| && attempts[i].turn.signal.Raised? && DeliversAt(attempts, i, throttle)
    requires attempts[i].saved && NothingSaved(attempts, i, j, throttle)
    ensures Found(attempts, j, throttle).active
    ensures Found(attempts, j, throttle).lastSent == attempts[i].turn.ts
  {
    var k := j - 1;
    FoundNext(attempts, k, throttle);
    var a, t := Found(attempts, k, throttle), attempts[k].turn;
    if i == k {
      RaisedSends(a, t, throttle);
    } else {
      LastSentKept(attempts, i, k, throttle);
      if attempts[k].saved {
        assert !DeliversAt(attempts, k, throttle);
        QuietKeeps(a, t, throttle);
      }
    }
  }

  lemma RaisedSends(a: Alert, t: Turn, throttle: int)
    requires t.signal.Raised? && Posts(a, t, throttle) && t.delivered
    ensures AfterTurn(a, t, throttle).active && AfterTurn(a, t, throttle).lastSent == t.ts
  {
  }

  lemma QuietKeeps(a: Alert, t: Turn, throttle: int)
    requires a.active && !t.signal.Owned? && !(Posts(a, t, throttle) && t.delivered)
    ensures AfterTurn(a, t, throttle).active && AfterTurn(a, t, throttle).lastSent == a.lastSent
  {
  }

  /** A post delivered by an attempt whose save was lost is repeated by the next one, however soon. */
  lemma LostPostRepeats(attempts: seq<Attempt>, again: Attempt, throttle: int)
    requires attempts != [] && !attempts[|attempts| - 1].saved
    requires DeliversAt(attempts, |attempts| - 1, throttle)
    requires again.turn == attempts[|attempts| - 1].turn
    ensures DeliversAt(attempts + [again], |attempts|, throttle)
  {
    var n := |attempts|;
    FoundNext(attempts, n - 1, throttle);
    assert (attempts + [again])[..n] == attempts && attempts[..n] == attempts;
  }
}
