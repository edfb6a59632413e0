/** Failure types and time-ordered event lists shared by the components. */
module Prelude {

  datatype Option<+T> = None | Some(value: T)

  datatype Result<+T, +E> = Ok(value: T) | Err(error: E)

  function Min(a: int, b: int): int { if a < b then a else b }

  function Max(a: int, b: int): int { if a < b then b else a }

  ghost predicate Nondecreasing(s: seq<int>)
  {
    forall i, j :: 0 <= i < j < |s| ==> s[i] <= s[j]
  }

  /** The entries at or after `cutoff`, in order: the trailing window of an event list. */
  function Since(s: seq<int>, cutoff: int): seq<int>
  {
    if s == [] then []
    else if s[|s| - 1] >= cutoff then Since(s[..|s| - 1], cutoff) + [s[|s| - 1]]
    else Since(s[..|s| - 1], cutoff)
  }

  lemma {:induction false} SinceMembers(s: seq<int>, cutoff: int, t: int)
    ensures t in Since(s, cutoff) <==> t in s && t >= cutoff
  {
    if s != [] {
      assert s == s[..|s| - 1] + [s[|s| - 1]];
      SinceMembers(s[..|s| - 1], cutoff, t);
    }
  }

  lemma {:induction false} SinceLength(s: seq<int>, cutoff: int)
    ensures |Since(s, cutoff)| <= |s|
  {
    if s != [] { SinceLength(s[..|s| - 1], cutoff); }
  }

  lemma SinceAppend(s: seq<int>, t: int, cutoff: int)
    ensures Since(s + [t], cutoff) == if t >= cutoff then Since(s, cutoff) + [t] else Since(s, cutoff)
  {
    assert (s + [t])[..|s|] == s;
  }

  /** Filtering in two steps with a growing cutoff is filtering once with the later cutoff. */
  lemma {:induction false} SinceTwice(s: seq<int>, early: int, late: int)
    requires early <= late
    ensures Since(Since(s, early), late) == Since(s, late)
  {
    if s != [] {
      var init, t := s[..|s| - 1], s[|s| - 1];
      SinceTwice(init, early, late);
      if t >= early { SinceAppend(Since(init, early), t, late); }
    }
  }

  lemma {:induction false} SinceAll(s: seq<int>, cutoff: int)
    requires forall i :: 0 <= i < |s| ==> s[i] >= cutoff
    ensures Since(s, cutoff) == s
  {
    if s != [] { SinceAll(s[..|s| - 1], cutoff); }
  }

  lemma {:induction false} SinceNone(s: seq<int>, cutoff: int)
    requires forall i :: 0 <= i < |s| ==> s[i] < cutoff
    ensures Since(s, cutoff) == []
  {
    if s != [] { SinceNone(s[..|s| - 1], cutoff); }
  }

  /** On an ordered list, dropping the expired front is the same as filtering. */
  lemma {:induction false} SinceSuffix(s: seq<int>, cutoff: int, k: nat)
    requires Nondecreasing(s) && k <= |s|
    requires forall i :: 0 <= i < k ==> s[i] < cutoff
    requires k < |s| ==> s[k] >= cutoff
    ensures Since(s, cutoff) == s[k..]
  {
    if |s| == k {
      SinceNone(s, cutoff);
    } else {
      var init := s[..|s| - 1];
      if k < |init| {
        SinceSuffix(init, cutoff, k);
        assert init[k..] + [s[|s| - 1]] == s[k..];
      } else {
        SinceNone(init, cutoff);
      }
    }
  }

  lemma {:induction false} SinceOrdered(s: seq<int>, cutoff: int)
    requires Nondecreasing(s)
    ensures Nondecreasing(Since(s, cutoff))
  {
    if s != [] {
      var init, t := s[..|s| - 1], s[|s| - 1];
      SinceOrdered(init, cutoff);
      forall i | 0 <= i < |Since(init, cutoff)| ensures Since(init, cutoff)[i] <= t {
        SinceMembers(init, cutoff, Since(init, cutoff)[i]);
      }
    }
  }
}
