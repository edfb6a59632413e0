/**
 * Sections of a changelog below their headings: which lines promotion keeps and which bodies it takes
 * (`promote_release_candidates`). Nothing here depends on what a line is, only on how it is marked.
 */
module Sections {
  import opened Prelude

  /** What a line is to the sections: inside one, the head of a kept one, or the head of a candidate's. */
  datatype Mark = Inside | Head | CandidateHead

  /** The first heading at or after line i, or the end. */
  function HeadFrom<T>(t: seq<T>, i: nat, mark: T -> Mark): (k: nat)
    requires i <= |t|
    ensures i <= k <= |t| && forall j :: i <= j < k ==> mark(t[j]) == Inside
    ensures k < |t| ==> mark(t[k]) != Inside
    decreases |t| - i
  {
    if i == |t| || mark(t[i]) != Inside then i else HeadFrom(t, i + 1, mark)
  }

  /** The number of lines of the first section: its heading and all that precedes the next one. */
  function SectionLength<T>(t: seq<T>, mark: T -> Mark): (n: nat)
    requires t != []
    ensures 1 <= n <= |t|
  {
    HeadFrom(t, 1, mark)
  }

  /** A heading, lines inside its section, and the next heading: the first section read back. */
  lemma FirstSection<T>(head: T, inside: seq<T>, below: seq<T>, mark: T -> Mark)
    requires forall i :: 0 <= i < |inside| ==> mark(inside[i]) == Inside
    requires below != [] && mark(below[0]) != Inside
    ensures var t := [head] + inside + below;
      var n := SectionLength(t, mark);
      n == 1 + |inside| && t[1..n] == inside && t[n..] == below
  {
    var t := [head] + inside + below;
    var n := SectionLength(t, mark);
    assert t[1 + |inside|] == below[0];
  }

  // ---- what promotion keeps and takes, line by line ----

  /** The last line belongs to a candidate's section. */
  function Dropping<T>(t: seq<T>, mark: T -> Mark): bool
  {
    if t == [] then false
    else
      match mark(t[|t| - 1])
      case Inside => Dropping(t[..|t| - 1], mark)
      case Head => false
      case CandidateHead => true
  }

  /** Every line outside the candidates' sections, in order. */
  function Kept<T>(t: seq<T>, mark: T -> Mark): seq<T>
  {
    if t == [] then []
    else Kept(t[..|t| - 1], mark) + if Dropping(t, mark) then [] else [t[|t| - 1]]
  }

  /** The lines below the candidates' headings, in file order: newest first. */
  function CandidateBodies<T>(t: seq<T>, mark: T -> Mark): (bodies: seq<seq<T>>)
    ensures Dropping(t, mark) ==> bodies != []
  {
    if t == [] then []
    else
      var init, last := t[..|t| - 1], t[|t| - 1];
      var before := CandidateBodies(init, mark);
      match mark(last)
      case CandidateHead => before + [[]]
      case Head => before
      case Inside =>
        if Dropping(init, mark) then before[|before| - 1 := before[|before| - 1] + [last]] else before
  }

  /** Parse every body in turn; the first failure is the answer. */
  function ParseAll<T, C, E>(bodies: seq<T>, parse: T -> Result<C, E>): Result<seq<C>, E>
  {
    if bodies == [] then Ok([])
    else
      var before := ParseAll(bodies[..|bodies| - 1], parse);
      if before.Err? then before
      else
        var last := parse(bodies[|bodies| - 1]);
        if last.Err? then Err(last.error) else Ok(before.value + [last.value])
  }

  /** A failure stands whatever follows it. */
  lemma {:induction false} ParseAllFails<T, C, E>(done: seq<T>, bodies: seq<T>, parse: T -> Result<C, E>)
    requires done <= bodies && ParseAll(done, parse).Err?
    ensures ParseAll(bodies, parse) == ParseAll(done, parse)
  {
    if |done| == |bodies| {
      assert done == bodies;
    } else {
      ParseAllFails(done, bodies[..|bodies| - 1], parse);
    }
  }

  // ---- one section at a time ----

  ghost predicate SectionAt<T>(t: seq<T>, mark: T -> Mark, start: nat, end: nat)
  {
    start < end <= |t| && forall i :: start < i < end ==> mark(t[i]) == Inside
  }

  /** A candidate's section is dropped, and its body taken. */
  lemma {:induction false} CandidateSection<T>(t: seq<T>, mark: T -> Mark, start: nat, end: nat)
    requires SectionAt(t, mark, start, end) && mark(t[start]) == CandidateHead
    ensures Kept(t[..end], mark) == Kept(t[..start], mark) && Dropping(t[..end], mark)
    ensures CandidateBodies(t[..end], mark) == CandidateBodies(t[..start], mark) + [t[start + 1..end]]
    decreases end
  {
    assert t[..end][..end - 1] == t[..end - 1] && t[..end][end - 1] == t[end - 1];
    if end == start + 1 {
      assert t[start + 1..end] == [];
    } else {
      CandidateSection(t, mark, start, end - 1);
      assert t[start + 1..end] == t[start + 1..end - 1] + [t[end - 1]];
    }
  }

  /** Any other section is kept whole. */
  lemma {:induction false} KeptSection<T>(t: seq<T>, mark: T -> Mark, start: nat, end: nat)
    requires SectionAt(t, mark, start, end) && (mark(t[start]) == Head || (start == 0 && mark(t[0]) == Inside))
    ensures Kept(t[..end], mark) == Kept(t[..start], mark) + t[start..end] && !Dropping(t[..end], mark)
    ensures CandidateBodies(t[..end], mark) == CandidateBodies(t[..start], mark)
    decreases end
  {
    assert t[..end][..end - 1] == t[..end - 1] && t[..end][end - 1] == t[end - 1];
    if end == start + 1 {
      assert t[start..end] == [t[start]];
    } else {
      KeptSection(t, mark, start, end - 1);
      assert t[start..end] == t[start..end - 1] + [t[end - 1]];
    }
  }

  /** Beyond a heading, the bodies found so far stay as they are. */
  lemma {:induction false} BodiesGrow<T>(t: seq<T>, mark: T -> Mark, i: nat, j: nat)
    requires i <= j <= |t| && (i < |t| ==> mark(t[i]) != Inside)
    ensures CandidateBodies(t[..i], mark) <= CandidateBodies(t[..j], mark)
    ensures i < j && Dropping(t[..j], mark) ==> |CandidateBodies(t[..i], mark)| < |CandidateBodies(t[..j], mark)|
    decreases j
  {
    if i < j {
      assert t[..j][..j - 1] == t[..j - 1] && t[..j][j - 1] == t[j - 1];
      BodiesGrow(t, mark, i, j - 1);
    }
  }

  /** The cursor loop over the headings. */
  method PromoteCandidates<T, C, E>(t: seq<T>, mark: T -> Mark, parse: seq<T> -> Result<C, E>)
    returns (r: Result<(seq<C>, seq<T>), E>)
    ensures ParseAll(CandidateBodies(t, mark), parse).Err? <==> r.Err?
    ensures r.Err? ==> r.error == ParseAll(CandidateBodies(t, mark), parse).error
    ensures r.Ok? ==> r.value == (ParseAll(CandidateBodies(t, mark), parse).value, Kept(t, mark))
  {
    var candidates: seq<C>, kept: seq<T> := [], [];
    var cursor: nat, start: nat := 0, 0;
    ghost var done: seq<seq<T>> := [];
    while start < |t|
      invariant cursor <= start <= |t| && (0 < start < |t| ==> mark(t[start]) != Inside)
      invariant Kept(t[..start], mark) == kept + t[cursor..start]
      invariant CandidateBodies(t[..start], mark) == done && ParseAll(done, parse) == Ok(candidates)
      decreases |t| - start
    {
      var end := HeadFrom(t, start + 1, mark);
      if mark(t[start]) == CandidateHead {
        var body := t[start + 1..end];
        CandidateSection(t, mark, start, end);
        var parsed := parse(body);
        if parsed.Err? {
          BodiesGrow(t, mark, end, |t|);
          assert t[..|t|] == t;
          ParseAllFails(done + [body], CandidateBodies(t, mark), parse);
          return Err(parsed.error);
        }
        candidates, done := candidates + [parsed.value], done + [body];
        kept := kept + t[cursor..start];
        cursor := end;
        assert kept + t[end..end] == kept;
      } else {
        KeptSection(t, mark, start, end);
        Join(kept, t, cursor, start, end);
      }
      start := end;
    }
    assert t[..|t|] == t;
    r := Ok((candidates, kept + t[cursor..start]));
  }

  lemma Join<T>(kept: seq<T>, t: seq<T>, cursor: nat, start: nat, end: nat)
    requires cursor <= start <= end <= |t|
    ensures kept + t[cursor..start] + t[start..end] == kept + t[cursor..end]
  {
    assert t[cursor..start] + t[start..end] == t[cursor..end];
  }

  // ---- promotion as a whole ----

  ghost predicate NoCandidates<T>(t: seq<T>, mark: T -> Mark)
  {
    forall i :: 0 <= i < |t| ==> mark(t[i]) != CandidateHead
  }

  lemma NoCandidatesConcat<T>(a: seq<T>, b: seq<T>, mark: T -> Mark)
    ensures NoCandidates(a + b, mark) <==> NoCandidates(a, mark) && NoCandidates(b, mark)
  {
    if NoCandidates(a + b, mark) {
      forall i | 0 <= i < |a| ensures mark(a[i]) != CandidateHead { assert a[i] == (a + b)[i]; }
      forall i | 0 <= i < |b| ensures mark(b[i]) != CandidateHead { assert b[i] == (a + b)[|a| + i]; }
    }
  }

  /** Promotion leaves no candidate behind. */
  lemma {:induction false} KeptHasNone<T>(t: seq<T>, mark: T -> Mark)
    ensures NoCandidates(Kept(t, mark), mark) && |Kept(t, mark)| <= |t|
  {
    if t != [] { KeptHasNone(t[..|t| - 1], mark); }
  }

  /** Without candidates promotion changes nothing. */
  lemma {:induction false} KeptAll<T>(t: seq<T>, mark: T -> Mark)
    requires NoCandidates(t, mark)
    ensures Kept(t, mark) == t && CandidateBodies(t, mark) == [] && !Dropping(t, mark)
  {
    if t != [] {
      KeptAll(t[..|t| - 1], mark);
      assert t == t[..|t| - 1] + [t[|t| - 1]];
    }
  }

  /** Promotion changes nothing exactly when there is no candidate. */
  lemma {:induction false} KeptExactly<T>(t: seq<T>, mark: T -> Mark)
    ensures NoCandidates(Kept(t, mark), mark)
    ensures Kept(t, mark) == t <==> NoCandidates(t, mark)
    ensures CandidateBodies(t, mark) == [] <==> NoCandidates(t, mark)
  {
    KeptHasNone(t, mark);
    if NoCandidates(t, mark) {
      KeptAll(t, mark);
    } else {
      SomeBody(t, mark);
    }
  }

  lemma {:induction false} SomeBody<T>(t: seq<T>, mark: T -> Mark)
    requires !NoCandidates(t, mark)
    ensures CandidateBodies(t, mark) != []
  {
    var init, last := t[..|t| - 1], t[|t| - 1];
    if mark(last) != CandidateHead {
      var i :| 0 <= i < |t| && mark(t[i]) == CandidateHead;
      assert init[i] == t[i];
      SomeBody(init, mark);
    }
  }

  /** A first line that heads no candidate stays first. */
  lemma {:induction false} KeptFront<T>(t: seq<T>, mark: T -> Mark)
    requires t != [] && mark(t[0]) != CandidateHead
    ensures Kept(t, mark) != [] && Kept(t, mark)[0] == t[0]
  {
    var init := t[..|t| - 1];
    if init == [] {
      assert !Dropping(init, mark) && Kept(init, mark) == [];
      assert Kept(t, mark) == [] + [t[0]];
    } else {
      KeptFront(init, mark);
    }
  }
}
