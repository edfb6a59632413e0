/**
 * The outline of a text of category sections: where its headings are, what they name, and what stands under
 * each. Lines are of any kind; a `Reading` says what one line is.
 */
module Outline {
  import opened Prelude

  /** How a line is read: the category it heads, whether it looks like a heading, and whether it is blank. */
  datatype Reading<!T> = Reading(head: T -> Option<string>, like: T -> bool, blank: T -> bool,
                                 strip: seq<T> -> seq<T>, names: seq<string>)

  /** What is known of a reading: a heading looks like one, and stripping leaves nothing of blank lines alone. */
  ghost predicate Sensible<T(!new)>(rd: Reading<T>)
  {
    && (forall l :: rd.head(l).Some? ==> rd.like(l))
    && (forall t :: rd.strip(t) == [] <==> forall i :: 0 <= i < |t| ==> rd.blank(t[i]))
  }

  ghost predicate Head<T(!new)>(rd: Reading<T>, body: seq<T>, i: nat)
    requires i < |body|
  {
    rd.head(body[i]).Some?
  }

  /** The section headed by line i runs up to line j, where the next heading or the end is. */
  ghost predicate Section<T(!new)>(rd: Reading<T>, body: seq<T>, i: nat, j: nat)
  {
    && i < j <= |body| && Head(rd, body, i) && (j < |body| ==> Head(rd, body, j))
    && forall k :: i < k < j ==> !Head(rd, body, k)
  }

  /** Among the first n lines, what looks like a heading names a listed category. */
  ghost predicate HeadsListed<T(!new)>(rd: Reading<T>, body: seq<T>, n: nat)
    requires n <= |body|
  {
    forall i :: 0 <= i < n && rd.like(body[i]) ==> Head(rd, body, i) && rd.head(body[i]).value in rd.names
  }

  /** Among the first n lines, no category is headed twice. */
  ghost predicate HeadsDistinct<T(!new)>(rd: Reading<T>, body: seq<T>, n: nat)
    requires n <= |body|
  {
    forall i, j :: 0 <= i < j < n && Head(rd, body, i) && Head(rd, body, j) ==>
      rd.head(body[i]).value != rd.head(body[j]).value
  }

  /** Among the first n lines, only blank ones stand before the first heading. */
  ghost predicate NothingBefore<T(!new)>(rd: Reading<T>, body: seq<T>, n: nat)
    requires n <= |body|
  {
    forall i :: 0 <= i < n && !rd.blank(body[i]) ==> exists j :: 0 <= j <= i && Head(rd, body, j)
  }

  ghost predicate HeadsProper<T(!new)>(rd: Reading<T>, body: seq<T>, n: nat)
    requires n <= |body|
  {
    HeadsListed(rd, body, n) && HeadsDistinct(rd, body, n) && NothingBefore(rd, body, n)
  }

  /** The section has text in it, kept under its heading. */
  ghost predicate SectionKept<T(!new)>(rd: Reading<T>, body: seq<T>, i: nat, j: nat, m: map<string, seq<T>>)
    requires Section(rd, body, i, j)
  {
    var name := rd.head(body[i]).value;
    && (exists k :: i < k < j && !rd.blank(body[k]))
    && name in m && m[name] == rd.strip(body[i + 1..j])
  }

  /** The section ends before line n and is headed by c. */
  ghost predicate SectionOf<T(!new)>(rd: Reading<T>, body: seq<T>, n: nat, c: string, i: nat, j: nat)
  {
    Section(rd, body, i, j) && j < n && rd.head(body[i]) == Some(c)
  }

  /** Every section that ends before line n is kept, and nothing else is. */
  ghost predicate SectionsKept<T(!new)>(rd: Reading<T>, body: seq<T>, n: nat, m: map<string, seq<T>>)
  {
    KeptBefore(rd, body, n, m) && NamedBefore(rd, body, n, m)
  }

  ghost predicate KeptBefore<T(!new)>(rd: Reading<T>, body: seq<T>, n: nat, m: map<string, seq<T>>)
  {
    forall i: nat, j: nat :: Section(rd, body, i, j) && j < n ==> SectionKept(rd, body, i, j, m)
  }

  ghost predicate NamedBefore<T(!new)>(rd: Reading<T>, body: seq<T>, n: nat, m: map<string, seq<T>>)
  {
    forall c :: c in m ==> exists i: nat, j: nat :: SectionOf(rd, body, n, c, i, j)
  }

  /**
   * The body has the form of category sections and these are their contents: every heading is of a listed
   * category and none comes twice, only blank lines stand before the first, every section has text, and the
   * contents are the stripped lines of each section under its name.
   */
  ghost predicate Means<T(!new)>(rd: Reading<T>, body: seq<T>, m: map<string, seq<T>>)
  {
    HeadsProper(rd, body, |body|) && SectionsKept(rd, body, |body| + 1, m)
  }

  ghost predicate Spoiled<T(!new)>(rd: Reading<T>, body: seq<T>) { forall m :: !Means(rd, body, m) }

  /** The open category after n lines: none before a heading, else the latest heading and the lines since. */
  ghost predicate OpenAt<T(!new)>(rd: Reading<T>, body: seq<T>, n: nat, category: Option<string>, lines: seq<T>, h: int)
    requires n <= |body|
  {
    && -1 <= h < n && (forall k :: h < k < n ==> !Head(rd, body, k))
    && (category.None? <==> h == -1)
    && (category.Some? ==> Head(rd, body, h) && rd.head(body[h]) == category && lines == body[h + 1..n])
  }

  lemma SectionsKeptOn<T(!new)>(rd: Reading<T>, body: seq<T>, n: nat, m: map<string, seq<T>>)
    requires SectionsKept(rd, body, n, m) && forall i: nat :: !Section(rd, body, i, n)
    ensures SectionsKept(rd, body, n + 1, m)
  {
    forall i: nat, j: nat | Section(rd, body, i, j) && j < n + 1 ensures SectionKept(rd, body, i, j, m) {
      assert j != n;
    }
    var next := n + 1;
    forall c | c in m ensures exists i: nat, j: nat :: SectionOf(rd, body, next, c, i, j) {
      var i: nat, j: nat :| SectionOf(rd, body, n, c, i, j);
      assert SectionOf(rd, body, next, c, i, j);
    }
  }

  /** The section open at n closes there with text in it. */
  lemma KeepSection<T(!new)>(rd: Reading<T>, body: seq<T>, n: nat, name: string, m: map<string, seq<T>>, h: nat)
    requires Sensible(rd) && n <= |body| && Section(rd, body, h, n) && rd.head(body[h]) == Some(name)
    requires HeadsDistinct(rd, body, n) && SectionsKept(rd, body, n, m) && rd.strip(body[h + 1..n]) != []
    ensures SectionsKept(rd, body, n + 1, m[name := rd.strip(body[h + 1..n])])
  {
    var after := m[name := rd.strip(body[h + 1..n])];
    KeepsKept(rd, body, n, m, after, h);
    KeepsNamed(rd, body, n, m, after, h);
  }

  lemma KeepsKept<T(!new)>(rd: Reading<T>, body: seq<T>, n: nat, m: map<string, seq<T>>, after: map<string, seq<T>>,
                           h: nat)
    requires Sensible(rd) && n <= |body| && Section(rd, body, h, n) && rd.strip(body[h + 1..n]) != []
    requires after == m[rd.head(body[h]).value := rd.strip(body[h + 1..n])]
    requires HeadsDistinct(rd, body, n) && KeptBefore(rd, body, n, m)
    ensures KeptBefore(rd, body, n + 1, after)
  {
    forall i: nat, j: nat | Section(rd, body, i, j) && j < n + 1 ensures SectionKept(rd, body, i, j, after) {
      KeepsOne(rd, body, n, m, after, h, i, j);
    }
  }

  lemma KeepsOne<T(!new)>(rd: Reading<T>, body: seq<T>, n: nat, m: map<string, seq<T>>, after: map<string, seq<T>>,
                          h: nat, i: nat, j: nat)
    requires Sensible(rd) && n <= |body| && Section(rd, body, h, n) && rd.strip(body[h + 1..n]) != []
    requires after == m[rd.head(body[h]).value := rd.strip(body[h + 1..n])]
    requires HeadsDistinct(rd, body, n) && KeptBefore(rd, body, n, m) && Section(rd, body, i, j) && j <= n
    ensures SectionKept(rd, body, i, j, after)
  {
    if j < n {
      assert SectionKept(rd, body, i, j, m);
      EarlierKept(rd, body, i, j, h, n, m, after);
    } else {
      SameHead(rd, body, i, h, n);
      LatestKept(rd, body, h, n, after);
    }
  }

  lemma SameHead<T(!new)>(rd: Reading<T>, body: seq<T>, i: nat, h: nat, n: nat)
    requires Section(rd, body, i, n) && Section(rd, body, h, n)
    ensures i == h
  {
  }

  lemma LatestKept<T(!new)>(rd: Reading<T>, body: seq<T>, h: nat, n: nat, after: map<string, seq<T>>)
    requires Sensible(rd) && Section(rd, body, h, n) && rd.strip(body[h + 1..n]) != []
    requires rd.head(body[h]).value in after && after[rd.head(body[h]).value] == rd.strip(body[h + 1..n])
    ensures SectionKept(rd, body, h, n, after)
  {
    HasText(rd, body, h, n);
  }

  lemma KeepsNamed<T(!new)>(rd: Reading<T>, body: seq<T>, n: nat, m: map<string, seq<T>>, after: map<string, seq<T>>,
                            h: nat)
    requires n <= |body| && Section(rd, body, h, n) && NamedBefore(rd, body, n, m)
    requires forall c :: c in after ==> c in m || rd.head(body[h]) == Some(c)
    ensures NamedBefore(rd, body, n + 1, after)
  {
    var next := n + 1;
    forall c | c in after ensures exists i: nat, j: nat :: SectionOf(rd, body, next, c, i, j) {
      if rd.head(body[h]) == Some(c) {
        assert SectionOf(rd, body, next, c, h, n);
      } else {
        var i: nat, j: nat :| SectionOf(rd, body, n, c, i, j);
        assert SectionOf(rd, body, next, c, i, j);
      }
    }
  }

  lemma EarlierKept<T(!new)>(rd: Reading<T>, body: seq<T>, i: nat, j: nat, h: nat, n: nat, m: map<string, seq<T>>,
                             after: map<string, seq<T>>)
    requires n <= |body| && Section(rd, body, i, j) && j < n && Section(rd, body, h, n) && HeadsDistinct(rd, body, n)
    requires SectionKept(rd, body, i, j, m)
    requires forall c :: c in m && c != rd.head(body[h]).value ==> c in after && after[c] == m[c]
    ensures SectionKept(rd, body, i, j, after)
  {
    assert i < h;
    assert rd.head(body[i]).value != rd.head(body[h]).value;
  }

  lemma HasText<T(!new)>(rd: Reading<T>, body: seq<T>, h: nat, n: nat)
    requires Sensible(rd) && h < n <= |body|
    ensures rd.strip(body[h + 1..n]) != [] <==> exists k :: h < k < n && !rd.blank(body[k])
  {
    var lines := body[h + 1..n];
    if k :| 0 <= k < |lines| && !rd.blank(lines[k]) { assert body[h + 1 + k] == lines[k]; }
    if k :| h < k < n && !rd.blank(body[k]) { assert lines[k - h - 1] == body[k]; }
  }

  lemma EmptySection<T(!new)>(rd: Reading<T>, body: seq<T>, n: nat, h: nat)
    requires Sensible(rd) && n <= |body| && Section(rd, body, h, n) && rd.strip(body[h + 1..n]) == []
    ensures Spoiled(rd, body)
  {
    forall m ensures !Means(rd, body, m) {
      HasText(rd, body, h, n);
      assert !SectionKept(rd, body, h, n, m);
    }
  }

  /** Closing the open category at a heading or at the end keeps its section, or shows that it is empty. */
  lemma CloseSection<T(!new)>(rd: Reading<T>, body: seq<T>, n: nat, category: Option<string>, lines: seq<T>,
                              m: map<string, seq<T>>, h: int)
    requires Sensible(rd) && n <= |body| && OpenAt(rd, body, n, category, lines, h)
    requires HeadsProper(rd, body, n) && SectionsKept(rd, body, n, m) && (n < |body| ==> Head(rd, body, n))
    ensures category.None? ==> SectionsKept(rd, body, n + 1, m)
    ensures category.Some? && rd.strip(lines) != [] ==>
      SectionsKept(rd, body, n + 1, m[category.value := rd.strip(lines)])
    ensures category.Some? && rd.strip(lines) == [] ==> Spoiled(rd, body)
  {
    if category.None? {
      SectionsKeptOn(rd, body, n, m);
    } else {
      assert Section(rd, body, h, n);
      if rd.strip(lines) == [] {
        EmptySection(rd, body, n, h);
      } else {
        KeepSection(rd, body, n, category.value, m, h);
      }
    }
  }

  lemma NextHead<T(!new)>(rd: Reading<T>, body: seq<T>, i: nat, n: nat) returns (j: nat)
    requires i < n < |body| && Head(rd, body, i) && Head(rd, body, n)
    ensures j <= n && Section(rd, body, i, j)
  {
    j := i + 1;
    while !Head(rd, body, j)
      invariant i < j <= n && forall k :: i < k < j ==> !Head(rd, body, k)
      decreases n - j
    {
      j := j + 1;
    }
  }

  /** A heading of a new listed category keeps the headings proper, and any other spoils the body. */
  lemma HeadLine<T(!new)>(rd: Reading<T>, body: seq<T>, n: nat, m: map<string, seq<T>>)
    requires Sensible(rd) && n < |body| && Head(rd, body, n)
    requires HeadsProper(rd, body, n) && SectionsKept(rd, body, n + 1, m)
    ensures var name := rd.head(body[n]).value;
      if name in rd.names && name !in m then HeadsProper(rd, body, n + 1) else Spoiled(rd, body)
  {
    var name := rd.head(body[n]).value;
    if name !in rd.names {
      assert rd.like(body[n]);
      assert !HeadsListed(rd, body, |body|);
    } else if name in m {
      var i: nat, j: nat :| SectionOf(rd, body, n + 1, name, i, j);
      assert i < n && Head(rd, body, i) && rd.head(body[i]).value == name;
      assert !HeadsDistinct(rd, body, |body|);
    } else {
      forall i | 0 <= i < n && Head(rd, body, i) ensures rd.head(body[i]).value != name {
        var j := NextHead(rd, body, i, n);
        assert SectionKept(rd, body, i, j, m);
      }
    }
  }

  /** A line that is no heading is blank or belongs to the open category, or spoils the body. */
  lemma PlainLine<T(!new)>(rd: Reading<T>, body: seq<T>, n: nat, category: Option<string>, lines: seq<T>,
                           m: map<string, seq<T>>, h: int)
    requires n < |body| && !Head(rd, body, n) && OpenAt(rd, body, n, category, lines, h)
    requires HeadsProper(rd, body, n) && SectionsKept(rd, body, n, m)
    ensures if rd.like(body[n]) || (category.None? && !rd.blank(body[n])) then Spoiled(rd, body)
      else
        && HeadsProper(rd, body, n + 1) && SectionsKept(rd, body, n + 1, m)
        && OpenAt(rd, body, n + 1, category, if category.None? then lines else lines + [body[n]], h)
  {
    if rd.like(body[n]) {
      assert !HeadsListed(rd, body, |body|);
    } else if category.None? && !rd.blank(body[n]) {
      assert forall j :: 0 <= j <= n ==> !Head(rd, body, j);
      assert !NothingBefore(rd, body, |body|);
    } else {
      SectionsKeptOn(rd, body, n, m);
      PlainHeads(rd, body, n, category, lines, h);
      assert category.Some? ==> body[h + 1..n + 1] == body[h + 1..n] + [body[n]];
    }
  }

  lemma PlainHeads<T(!new)>(rd: Reading<T>, body: seq<T>, n: nat, category: Option<string>, lines: seq<T>, h: int)
    requires n < |body| && !Head(rd, body, n) && !rd.like(body[n]) && HeadsProper(rd, body, n)
    requires OpenAt(rd, body, n, category, lines, h) && (category.None? ==> rd.blank(body[n]))
    ensures HeadsProper(rd, body, n + 1)
  {
    forall i | 0 <= i < n + 1 && !rd.blank(body[i]) ensures exists j :: 0 <= j <= i && Head(rd, body, j) {
      if i == n { assert Head(rd, body, h); }
    }
  }

  /** What a reader knows after n lines without an objection. */
  ghost predicate Reached<T(!new)>(rd: Reading<T>, body: seq<T>, n: nat, category: Option<string>, lines: seq<T>,
                                   m: map<string, seq<T>>, h: int)
  {
    && Sensible(rd) && n <= |body| && OpenAt(rd, body, n, category, lines, h)
    && HeadsProper(rd, body, n) && SectionsKept(rd, body, n, m)
  }

  /** A heading is next, and the open category has been stored. */
  lemma ReachedHead<T(!new)>(rd: Reading<T>, body: seq<T>, n: nat, category: Option<string>, lines: seq<T>,
                             m: map<string, seq<T>>, h: int, stored: map<string, seq<T>>)
    requires Reached(rd, body, n, category, lines, m, h) && n < |body| && rd.head(body[n]).Some?
    requires category.Some? ==> rd.strip(lines) != []
    requires stored == if category.None? then m else m[category.value := rd.strip(lines)]
    ensures var name := rd.head(body[n]).value;
      if name in rd.names && name !in stored then Reached(rd, body, n + 1, Some(name), [], stored, n)
      else Spoiled(rd, body)
  {
    CloseSection(rd, body, n, category, lines, m, h);
    HeadLine(rd, body, n, stored);
    assert body[n + 1..n + 1] == [];
  }

  /** A line that is no heading is next. */
  lemma ReachedPlain<T(!new)>(rd: Reading<T>, body: seq<T>, n: nat, category: Option<string>, lines: seq<T>,
                              m: map<string, seq<T>>, h: int)
    requires Reached(rd, body, n, category, lines, m, h) && n < |body| && rd.head(body[n]).None?
    ensures if rd.like(body[n]) || (category.None? && !rd.blank(body[n])) then Spoiled(rd, body)
      else Reached(rd, body, n + 1, category, if category.None? then lines else lines + [body[n]], m, h)
  {
    PlainLine(rd, body, n, category, lines, m, h);
  }

  /** The open category cannot be stored, at a heading or at the end. */
  lemma ReachedEmpty<T(!new)>(rd: Reading<T>, body: seq<T>, n: nat, category: Option<string>, lines: seq<T>,
                              m: map<string, seq<T>>, h: int)
    requires Reached(rd, body, n, category, lines, m, h) && (n < |body| ==> rd.head(body[n]).Some?)
    requires category.Some? && rd.strip(lines) == []
    ensures Spoiled(rd, body)
  {
    CloseSection(rd, body, n, category, lines, m, h);
  }

  lemma ReachedEnd<T(!new)>(rd: Reading<T>, body: seq<T>, category: Option<string>, lines: seq<T>,
                            m: map<string, seq<T>>, h: int)
    requires Reached(rd, body, |body|, category, lines, m, h)
    requires category.Some? ==> rd.strip(lines) != []
    ensures Means(rd, body, if category.None? then m else m[category.value := rd.strip(lines)])
  {
    CloseSection(rd, body, |body|, category, lines, m, h);
  }

  lemma ReachedStart<T(!new)>(rd: Reading<T>, body: seq<T>, lines: seq<T>)
    requires Sensible(rd)
    ensures Reached(rd, body, 0, None, lines, map[], -1)
  {
  }

  // ---- reading a body from its first line on ----

  /** The categories with the open one stored, unless it has no text. */
  function Stored<T>(rd: Reading<T>, category: Option<string>, lines: seq<T>, m: map<string, seq<T>>)
    : Option<map<string, seq<T>>>
  {
    if category.None? then Some(m)
    else if |rd.strip(lines)| == 0 then None
    else Some(m[category.value := rd.strip(lines)])
  }

  /** The categories of the remaining lines, unless a line or a section is refused. */
  function Scan<T>(rd: Reading<T>, body: seq<T>, category: Option<string>, lines: seq<T>, m: map<string, seq<T>>)
    : Option<map<string, seq<T>>>
    decreases |body|
  {
    if |body| == 0 then Stored(rd, category, lines, m)
    else
      var line, rest := body[0], body[1..];
      if rd.head(line).Some? then
        var stored, name := Stored(rd, category, lines, m), rd.head(line).value;
        if stored.None? || name !in rd.names || name in stored.value then None
        else Scan(rd, rest, Some(name), [], stored.value)
      else if rd.like(line) || (category.None? && !rd.blank(line)) then None
      else Scan(rd, rest, category, if category.None? then lines else lines + [line], m)
  }

  ghost predicate Reads<T(!new)>(rd: Reading<T>, body: seq<T>, r: Option<map<string, seq<T>>>)
  {
    if r.Some? then Means(rd, body, r.value) else Spoiled(rd, body)
  }

  lemma ScanStep<T(!new)>(rd: Reading<T>, body: seq<T>, n: nat, category: Option<string>, lines: seq<T>,
                          m: map<string, seq<T>>)
    requires n < |body|
    ensures rd.head(body[n]).None? ==>
      Scan(rd, body[n..], category, lines, m) ==
        if rd.like(body[n]) || (category.None? && !rd.blank(body[n])) then None
        else Scan(rd, body[n + 1..], category, if category.None? then lines else lines + [body[n]], m)
    ensures rd.head(body[n]).Some? ==>
      var stored, name := Stored(rd, category, lines, m), rd.head(body[n]).value;
      Scan(rd, body[n..], category, lines, m) ==
        if stored.None? || name !in rd.names || name in stored.value then None
        else Scan(rd, body[n + 1..], Some(name), [], stored.value)
  {
    assert body[n..][1..] == body[n + 1..] && body[n..][0] == body[n];
  }

  lemma ScanEnd<T(!new)>(rd: Reading<T>, body: seq<T>, category: Option<string>, lines: seq<T>, m: map<string, seq<T>>)
    ensures Scan(rd, body[|body|..], category, lines, m) == Stored(rd, category, lines, m)
  {
  }

  lemma RefusedReads<T(!new)>(rd: Reading<T>, body: seq<T>, r: Option<map<string, seq<T>>>)
    requires r.None? && Spoiled(rd, body)
    ensures Reads(rd, body, r)
  {
  }

  lemma {:induction false} ScanReads<T(!new)>(rd: Reading<T>, body: seq<T>, n: nat, category: Option<string>,
                                              lines: seq<T>, m: map<string, seq<T>>, h: int,
                                              r: Option<map<string, seq<T>>>)
    requires Reached(rd, body, n, category, lines, m, h) && r == Scan(rd, body[n..], category, lines, m)
    ensures Reads(rd, body, r)
    decreases |body| - n
  {
    if n == |body| {
      ScanEnd(rd, body, category, lines, m);
      StoredReads(rd, body, category, lines, m, h, r);
    } else {
      ScanStep(rd, body, n, category, lines, m);
      if rd.head(body[n]).Some? {
        ScanReadsHead(rd, body, n, category, lines, m, h, r);
      } else {
        ReachedPlain(rd, body, n, category, lines, m, h);
        if rd.like(body[n]) || (category.None? && !rd.blank(body[n])) {
          RefusedReads(rd, body, r);
        } else {
          ScanReads(rd, body, n + 1, category, if category.None? then lines else lines + [body[n]], m, h, r);
        }
      }
    }
  }

  lemma StoredReads<T(!new)>(rd: Reading<T>, body: seq<T>, category: Option<string>, lines: seq<T>,
                             m: map<string, seq<T>>, h: int, r: Option<map<string, seq<T>>>)
    requires Reached(rd, body, |body|, category, lines, m, h) && r == Stored(rd, category, lines, m)
    ensures Reads(rd, body, r)
  {
    if category.Some? && rd.strip(lines) == [] {
      ReachedEmpty(rd, body, |body|, category, lines, m, h);
      RefusedReads(rd, body, r);
    } else {
      ReachedEnd(rd, body, category, lines, m, h);
    }
  }

  /** A heading closes the open section and opens its own. */
  lemma HeadOpens<T(!new)>(rd: Reading<T>, body: seq<T>, n: nat, category: Option<string>, lines: seq<T>,
                           m: map<string, seq<T>>, h: int, name: string, stored: map<string, seq<T>>)
    requires Reached(rd, body, n, category, lines, m, h) && n < |body| && rd.head(body[n]) == Some(name)
    requires Stored(rd, category, lines, m) == Some(stored) && name in rd.names && name !in stored
    ensures Reached(rd, body, n + 1, Some(name), [], stored, n)
  {
    ReachedHead(rd, body, n, category, lines, m, h, stored);
  }

  /** A heading after an empty section, of no listed category, or of one headed before spoils the body. */
  lemma HeadSpoils<T(!new)>(rd: Reading<T>, body: seq<T>, n: nat, category: Option<string>, lines: seq<T>,
                            m: map<string, seq<T>>, h: int, name: string)
    requires Reached(rd, body, n, category, lines, m, h) && n < |body| && rd.head(body[n]) == Some(name)
    requires var stored := Stored(rd, category, lines, m);
      stored.None? || name !in rd.names || name in stored.value
    ensures Spoiled(rd, body)
  {
    var stored := Stored(rd, category, lines, m);
    if stored.None? {
      ReachedEmpty(rd, body, n, category, lines, m, h);
    } else {
      ReachedHead(rd, body, n, category, lines, m, h, stored.value);
    }
  }

  lemma {:induction false} ScanReadsHead<T(!new)>(rd: Reading<T>, body: seq<T>, n: nat, category: Option<string>,
                                                  lines: seq<T>, m: map<string, seq<T>>, h: int,
                                                  r: Option<map<string, seq<T>>>)
    requires Reached(rd, body, n, category, lines, m, h) && r == Scan(rd, body[n..], category, lines, m)
    requires n < |body| && rd.head(body[n]).Some?
    ensures Reads(rd, body, r)
    decreases |body| - n, 0
  {
    ScanStep(rd, body, n, category, lines, m);
    var stored, name := Stored(rd, category, lines, m), rd.head(body[n]).value;
    if stored.None? || name !in rd.names || name in stored.value {
      HeadSpoils(rd, body, n, category, lines, m, h, name);
      RefusedReads(rd, body, r);
    } else {
      HeadOpens(rd, body, n, category, lines, m, h, name, stored.value);
      ScanReads(rd, body, n + 1, Some(name), [], stored.value, n, r);
    }
  }

  /** Reading succeeds exactly on bodies of category sections, with their contents. */
  lemma ReadsBody<T(!new)>(rd: Reading<T>, body: seq<T>)
    requires Sensible(rd)
    ensures Reads(rd, body, Scan(rd, body, None, [], map[]))
  {
    ReachedStart(rd, body, []);
    assert body[0..] == body;
    ScanReads(rd, body, 0, None, [], map[], -1, Scan(rd, body, None, [], map[]));
  }
}
