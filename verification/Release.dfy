/**
 * Planning a release: split the changelog at its Unreleased marker, promote release candidates, merge
 * candidates, Unreleased entries and fragments in order, and render (`release_plan`).
 */
module Release {
  import opened Prelude
  import opened Changelog
  import opened Sections

  const MARKER := "## [Unreleased]"

  // ---- split_unreleased ----

  /** str.find on one line. */
  function FindSub(line: Line, sub: string): Option<nat>
  {
    if |line| < |sub| then None
    else if line[..|sub|] == sub then Some(0)
    else if line == "" then None
    else
      var later := FindSub(line[1..], sub);
      if later.Some? then Some(later.value + 1) else None
  }

  function MarkerLine(t: Text): (k: nat)
    ensures k <= |t| && forall i :: 0 <= i < k ==> FindSub(t[i], MARKER).None?
    ensures k < |t| ==> FindSub(t[k], MARKER).Some?
  {
    if t == [] || FindSub(t[0], MARKER).Some? then 0 else 1 + MarkerLine(t[1..])
  }

  /** The first line that opens a section. */
  function NextSection(t: Text): (k: nat)
    ensures k <= |t| && forall i :: 0 <= i < k ==> !StartsWith(t[i], "## ")
    ensures k < |t| ==> StartsWith(t[k], "## ")
  {
    if t == [] || StartsWith(t[0], "## ") then 0 else 1 + NextSection(t[1..])
  }

  datatype Parts = Parts(prefix: Text, body: Text, suffix: Text)

  predicate EndsAtMarker(line: Line)
  {
    FindSub(line, MARKER).Some? && FindSub(line, MARKER).value + |MARKER| == |line|
  }

  function Split(t: Text): Result<Parts, Error>
  {
    var k := MarkerLine(t);
    if k == |t| then Err(MissingMarker)
    else if !EndsAtMarker(t[k]) then Err(MalformedMarker)
    else
      var rest := t[k + 1..];
      Ok(Parts(t[..k + 1], Strip(rest[..NextSection(rest)]), rest[NextSection(rest)..]))
  }

  /** The part of a changelog up to its marker. */
  ghost predicate IsPrefix(prefix: Text)
  {
    && prefix != [] && EndsAtMarker(prefix[|prefix| - 1])
    && forall i :: 0 <= i < |prefix| - 1 ==> FindSub(prefix[i], MARKER).None?
  }

  lemma SplitPrefix(t: Text)
    requires Split(t).Ok?
    ensures IsPrefix(Split(t).value.prefix)
    ensures Split(t).value.suffix != [] ==> StartsWith(Split(t).value.suffix[0], "## ")
  {
  }

  lemma {:induction false} MarkerLineAt(prefix: Text, rest: Text)
    requires IsPrefix(prefix)
    ensures MarkerLine(prefix + rest) == |prefix| - 1
  {
    if |prefix| > 1 {
      assert (prefix + rest)[1..] == prefix[1..] + rest;
      MarkerLineAt(prefix[1..], rest);
    }
  }

  lemma {:induction false} SectionAfter(inside: Text, rest: Text)
    requires forall i :: 0 <= i < |inside| ==> !StartsWith(inside[i], "## ")
    requires rest != [] && StartsWith(rest[0], "## ")
    ensures NextSection(inside + rest) == |inside|
  {
    if inside == [] {
      assert inside + rest == rest;
    } else {
      assert (inside + rest)[1..] == inside[1..] + rest;
      SectionAfter(inside[1..], rest);
    }
  }

  lemma {:induction false} SplitAt(prefix: Text, rest: Text)
    requires IsPrefix(prefix)
    ensures Split(prefix + rest) == Ok(Parts(prefix, Strip(rest[..NextSection(rest)]), rest[NextSection(rest)..]))
  {
    var t := prefix + rest;
    MarkerLineAt(prefix, rest);
    assert t[|prefix|..] == rest && t[..|prefix|] == prefix && t[|prefix| - 1] == prefix[|prefix| - 1];
  }

  /** A rendered changelog splits into the prefix, nothing unreleased, and the sections. */
  lemma SplitRendered(prefix: Text, sections: Text)
    requires IsPrefix(prefix) && sections != [] && StartsWith(sections[0], "## ")
    ensures Split(prefix + [""] + sections) == Ok(Parts(prefix, [], sections))
  {
    var rest := [""] + sections;
    assert prefix + [""] + sections == prefix + rest;
    SplitAt(prefix, rest);
    SectionAfter([""], sections);
    StripBlank();
    assert rest[..1] == [""] && rest[1..] == sections;
  }

  lemma StripBlank()
    ensures Strip([""]) == []
  {
  }

  // ---- promote_release_candidates ----

  predicate Candidate(version: string, stable: string)
  {
    StartsWith(version, stable + "-rc") && version != stable + "-rc"
  }

  function Marker(stable: string): Line -> Mark
  {
    line =>
      var version := VersionOf(line);
      if version.None? then Inside else if Candidate(version.value, stable) then CandidateHead else Head
  }

  /** A candidate of a stable version is headed by that version, "-rc", and at least one character more. */
  lemma MarkerExactly(stable: string, line: Line, v: string)
    requires VersionOf(line) == Some(v)
    ensures Marker(stable)(line) == CandidateHead <==> |v| >= |stable| + 4 && v[..|stable| + 3] == stable + "-rc"
    ensures Marker(stable)(line) != CandidateHead ==> Marker(stable)(line) == Head
  {
  }

  function ParseSection(lines: Text): Result<Categories, Error> { Parse(Strip(lines)) }

  // ---- merge_entries ----

  /** The bodies the sources give to a category, in the order of the sources. */
  function BodiesOf(sources: seq<Categories>, c: string): seq<Text>
  {
    if sources == [] then []
    else (if c in sources[0] then [sources[0][c]] else []) + BodiesOf(sources[1..], c)
  }

  function Joined(bodies: seq<Text>): Text
  {
    if bodies == [] then [] else bodies[0] + Joined(bodies[1..])
  }

  function AllKeys(sources: seq<Categories>): (keys: set<string>)
    ensures forall c :: c in keys <==> BodiesOf(sources, c) != []
  {
    if sources == [] then {} else sources[0].Keys + AllKeys(sources[1..])
  }

  /** Every category that some source has, its bodies joined in the order of the sources. */
  function Merged(sources: seq<Categories>): Categories
  {
    map c | c in AllKeys(sources) :: Joined(BodiesOf(sources, c))
  }

  lemma {:induction false} BodiesConcat(a: seq<Categories>, b: seq<Categories>, c: string)
    ensures BodiesOf(a + b, c) == BodiesOf(a, c) + BodiesOf(b, c)
  {
    if a == [] {
      assert a + b == b;
    } else {
      assert (a + b)[1..] == a[1..] + b;
      BodiesConcat(a[1..], b, c);
      var first := if c in a[0] then [a[0][c]] else [];
      assert first + (BodiesOf(a[1..], c) + BodiesOf(b, c)) == first + BodiesOf(a[1..], c) + BodiesOf(b, c);
    }
  }

  lemma {:induction false} JoinedConcat(a: seq<Text>, b: seq<Text>)
    ensures Joined(a + b) == Joined(a) + Joined(b)
  {
    if a == [] {
      assert a + b == b;
    } else {
      assert (a + b)[1..] == a[1..] + b;
      JoinedConcat(a[1..], b);
    }
  }

  function ListOf(a: map<string, seq<Text>>, c: string): seq<Text> { if c in a then a[c] else [] }

  method AppendAll(a: map<string, seq<Text>>, categories: Categories) returns (b: map<string, seq<Text>>)
    ensures b.Keys == a.Keys + categories.Keys
    ensures forall c :: ListOf(b, c) == ListOf(a, c) + if c in categories then [categories[c]] else []
  {
    b := a;
    var left := categories.Keys;
    while left != {}
      invariant left <= categories.Keys && b.Keys == a.Keys + (categories.Keys - left)
      invariant forall c ::
        ListOf(b, c) == ListOf(a, c) + if c in categories && c !in left then [categories[c]] else []
    {
      var c :| c in left;
      b := b[c := ListOf(b, c) + [categories[c]]];
      left := left - {c};
    }
  }

  lemma BodiesSnoc(sources: seq<Categories>, i: nat, c: string)
    requires i < |sources|
    ensures BodiesOf(sources[..i + 1], c)
      == BodiesOf(sources[..i], c) + if c in sources[i] then [sources[i][c]] else []
  {
    assert sources[..i + 1] == sources[..i] + [sources[i]];
    BodiesConcat(sources[..i], [sources[i]], c);
    assert [sources[i]][1..] == [];
  }

  lemma KeysSnoc(sources: seq<Categories>, i: nat)
    requires i < |sources|
    ensures AllKeys(sources[..i + 1]) == AllKeys(sources[..i]) + sources[i].Keys
  {
    forall c ensures c in AllKeys(sources[..i + 1]) <==> c in AllKeys(sources[..i]) + sources[i].Keys {
      BodiesSnoc(sources, i, c);
    }
  }

  /** The dictionary of lists that collects the sources' bodies. */
  method Additions(sources: seq<Categories>) returns (a: map<string, seq<Text>>)
    ensures a.Keys == AllKeys(sources)
    ensures forall c :: ListOf(a, c) == BodiesOf(sources, c)
  {
    a := map[];
    for i := 0 to |sources|
      invariant a.Keys == AllKeys(sources[..i])
      invariant forall c :: ListOf(a, c) == BodiesOf(sources[..i], c)
    {
      a := AppendAll(a, sources[i]);
      KeysSnoc(sources, i);
      forall c ensures ListOf(a, c) == BodiesOf(sources[..i + 1], c) { BodiesSnoc(sources, i, c); }
    }
    assert sources[..|sources|] == sources;
  }

  method MergeEntries(current: Categories, additions: map<string, seq<Text>>) returns (m: Categories)
    ensures m.Keys == current.Keys + additions.Keys
    ensures forall c :: c in m ==> m[c] == (if c in current then current[c] else []) + Joined(ListOf(additions, c))
  {
    m := current;
    var left := additions.Keys;
    while left != {}
      invariant left <= additions.Keys && m.Keys == current.Keys + (additions.Keys - left)
      invariant forall c :: c in m && c in left ==> m[c] == current[c]
      invariant forall c :: c in m && c !in left ==>
        m[c] == (if c in current then current[c] else []) + Joined(ListOf(additions, c))
    {
      var c :| c in left;
      var parts := if c in m then [m[c]] else [];
      JoinedConcat(parts, additions[c]);
      m := m[c := Joined(parts + additions[c])];
      left := left - {c};
    }
  }

  lemma {:induction false} KeysConcat(a: seq<Categories>, b: seq<Categories>)
    ensures AllKeys(a + b) == AllKeys(a) + AllKeys(b)
  {
    forall c ensures c in AllKeys(a + b) <==> c in AllKeys(a) + AllKeys(b) { BodiesConcat(a, b, c); }
  }

  lemma {:induction false} MergedConcat(a: seq<Categories>, b: seq<Categories>, c: string)
    requires c in AllKeys(a + b)
    ensures Merged(a + b)[c] == Joined(BodiesOf(a, c)) + Joined(BodiesOf(b, c))
  {
    BodiesConcat(a, b, c);
    JoinedConcat(BodiesOf(a, c), BodiesOf(b, c));
  }

  method Promoted(older: seq<Categories>) returns (m: Categories)
    ensures m == Merged(older)
  {
    var lists := Additions(older);
    assert forall c :: c in lists ==> lists[c] == ListOf(lists, c);
    m := map c | c in lists :: Joined(lists[c]);
  }

  /** Candidates, then the rest: the two-stage merge is the merge of all the sources. */
  method MergeAll(older: seq<Categories>, newer: seq<Categories>) returns (m: Categories)
    ensures m == Merged(older + newer)
  {
    var promoted := Promoted(older);
    var additions := Additions(newer);
    m := MergeEntries(promoted, additions);
    KeysConcat(older, newer);
    forall c | c in m ensures m[c] == Merged(older + newer)[c] { MergedConcat(older, newer, c); }
  }

  lemma {:induction false} JoinedStripped(bodies: seq<Text>)
    requires bodies != [] && forall i :: 0 <= i < |bodies| ==> Stripped(bodies[i])
    ensures Stripped(Joined(bodies))
  {
    if |bodies| > 1 { JoinedStripped(bodies[1..]); }
  }

  lemma {:induction false} BodiesStripped(sources: seq<Categories>, c: string)
    requires forall i :: 0 <= i < |sources| ==> WellFormed(sources[i])
    ensures forall i :: 0 <= i < |BodiesOf(sources, c)| ==> Stripped(BodiesOf(sources, c)[i])
    ensures BodiesOf(sources, c) != [] ==> c in STANDARD
  {
    if sources != [] { BodiesStripped(sources[1..], c); }
  }

  lemma MergedWellFormed(sources: seq<Categories>)
    requires forall i :: 0 <= i < |sources| ==> WellFormed(sources[i])
    ensures WellFormed(Merged(sources))
  {
    forall c | c in Merged(sources) ensures c in STANDARD && Stripped(Merged(sources)[c]) {
      BodiesStripped(sources, c);
      JoinedStripped(BodiesOf(sources, c));
    }
  }

  // ---- rendering a changelog ----

  /** rstrip of line breaks. */
  function TrimEnd(t: Text): (r: Text)
    ensures r <= t && (r != [] ==> r[|r| - 1] != "")
    ensures t != [] && t[0] != "" ==> r != [] && r[0] == t[0]
    ensures t != [] && t[|t| - 1] != "" ==> r == t
  {
    if t != [] && t[|t| - 1] == "" then TrimEnd(t[..|t| - 1]) else t
  }

  /** A changelog with nothing unreleased. */
  function Settled(prefix: Text, sections: Text): Text { prefix + [""] + sections + [""] }

  function RenderUnreleased(prefix: Text, body: Text, suffix: Text): Text
  {
    if body == [] then Settled(prefix, TrimEnd(suffix)) else prefix + [""] + body + [""] + TrimEnd(suffix) + [""]
  }

  function RenderRelease(prefix: Text, body: Text, suffix: Text, version: string, date: string): Text
  {
    prefix + [""] + [Heading(version, date), ""] + body + (if suffix == [] then [] else [""] + TrimEnd(suffix)) + [""]
  }

  // ---- release_plan ----

  function Number(digits: string): nat
    requires forall i :: 0 <= i < |digits| ==> Digit(digits[i])
  {
    if digits == "" then 0
    else
      var last := digits[|digits| - 1];
      assert Digit(last);
      10 * Number(digits[..|digits| - 1]) + (last as int - '0' as int)
  }

  function DaysIn(year: nat, month: nat): nat
  {
    if month == 2 then if year % 4 == 0 && (year % 100 != 0 || year % 400 == 0) then 29 else 28
    else if month in {4, 6, 9, 11} then 30 else 31
  }

  /** A date in the form the calendar module writes it. */
  predicate CalendarDate(d: string)
  {
    && IsDate(d)
    && var year, month, day := Number(d[..4]), Number(d[5..7]), Number(d[8..]);
       1 <= year && 1 <= month <= 12 && 1 <= day <= DaysIn(year, month)
  }

  datatype Request = Request(tag: string, date: string, retarget: bool)
  {
    predicate TagOk() { StartsWith(tag, "v") && IsVersion(tag[1..]) }

    function Version(): string { if |tag| > 0 then tag[1..] else "" }
  }

  predicate Stable(version: string) { '-' !in version }

  function Reversed(s: seq<Categories>): seq<Categories>
  {
    if s == [] then [] else Reversed(s[1..]) + [s[0]]
  }

  datatype Gathered = Gathered(entries: Categories, suffix: Text)

  /** All entries to release, candidates oldest first, and the released sections that remain. */
  function Gather(parts: Parts, fragments: seq<Categories>, version: string): Result<Gathered, Error>
  {
    var current := Parse(parts.body);
    if current.Err? then Err(current.error)
    else if !Stable(version) then Ok(Gathered(Merged([] + ([current.value] + fragments)), parts.suffix))
    else
      var candidates := ParseAll(CandidateBodies(parts.suffix, Marker(version)), ParseSection);
      if candidates.Err? then Err(candidates.error)
      else
        Ok(Gathered(Merged(Reversed(candidates.value) + ([current.value] + fragments)),
                    Kept(parts.suffix, Marker(version))))
  }

  function Assemble(prefix: Text, body: Text, suffix: Text, request: Request, free: string -> bool): Result<Text, Error>
  {
    if suffix == [] || VersionOf(suffix[0]).None? then Err(NoRelease)
    else
      var version, latest := request.Version(), VersionOf(suffix[0]).value;
      if latest == version then
        if body != [] then Err(EntriesRemain) else Ok(RenderUnreleased(prefix, body, suffix))
      else if body != [] then Ok(RenderRelease(prefix, body, suffix, version, request.date))
      else if !request.retarget then Err(NothingToRelease)
      else if !free(latest) then Err(NotRetargetable)
      else Ok(RenderUnreleased(prefix, body, suffix[0 := Heading(version, request.date)]))
  }

  /** The text a release writes; `free` says whether a version's tag does not exist yet. */
  function Plan(t: Text, fragments: seq<Categories>, request: Request, free: string -> bool): Result<Text, Error>
  {
    if !request.TagOk() then Err(InvalidTag)
    else if !CalendarDate(request.date) then Err(InvalidDate)
    else
      var parts := Split(t);
      if parts.Err? then Err(parts.error)
      else
        var gathered := Gather(parts.value, fragments, request.Version());
        if gathered.Err? then Err(gathered.error)
        else
          Assemble(parts.value.prefix, Render(gathered.value.entries), gathered.value.suffix, request, free)
  }

  method ReverseCategories(s: seq<Categories>) returns (r: seq<Categories>)
    ensures r == Reversed(s)
  {
    r := [];
    for i := |s| downto 0
      invariant r == Reversed(s[i..])
    {
      assert s[i..][1..] == s[i + 1..];
      r := r + [s[i]];
    }
    assert s[0..] == s;
  }

  method GatherEntries(parts: Parts, fragments: seq<Categories>, version: string) returns (r: Result<Gathered, Error>)
    ensures r == Gather(parts, fragments, version)
  {
    var current := ParseCategoryBody(parts.body);
    if current.Err? { return Err(current.error); }
    var older, suffix := [], parts.suffix;
    if Stable(version) {
      var promoted := PromoteCandidates(parts.suffix, Marker(version), ParseSection);
      if promoted.Err? { return Err(promoted.error); }
      older := ReverseCategories(promoted.value.0);
      suffix := promoted.value.1;
    }
    var merged := MergeAll(older, [current.value] + fragments);
    r := Ok(Gathered(merged, suffix));
  }

  method ReleasePlan(t: Text, fragments: seq<Categories>, request: Request, free: string -> bool)
    returns (r: Result<Text, Error>)
    ensures r == Plan(t, fragments, request, free)
  {
    if !request.TagOk() { return Err(InvalidTag); }
    if !CalendarDate(request.date) { return Err(InvalidDate); }
    var parts := Split(t);
    if parts.Err? { return Err(parts.error); }
    var gathered := GatherEntries(parts.value, fragments, request.Version());
    if gathered.Err? { return Err(gathered.error); }
    r := Assemble(parts.value.prefix, Render(gathered.value.entries), gathered.value.suffix, request, free);
  }

  // ---- planning the same release again ----

  lemma SettledInjective(prefix: Text, a: Text, b: Text)
    ensures Settled(prefix, a) == Settled(prefix, b) <==> a == b
  {
    if Settled(prefix, a) == Settled(prefix, b) {
      assert |a| == |b|;
      assert a == Settled(prefix, a)[|prefix| + 1..|prefix| + 1 + |a|];
      assert b == Settled(prefix, b)[|prefix| + 1..|prefix| + 1 + |b|];
    }
  }

  lemma SettledSplits(prefix: Text, sections: Text)
    requires IsPrefix(prefix) && sections != [] && StartsWith(sections[0], "## ")
    ensures Split(Settled(prefix, sections)) == Ok(Parts(prefix, [], sections + [""]))
  {
    SplitRendered(prefix, sections + [""]);
    assert prefix + [""] + (sections + [""]) == Settled(prefix, sections);
  }

  lemma {:induction false} RenderNothing(names: seq<string>)
    ensures RenderList(names, map[]) == []
  {
    if names != [] { RenderNothing(names[1..]); }
  }

  lemma TrimSettled(prefix: Text, sections: Text)
    requires sections != [] && sections[|sections| - 1] != ""
    ensures RenderUnreleased(prefix, [], sections + [""]) == Settled(prefix, sections)
  {
    assert (sections + [""])[..|sections|] == sections;
    assert TrimEnd(sections + [""]) == sections;
  }

  lemma VersionStarts(line: Line)
    requires VersionOf(line).Some?
    ensures StartsWith(line, "## ") && line != "" && IsVersion(VersionOf(line).value)
  {
    assert line[..3] == line[..4][..3];
  }

  /** The second plan of a settled changelog, when the first section is the requested version. */
  ghost predicate Replans(prefix: Text, sections: Text, request: Request, free: string -> bool)
  {
    Plan(Settled(prefix, sections), [], request, free) == Ok(Settled(prefix, sections))
  }

  lemma {:induction false} GatherNothing(prefix: Text, sections: Text, version: string)
    requires Stable(version) ==> NoCandidates(sections, Marker(version))
    ensures Gather(Parts(prefix, [], sections), [], version) == Ok(Gathered(map[], sections))
  {
    if Stable(version) {
      KeptExactly(sections, Marker(version));
      assert ParseAll([], ParseSection) == Ok([]) && Reversed([]) == [];
    }
  }

  lemma {:induction false} ReplanPlain(prefix: Text, sections: Text, request: Request, free: string -> bool)
    requires IsPrefix(prefix) && request.TagOk() && CalendarDate(request.date)
    requires sections != [] && sections[|sections| - 1] != "" && VersionOf(sections[0]) == Some(request.Version())
    requires Stable(request.Version()) ==> NoCandidates(sections + [""], Marker(request.Version()))
    ensures Replans(prefix, sections, request, free)
  {
    var suffix := sections + [""];
    VersionStarts(sections[0]);
    SettledSplits(prefix, sections);
    GatherNothing(prefix, suffix, request.Version());
    PlanOf(Settled(prefix, sections), [], request, free, Parts(prefix, [], suffix), Gathered(map[], suffix));
    RenderNothing(STANDARD);
    TrimSettled(prefix, sections);
  }

  lemma {:induction false} PlanOf(t: Text, fragments: seq<Categories>, request: Request, free: string -> bool,
                                  parts: Parts,
               gathered: Gathered)
    requires request.TagOk() && CalendarDate(request.date)
    requires Split(t) == Ok(parts) && Gather(parts, fragments, request.Version()) == Ok(gathered)
    ensures Plan(t, fragments, request, free)
      == Assemble(parts.prefix, Render(gathered.entries), gathered.suffix, request, free)
  {
  }

  lemma AssembleAgain(prefix: Text, body: Text, kept: Text, request: Request, free: string -> bool)
    requires kept != [] && VersionOf(kept[0]) == Some(request.Version())
    requires Assemble(prefix, body, kept, request, free).Ok?
    ensures Assemble(prefix, body, kept, request, free) == Ok(Settled(prefix, TrimEnd(kept)))
  {
  }

  lemma TrimNoCandidates(t: Text, mark: Line -> Mark)
    requires NoCandidates(t, mark)
    ensures NoCandidates(TrimEnd(t), mark)
  {
    var r := TrimEnd(t);
    forall i | 0 <= i < |r| ensures mark(r[i]) != CandidateHead { assert r[i] == t[i]; }
  }

  /** Planning again promotes the candidates it finds, so the text cannot stay the same. */
  lemma {:induction false} ReplanCandidate(prefix: Text, sections: Text, request: Request, free: string -> bool)
    requires IsPrefix(prefix) && sections != [] && VersionOf(sections[0]) == Some(request.Version())
    requires Stable(request.Version()) && !NoCandidates(sections, Marker(request.Version()))
    ensures !Replans(prefix, sections, request, free)
  {
    var t := Settled(prefix, sections);
    if Plan(t, [], request, free).Ok? {
      var mark := Marker(request.Version());
      var kept := Kept(sections + [""], mark);
      VersionStarts(sections[0]);
      SettledSplits(prefix, sections);
      KeptFront(sections + [""], mark);
      var gathered := Gather(Split(t).value, [], request.Version());
      AssembleAgain(prefix, Render(gathered.value.entries), kept, request, free);
      SettledDiffer(prefix, sections, kept, mark);
    }
  }

  lemma SettledDiffer(prefix: Text, sections: Text, kept: Text, mark: Line -> Mark)
    requires kept == Kept(sections + [""], mark) && !NoCandidates(sections, mark)
    ensures Settled(prefix, TrimEnd(kept)) != Settled(prefix, sections)
  {
    KeptExactly(sections + [""], mark);
    TrimNoCandidates(kept, mark);
    SettledInjective(prefix, sections, TrimEnd(kept));
  }

  lemma {:induction false} ReplanSections(prefix: Text, sections: Text, request: Request, free: string -> bool)
    requires IsPrefix(prefix) && request.TagOk() && CalendarDate(request.date)
    requires sections != [] && sections[|sections| - 1] != "" && VersionOf(sections[0]) == Some(request.Version())
    ensures Replans(prefix, sections, request, free)
      <==> (Stable(request.Version()) ==> NoCandidates(sections, Marker(request.Version())))
  {
    if Stable(request.Version()) && !NoCandidates(sections, Marker(request.Version())) {
      ReplanCandidate(prefix, sections, request, free);
    } else {
      NoCandidatesConcat(sections, [""], Marker(request.Version()));
      ReplanPlain(prefix, sections, request, free);
    }
  }

  /** The released sections a plan writes. */
  function SectionsOf(body: Text, suffix: Text, request: Request): Text
    requires suffix != [] && VersionOf(suffix[0]).Some?
  {
    var head := Heading(request.Version(), request.date);
    if VersionOf(suffix[0]).value == request.Version() then TrimEnd(suffix)
    else if body == [] then TrimEnd(suffix[0 := head])
    else [head, ""] + body + ([""] + TrimEnd(suffix))
  }

  lemma AssembleShape(prefix: Text, body: Text, suffix: Text, request: Request, free: string -> bool)
    requires Assemble(prefix, body, suffix, request, free).Ok?
    ensures suffix != [] && VersionOf(suffix[0]).Some?
    ensures Assemble(prefix, body, suffix, request, free).value == Settled(prefix, SectionsOf(body, suffix, request))
    ensures VersionOf(suffix[0]).value == request.Version() ==> body == []
  {
    var head := Heading(request.Version(), request.date);
    if VersionOf(suffix[0]).value == request.Version() {
      AssembleAgain(prefix, body, suffix, request, free);
    } else if body == [] {
      assert RenderUnreleased(prefix, [], suffix[0 := head]) == Settled(prefix, TrimEnd(suffix[0 := head]));
    } else {
      var tail := [""] + TrimEnd(suffix);
      assert prefix + [""] + [head, ""] + body + tail + [""] == prefix + [""] + ([head, ""] + body + tail) + [""];
    }
  }

  /** A plan puts the requested version first, and adds no candidate but what the new entries hold. */
  lemma SectionsHead(body: Text, suffix: Text, request: Request)
    requires suffix != [] && VersionOf(suffix[0]).Some? && IsVersion(request.Version()) && IsDate(request.date)
    ensures var sections := SectionsOf(body, suffix, request);
      sections != [] && sections[|sections| - 1] != "" && VersionOf(sections[0]) == Some(request.Version())
  {
    var head := Heading(request.Version(), request.date);
    HeadingVersion(request.Version(), request.date);
    VersionStarts(suffix[0]);
    assert head != "";
  }

  lemma SectionsCandidates(body: Text, suffix: Text, request: Request, mark: Line -> Mark)
    requires suffix != [] && VersionOf(suffix[0]).Some? && NoCandidates(suffix, mark)
    requires VersionOf(suffix[0]).value == request.Version() ==> body == []
    requires mark("") == Inside && mark(Heading(request.Version(), request.date)) != CandidateHead
    ensures NoCandidates(SectionsOf(body, suffix, request), mark) <==> NoCandidates(body, mark)
  {
    var head := Heading(request.Version(), request.date);
    TrimNoCandidates(suffix, mark);
    TrimNoCandidates(suffix[0 := head], mark);
    var tail := [""] + TrimEnd(suffix);
    NoCandidatesConcat([""], TrimEnd(suffix), mark);
    NoCandidatesConcat([head, ""] + body, tail, mark);
    NoCandidatesConcat([head, ""], body, mark);
  }

  lemma OwnHead(version: string, date: string)
    requires IsVersion(version) && IsDate(date)
    ensures Marker(version)("") == Inside && Marker(version)(Heading(version, date)) == Head
  {
    HeadingVersion(version, date);
  }

  lemma {:induction false} ReplanAssembled(prefix: Text, body: Text, suffix: Text, request: Request,
                                           free: string -> bool)
    requires IsPrefix(prefix) && request.TagOk() && CalendarDate(request.date)
    requires suffix != [] && VersionOf(suffix[0]).Some?
    requires VersionOf(suffix[0]).value == request.Version() ==> body == []
    requires Stable(request.Version()) ==> NoCandidates(suffix, Marker(request.Version()))
    ensures Replans(prefix, SectionsOf(body, suffix, request), request, free)
      <==> (Stable(request.Version()) ==> NoCandidates(body, Marker(request.Version())))
  {
    SectionsHead(body, suffix, request);
    ReplanSections(prefix, SectionsOf(body, suffix, request), request, free);
    if Stable(request.Version()) {
      OwnHead(request.Version(), request.date);
      SectionsCandidates(body, suffix, request, Marker(request.Version()));
    }
  }

  lemma {:induction false} GatheredSuffix(parts: Parts, fragments: seq<Categories>, version: string)
    requires Gather(parts, fragments, version).Ok? && Stable(version)
    ensures NoCandidates(Gather(parts, fragments, version).value.suffix, Marker(version))
  {
    KeptExactly(parts.suffix, Marker(version));
  }

  /** What a plan releases. */
  function Released(t: Text, fragments: seq<Categories>, request: Request): Categories
  {
    var parts := Split(t);
    if parts.Err? then map[]
    else
      var gathered := Gather(parts.value, fragments, request.Version());
      if gathered.Err? then map[] else gathered.value.entries
  }

  /**
   * Planning a release twice writes nothing the second time, exactly when the new section hides no
   * heading of one of its own candidates. A pre-release, and a plan that adds no section, always settle.
   */
  lemma {:induction false} ReplanExactly(t: Text, fragments: seq<Categories>, request: Request, free: string -> bool,
                                         out: Text)
    requires Plan(t, fragments, request, free) == Ok(out)
    ensures Plan(out, [], request, free) == Ok(out)
      <==> (Stable(request.Version())
            ==> NoCandidates(Render(Released(t, fragments, request)), Marker(request.Version())))
  {
    var parts := Split(t).value;
    var gathered := Gather(parts, fragments, request.Version()).value;
    SplitPrefix(t);
    if Stable(request.Version()) { GatheredSuffix(parts, fragments, request.Version()); }
    AssembleShape(parts.prefix, Render(gathered.entries), gathered.suffix, request, free);
    ReplanAssembled(parts.prefix, Render(gathered.entries), gathered.suffix, request, free);
  }

  // ---- when the second plan settles, and when it does not ----

  ghost predicate AllInside(t: Text, mark: Line -> Mark) { forall i :: 0 <= i < |t| ==> mark(t[i]) == Inside }

  lemma AllInsideConcat(a: Text, b: Text, mark: Line -> Mark)
    requires AllInside(a, mark) && AllInside(b, mark)
    ensures AllInside(a + b, mark)
  {
  }

  lemma PlainInside(body: Text, version: string)
    requires Plain(body)
    ensures AllInside(body, Marker(version))
  {
    forall i | 0 <= i < |body| ensures Marker(version)(body[i]) == Inside {
      if VersionOf(body[i]).Some? { VersionStarts(body[i]); }
    }
  }

  lemma {:induction false} RenderInside(names: seq<string>, m: Categories, version: string)
    requires PlainBodies(m)
    ensures AllInside(RenderList(names, m), Marker(version))
  {
    if names != [] {
      RenderInside(names[1..], m, version);
      if names[0] in m {
        var mark, rest := Marker(version), RenderList(names[1..], m);
        PlainInside(m[names[0]], version);
        AllInsideConcat(["### " + names[0], ""], m[names[0]], mark);
        AllInsideConcat([""], rest, mark);
        AllInsideConcat(Block(names[0], m[names[0]]), Gap(rest), mark);
      }
    }
  }

  /** With plain entries the second plan of a release always writes nothing. */
  lemma {:induction false} PlainSettles(t: Text, fragments: seq<Categories>, request: Request, free: string -> bool,
                                        out: Text)
    requires Plan(t, fragments, request, free) == Ok(out) && PlainBodies(Released(t, fragments, request))
    ensures Plan(out, [], request, free) == Ok(out)
  {
    ReplanExactly(t, fragments, request, free, out);
    RenderInside(STANDARD, Released(t, fragments, request), request.Version());
  }

  /** A section read back: its body, and the sections below it. */
  lemma {:induction false} SectionReadsBack(head: Line, body: Text, below: Text, mark: Line -> Mark)
    requires Stripped(body) && AllInside(body, mark) && mark("") == Inside && below != [] && mark(below[0]) != Inside
    ensures var sections := [head, ""] + body + ([""] + below);
      var n := SectionLength(sections, mark);
      Strip(sections[1..n]) == body && sections[n..] == below
  {
    var sections := [head, ""] + body + ([""] + below);
    var inside := [""] + body + [""];
    AllInsideConcat([""], body, mark);
    AllInsideConcat([""] + body, [""], mark);
    assert sections == [head] + inside + below;
    FirstSection(head, inside, below, mark);
    StripPadded(body);
  }

  lemma {:induction false} RenderStripped(names: seq<string>, m: Categories)
    requires forall c :: c in names && c in m ==> c in STANDARD && Stripped(m[c])
    ensures RenderList(names, m) == [] || Stripped(RenderList(names, m))
  {
    if names != [] {
      RenderStripped(names[1..], m);
      if names[0] in m {
        var rest := RenderList(names[1..], m);
        var block := Block(names[0], m[names[0]]);
        assert block[0] == "### " + names[0] && block[0][0] == '#';
        assert block[|block| - 1] == m[names[0]][|m[names[0]]| - 1];
        assert RenderList(names, m) == block + Gap(rest);
      }
    }
  }

  lemma {:induction false} GatheredWellFormed(parts: Parts, fragments: seq<Categories>, version: string)
    requires Gather(parts, fragments, version).Ok? && forall i :: 0 <= i < |fragments| ==> WellFormed(fragments[i])
    ensures WellFormed(Gather(parts, fragments, version).value.entries)
  {
    var current := Parse(parts.body).value;
    ScanWellFormed(parts.body, None, [], map[]);
    var newer := [current] + fragments;
    assert forall i :: 0 <= i < |newer| ==> WellFormed(newer[i]);
    if Stable(version) {
      var candidates := ParseAll(CandidateBodies(parts.suffix, Marker(version)), ParseSection).value;
      ParseAllWellFormed(CandidateBodies(parts.suffix, Marker(version)));
      ReversedWellFormed(candidates);
      MergedWellFormed(Reversed(candidates) + newer);
    } else {
      MergedWellFormed([] + newer);
    }
  }

  lemma SectionWellFormed(lines: Text)
    requires ParseSection(lines).Ok?
    ensures WellFormed(ParseSection(lines).value)
  {
    ScanWellFormed(Strip(lines), None, [], map[]);
  }

  lemma {:induction false} ParseAllWellFormed(bodies: seq<Text>)
    requires ParseAll(bodies, ParseSection).Ok?
    ensures forall m :: m in ParseAll(bodies, ParseSection).value ==> WellFormed(m)
  {
    if bodies != [] {
      ParseAllWellFormed(bodies[..|bodies| - 1]);
      SectionWellFormed(bodies[|bodies| - 1]);
    }
  }

  lemma {:induction false} ReversedWellFormed(s: seq<Categories>)
    requires forall i :: 0 <= i < |s| ==> WellFormed(s[i])
    ensures forall i :: 0 <= i < |Reversed(s)| ==> WellFormed(Reversed(s)[i])
  {
    if s != [] { ReversedWellFormed(s[1..]); }
  }

  lemma {:induction false} SectionsSplit(prefix: Text, body: Text, suffix: Text, request: Request)
    requires IsPrefix(prefix) && request.TagOk() && IsDate(request.date)
    requires suffix != [] && VersionOf(suffix[0]).Some?
    ensures Split(Settled(prefix, SectionsOf(body, suffix, request)))
      == Ok(Parts(prefix, [], SectionsOf(body, suffix, request) + [""]))
  {
    var sections := SectionsOf(body, suffix, request);
    SectionsHead(body, suffix, request);
    VersionStarts(sections[0]);
    SettledSplits(prefix, sections);
  }

  lemma SectionsLayout(body: Text, suffix: Text, request: Request)
    requires suffix != [] && VersionOf(suffix[0]).Some? && VersionOf(suffix[0]).value != request.Version()
    requires body != []
    ensures SectionsOf(body, suffix, request) + [""]
      == [Heading(request.Version(), request.date), ""] + body + ([""] + (TrimEnd(suffix) + [""]))
  {
    var front, tail := [Heading(request.Version(), request.date), ""] + body, TrimEnd(suffix);
    assert front + ([""] + tail) + [""] == front + ([""] + (tail + [""]));
  }

  lemma {:induction false} SectionOfBody(body: Text, suffix: Text, request: Request, mark: Line -> Mark)
    requires Stripped(body) && AllInside(body, mark) && mark("") == Inside
    requires suffix != [] && suffix[0] != "" && mark(suffix[0]) != Inside
    requires VersionOf(suffix[0]).Some? && VersionOf(suffix[0]).value != request.Version()
    ensures var sections := SectionsOf(body, suffix, request) + [""];
      var n := SectionLength(sections, mark);
      Strip(sections[1..n]) == body && sections[n..] == TrimEnd(suffix) + [""]
  {
    SectionsLayout(body, suffix, request);
    SectionReadsBack(Heading(request.Version(), request.date), body, TrimEnd(suffix) + [""], mark);
  }

  lemma {:induction false} RenderedSection(entries: Categories, suffix: Text, request: Request)
    requires WellFormed(entries) && PlainBodies(entries) && Render(entries) != []
    requires suffix != [] && VersionOf(suffix[0]).Some? && VersionOf(suffix[0]).value != request.Version()
    ensures var sections := SectionsOf(Render(entries), suffix, request) + [""];
      var n := SectionLength(sections, Marker(request.Version()));
      ParseSection(sections[1..n]) == Ok(entries) && sections[n..] == TrimEnd(suffix) + [""]
  {
    VersionStarts(suffix[0]);
    RenderStripped(STANDARD, entries);
    RenderInside(STANDARD, entries, request.Version());
    SectionOfBody(Render(entries), suffix, request, Marker(request.Version()));
    ParseRender(entries);
  }

  /**
   * A release conserves: read back, the new changelog has the same prefix, nothing unreleased, a first
   * section that parses to exactly the merged entries, and below it the sections kept, line for line.
   */
  lemma {:induction false} ReleaseConserves(t: Text, fragments: seq<Categories>, request: Request,
                                            free: string -> bool, out: Text)
    requires Plan(t, fragments, request, free) == Ok(out)
    requires forall i :: 0 <= i < |fragments| ==> WellFormed(fragments[i])
    requires PlainBodies(Released(t, fragments, request)) && Render(Released(t, fragments, request)) != []
    ensures var was, now := Split(t), Split(out);
      && was.Ok? && now.Ok? && now.value.prefix == was.value.prefix && now.value.body == []
      && now.value.suffix != [] && VersionOf(now.value.suffix[0]) == Some(request.Version())
    ensures var sections := Split(out).value.suffix;
      var n := SectionLength(sections, Marker(request.Version()));
      && ParseSection(sections[1..n]) == Ok(Released(t, fragments, request))
      && sections[n..] == TrimEnd(Remaining(Split(t).value.suffix, request.Version())) + [""]
  {
    var parts, entries := Split(t).value, Released(t, fragments, request);
    var suffix := Remaining(parts.suffix, request.Version());
    ReleaseShape(t, fragments, request, free, out);
    SectionsSplit(parts.prefix, Render(entries), suffix, request);
    SectionsHead(Render(entries), suffix, request);
    GatheredWellFormed(parts, fragments, request.Version());
    RenderedSection(entries, suffix, request);
  }

  lemma {:induction false} TrimHead(t: Text, head: Line)
    requires t != [] && t[0] != "" && head != ""
    ensures TrimEnd(t[0 := head]) == TrimEnd(t)[0 := head]
  {
    if t[|t| - 1] == "" {
      TrimHead(t[..|t| - 1], head);
      assert t[0 := head][..|t| - 1] == t[..|t| - 1][0 := head];
    }
  }

  lemma {:induction false} RenderEmpty(names: seq<string>, m: Categories, c: string)
    requires RenderList(names, m) == [] && c in names
    ensures c !in m
  {
    if c in names[1..] { RenderEmpty(names[1..], m, c); }
  }

  /** The same sections but for the first heading, which is changed only when the request may change it. */
  ghost predicate Reheaded(kept: Text, sections: Text, request: Request, free: string -> bool)
  {
    && kept != [] && sections != [] && sections[1..] == kept[1..]
    && VersionOf(kept[0]).Some? && VersionOf(sections[0]) == Some(request.Version())
    && if VersionOf(kept[0]) == Some(request.Version()) then sections[0] == kept[0]
       else
         && request.retarget && free(VersionOf(kept[0]).value)
         && sections[0] == Heading(request.Version(), request.date)
  }

  /**
   * A plan that releases no entry had none: read back, the changelog keeps its prefix and its sections line
   * for line, but for the first heading, which now names the requested version. It may change that heading
   * only when asked to and when the version it named has no tag yet.
   */
  lemma {:induction false} RetargetConserves(t: Text, fragments: seq<Categories>, request: Request,
                                             free: string -> bool, out: Text)
    requires Plan(t, fragments, request, free) == Ok(out)
    requires forall i :: 0 <= i < |fragments| ==> WellFormed(fragments[i])
    requires Render(Released(t, fragments, request)) == []
    ensures Released(t, fragments, request) == map[]
    ensures var was, now := Split(t), Split(out);
      was.Ok? && now.Ok? && now.value.prefix == was.value.prefix && now.value.body == []
    ensures Reheaded(TrimEnd(Remaining(Split(t).value.suffix, request.Version())) + [""], Split(out).value.suffix,
                     request, free)
  {
    var parts := Split(t).value;
    var suffix := Remaining(parts.suffix, request.Version());
    RetargetShape(t, fragments, request, free, out);
    NothingReleased(t, fragments, request);
    SectionsSplit(parts.prefix, [], suffix, request);
    RetargetSections(suffix, request, free);
    ReheadedOn(TrimEnd(suffix), SectionsOf([], suffix, request), request, free);
  }

  lemma NothingReleased(t: Text, fragments: seq<Categories>, request: Request)
    requires Split(t).Ok? && Gather(Split(t).value, fragments, request.Version()).Ok?
    requires forall i :: 0 <= i < |fragments| ==> WellFormed(fragments[i])
    requires Render(Released(t, fragments, request)) == []
    ensures Released(t, fragments, request) == map[]
  {
    var entries := Released(t, fragments, request);
    GatheredParts(t, fragments, request);
    GatheredWellFormed(Split(t).value, fragments, request.Version());
    forall c | c in entries ensures false { RenderEmpty(STANDARD, entries, c); }
  }

  /** What a plan that releases no entry writes, and when it may. */
  lemma {:induction false} RetargetShape(t: Text, fragments: seq<Categories>, request: Request,
                                         free: string -> bool, out: Text)
    requires Plan(t, fragments, request, free) == Ok(out) && Render(Released(t, fragments, request)) == []
    ensures request.TagOk() && IsDate(request.date) && Split(t).Ok? && IsPrefix(Split(t).value.prefix)
    ensures Gather(Split(t).value, fragments, request.Version()).Ok?
    ensures var suffix := Remaining(Split(t).value.suffix, request.Version());
      && suffix != [] && VersionOf(suffix[0]).Some?
      && out == Settled(Split(t).value.prefix, SectionsOf([], suffix, request))
      && (VersionOf(suffix[0]).value == request.Version() || (request.retarget && free(VersionOf(suffix[0]).value)))
  {
    SplitPrefix(t);
    GatheredParts(t, fragments, request);
    AssembleShape(Split(t).value.prefix, [], Remaining(Split(t).value.suffix, request.Version()), request, free);
  }

  lemma RetargetSections(suffix: Text, request: Request, free: string -> bool)
    requires suffix != [] && VersionOf(suffix[0]).Some? && IsVersion(request.Version()) && IsDate(request.date)
    requires VersionOf(suffix[0]).value == request.Version() || (request.retarget && free(VersionOf(suffix[0]).value))
    ensures Reheaded(TrimEnd(suffix), SectionsOf([], suffix, request), request, free)
  {
    VersionStarts(suffix[0]);
    HeadingVersion(request.Version(), request.date);
    assert Heading(request.Version(), request.date) != "";
    TrimHead(suffix, Heading(request.Version(), request.date));
  }

  lemma ReheadedOn(kept: Text, sections: Text, request: Request, free: string -> bool)
    requires Reheaded(kept, sections, request, free)
    ensures Reheaded(kept + [""], sections + [""], request, free)
  {
    assert (kept + [""])[1..] == kept[1..] + [""] && (sections + [""])[1..] == sections[1..] + [""];
  }

  /** What a plan that releases entries writes. */
  lemma {:induction false} ReleaseShape(t: Text, fragments: seq<Categories>, request: Request, free: string -> bool,
                                        out: Text)
    requires Plan(t, fragments, request, free) == Ok(out) && Render(Released(t, fragments, request)) != []
    ensures request.TagOk() && IsDate(request.date) && Split(t).Ok? && IsPrefix(Split(t).value.prefix)
    ensures Gather(Split(t).value, fragments, request.Version()).Ok?
    ensures var suffix := Remaining(Split(t).value.suffix, request.Version());
      && suffix != [] && VersionOf(suffix[0]).Some? && VersionOf(suffix[0]).value != request.Version()
      && out == Settled(Split(t).value.prefix, SectionsOf(Render(Released(t, fragments, request)), suffix, request))
  {
    SplitPrefix(t);
    GatheredParts(t, fragments, request);
    AssembleShape(Split(t).value.prefix, Render(Released(t, fragments, request)),
                  Remaining(Split(t).value.suffix, request.Version()), request, free);
  }

  lemma {:induction false} GatheredParts(t: Text, fragments: seq<Categories>, request: Request)
    requires Split(t).Ok? && Gather(Split(t).value, fragments, request.Version()).Ok?
    ensures Gather(Split(t).value, fragments, request.Version()).value
      == Gathered(Released(t, fragments, request), Remaining(Split(t).value.suffix, request.Version()))
  {
  }

  /** The released sections that stay: all of them, but for a stable release's own candidates. */
  function Remaining(suffix: Text, version: string): Text
  {
    if Stable(version) then Kept(suffix, Marker(version)) else suffix
  }

  /** The candidates a stable release promotes, oldest first. */
  function Promotes(parts: Parts, version: string): seq<Categories>
  {
    var candidates := ParseAll(CandidateBodies(parts.suffix, Marker(version)), ParseSection);
    if Stable(version) && candidates.Ok? then Reversed(candidates.value) else []
  }

  /** Within a category: the candidates' entries oldest first, then the unreleased, then the fragments'. */
  lemma {:induction false} ReleasedInOrder(parts: Parts, fragments: seq<Categories>, version: string, c: string)
    requires Gather(parts, fragments, version).Ok? && c in Gather(parts, fragments, version).value.entries
    ensures Gather(parts, fragments, version).value.entries[c]
      == Joined(BodiesOf(Promotes(parts, version), c))
         + (Joined(BodiesOf([Parse(parts.body).value], c)) + Joined(BodiesOf(fragments, c)))
  {
    var current := Parse(parts.body).value;
    MergedConcat(Promotes(parts, version), [current] + fragments, c);
    BodiesConcat([current], fragments, c);
    JoinedConcat(BodiesOf([current], c), BodiesOf(fragments, c));
  }

  // ---- when a plan succeeds ----

  lemma {:induction false} ParseAllOk<T, C, E>(bodies: seq<T>, parse: T -> Result<C, E>)
    ensures ParseAll(bodies, parse).Ok? <==> forall i :: 0 <= i < |bodies| ==> parse(bodies[i]).Ok?
  {
    if bodies != [] {
      ParseAllOk(bodies[..|bodies| - 1], parse);
      assert bodies == bodies[..|bodies| - 1] + [bodies[|bodies| - 1]];
    }
  }

  /** The Unreleased body and, for a stable release, every candidate's section can be read. */
  ghost predicate Readable(parts: Parts, version: string)
  {
    && Parse(parts.body).Ok?
    && var bodies := CandidateBodies(parts.suffix, Marker(version));
       Stable(version) ==> forall i :: 0 <= i < |bodies| ==> ParseSection(bodies[i]).Ok?
  }

  lemma GathersExactly(parts: Parts, fragments: seq<Categories>, version: string)
    ensures Gather(parts, fragments, version).Ok? <==> Readable(parts, version)
  {
    ParseAllOk(CandidateBodies(parts.suffix, Marker(version)), ParseSection);
  }

  lemma RendersSomething(entries: Categories)
    requires WellFormed(entries)
    ensures Render(entries) == [] <==> entries == map[]
  {
    if Render(entries) == [] {
      forall c | c in entries ensures false { RenderEmpty(STANDARD, entries, c); }
    }
    RenderNothing(STANDARD);
  }

  /**
   * A plan succeeds exactly when its tag and date are valid, the changelog splits and can be read, a release
   * heads the sections that remain, and either there is something to release and that release is another one,
   * or there is nothing and it is this one, or it may be retargeted.
   */
  lemma {:induction false} PlanExactly(t: Text, fragments: seq<Categories>, request: Request, free: string -> bool)
    requires forall i :: 0 <= i < |fragments| ==> WellFormed(fragments[i])
    ensures Plan(t, fragments, request, free).Ok? <==>
      && request.TagOk() && CalendarDate(request.date) && Split(t).Ok? && Readable(Split(t).value, request.Version())
      && var kept := Remaining(Split(t).value.suffix, request.Version());
         && kept != [] && VersionOf(kept[0]).Some?
         && var latest, nothing := VersionOf(kept[0]).value, Released(t, fragments, request) == map[];
            if latest == request.Version() then nothing else nothing ==> request.retarget && free(latest)
  {
    if Split(t).Ok? {
      var parts := Split(t).value;
      GathersExactly(parts, fragments, request.Version());
      if Gather(parts, fragments, request.Version()).Ok? {
        GatheredParts(t, fragments, request);
        GatheredWellFormed(parts, fragments, request.Version());
        RendersSomething(Released(t, fragments, request));
      }
    }
  }

  // ---- a release that does not settle ----

  lemma {:induction false} CandidateVersion(version: string)
    requires IsVersion(version) && Stable(version)
    ensures IsVersion(version + "-rc1") && Candidate(version + "-rc1", version)
  {
    var v := version + "-rc1";
    FindAt(v, '-', |version|);
    assert v[..|version|] == version && Find(version, '-') == |version| && version[..|version|] == version;
    assert v[..|version + "-rc"|] == version + "-rc";
  }

  /** An indented line under Added that becomes a candidate heading once its blanks are stripped. */
  function HidingBody(line: Line): Text { ["### " + "Added", " " + line] }

  lemma ParsePair(heading: Line, line: Line, category: string, body: Text)
    requires HeadingOf(heading) == Some(category) && category in STANDARD
    requires HeadingOf(line).None? && !HeadingLike(line) && Strip([line]) == body && body != []
    ensures Parse([heading, line]) == Ok(map[category := body])
  {
    var text := [heading, line];
    assert text[1..] == [line] && [line][1..] == [] && [] + [line] == [line];
    assert Scan([], Some(category), [line], map[]) == Ok(map[category := body]);
    assert Scan([line], Some(category), [], map[]) == Scan([], Some(category), [line], map[]);
  }

  lemma IndentedInside(line: Line)
    ensures HeadingOf(" " + line).None? && !HeadingLike(" " + line)
  {
    assert (" " + line)[0] == ' ';
  }

  lemma HidingParses(line: Line)
    requires line != "" && !IsSpace(line[0]) && !IsSpace(line[|line| - 1])
    ensures Stripped(HidingBody(line)) && Parse(HidingBody(line)) == Ok(map["Added" := [line]])
  {
    IndentedInside(line);
    ParsePair("### " + "Added", " " + line, "Added", [line]);
  }

  /** The changelog with that body unreleased, and one released section below. */
  function Hiding(line: Line, older: Line): Text { [MARKER] + HidingBody(line) + [older] }

  lemma HidingSplits(line: Line, older: Line)
    requires Stripped(HidingBody(line)) && StartsWith(older, "## ")
    ensures Split(Hiding(line, older)) == Ok(Parts([MARKER], HidingBody(line), [older]))
  {
    var t, body := Hiding(line, older), HidingBody(line);
    assert MARKER[..|MARKER|] == MARKER && FindSub(MARKER, MARKER) == Some(0);
    assert MarkerLine(t) == 0;
    var rest := t[1..];
    assert rest == body + [older] && rest[2..] == [older] && rest[..2] == body && t[..1] == [MARKER];
    assert body[0][2] == '#' && body[1][0] == ' ';
    SectionAfter(body, [older]);
    StripFixed(body);
  }

  lemma MergedOne(m: Categories)
    ensures Merged([] + ([m] + [])) == m
  {
    assert [] + ([m] + []) == [m] && [m][1..] == [];
    forall c | c in m ensures BodiesOf([m], c) == [m[c]] && Joined([m[c]]) == m[c] {
      assert [m[c]][1..] == [] && m[c] + [] == m[c];
    }
    assert AllKeys([m]) == m.Keys;
  }

  lemma KeptOne(older: Line, mark: Line -> Mark)
    requires mark(older) == Head
    ensures Kept([older], mark) == [older] && CandidateBodies([older], mark) == []
  {
    assert NoCandidates([older], mark);
    KeptExactly([older], mark);
  }

  lemma {:induction false} HidingGathers(line: Line, older: Line, version: string)
    requires Parse(HidingBody(line)) == Ok(map["Added" := [line]]) && Marker(version)(older) == Head
    ensures Gather(Parts([MARKER], HidingBody(line), [older]), [], version)
      == Ok(Gathered(map["Added" := [line]], [older]))
  {
    MergedOne(map["Added" := [line]]);
    KeptOne(older, Marker(version));
    assert ParseAll([], ParseSection) == Ok([]) && Reversed([]) == [];
  }

  lemma RenderAdded(line: Line)
    ensures Render(map["Added" := [line]]) == ["### Added", "", line]
  {
    var m: Categories := map["Added" := [line]];
    var names := STANDARD[1..];
    RenderMissing(names, m);
    assert Block("Added", [line]) == ["### Added", "", line] && "### " + "Added" == "### Added";
  }

  lemma {:induction false} RenderMissing(names: seq<string>, m: Categories)
    requires forall c :: c in names ==> c !in m
    ensures RenderList(names, m) == []
  {
    if names != [] { RenderMissing(names[1..], m); }
  }

  /**
   * For every stable version there is a changelog, with no fragment, whose release plan succeeds and
   * whose second plan does not give the same text: the entry hides a heading of the version's candidate.
   */
  lemma {:induction false} HiddenCandidate(version: string, other: string, date: string, free: string -> bool)
    requires IsVersion(version) && Stable(version) && IsVersion(other) && CalendarDate(date)
    requires other != version && !Candidate(other, version)
    ensures var t := Hiding(Heading(version + "-rc1", date), Heading(other, date));
      var request := Request("v" + version, date, false);
      var out := Plan(t, [], request, free);
      out.Ok? && Plan(out.value, [], request, free) != out
  {
    var line, older := Heading(version + "-rc1", date), Heading(other, date);
    var t, request := Hiding(line, older), Request("v" + version, date, false);
    assert request.Version() == version && request.TagOk();
    HidingLines(version, other, date);
    HidingParses(line);
    HidingSplits(line, older);
    HidingGathers(line, older, version);
    RenderAdded(line);
    HiddenNotSettled(t, request, free, line);
  }

  lemma HidingLines(version: string, other: string, date: string)
    requires IsVersion(version) && Stable(version) && IsVersion(other) && CalendarDate(date)
    requires other != version && !Candidate(other, version)
    ensures var line, older := Heading(version + "-rc1", date), Heading(other, date);
      && line != "" && !IsSpace(line[0]) && !IsSpace(line[|line| - 1]) && Marker(version)(line) == CandidateHead
      && StartsWith(older, "## ") && VersionOf(older) == Some(other) && Marker(version)(older) == Head
  {
    var line, older := Heading(version + "-rc1", date), Heading(other, date);
    CandidateVersion(version);
    HeadingVersion(version + "-rc1", date);
    HeadingVersion(other, date);
    VersionStarts(older);
    assert line[|line| - 1] == date[9] && Digit(date[8..][1]) && line[0] == '#';
  }

  lemma {:induction false} HiddenNotSettled(t: Text, request: Request, free: string -> bool, line: Line)
    requires Plan(t, [], request, free).Ok? && Stable(request.Version())
    requires Render(Released(t, [], request)) == ["### Added", "", line]
    requires Marker(request.Version())(line) == CandidateHead
    ensures Plan(Plan(t, [], request, free).value, [], request, free) != Plan(t, [], request, free)
  {
    ReplanExactly(t, [], request, free, Plan(t, [], request, free).value);
    assert Marker(request.Version())(["### Added", "", line][2]) == CandidateHead;
  }

  lemma DottedVersion(a: char, b: char, c: char)
    requires Digit(a) && Digit(b) && Digit(c)
    ensures IsVersion([a, '.', b, '.', c]) && Stable([a, '.', b, '.', c])
  {
    var v := [a, '.', b, '.', c];
    FindAt(v, '.', 1);
    var rest := v[2..];
    assert rest == [b, '.', c];
    FindAt(rest, '.', 1);
    assert v[..1] == [a] && rest[..1] == [b] && rest[2..] == [c];
    assert Core(v) && Find(v, '-') == 5 && v[..5] == v;
  }

  lemma TwoDigits(a: char, b: char)
    requires Digit(a) && Digit(b)
    ensures Number([a, b]) == 10 * (a as int - '0' as int) + (b as int - '0' as int)
  {
    assert [a, b][..1] == [a] && [a][..0] == [];
    assert Number([a]) == a as int - '0' as int;
  }

  function NewYearOf(y: char): string { ['2', '0', '2', y, '-', '0', '1', '-', '0', '1'] }

  lemma NewYear(y: char)
    requires Digit(y)
    ensures CalendarDate(NewYearOf(y))
  {
    var d := NewYearOf(y);
    assert d[..4] == ['2', '0', '2', y] && d[5..7] == ['0', '1'] && d[8..] == ['0', '1'];
    TwoDigits('0', '1');
    assert d[..4][..3] == ['2', '0', '2'] && ['2', '0', '2'][..2] == ['2', '0'];
    TwoDigits('2', '0');
    assert Number(['2', '0', '2']) == 202;
  }

  lemma Witness() returns (version: string, other: string, date: string)
    ensures version == "1.0.0" && other == "0.9.0" && date == "2026-01-01"
    ensures IsVersion(version) && Stable(version) && IsVersion(other) && CalendarDate(date)
    ensures other != version && !Candidate(other, version)
  {
    DottedVersion('1', '0', '0');
    DottedVersion('0', '9', '0');
    NewYear('6');
    version, other, date := ['1', '.', '0', '.', '0'], ['0', '.', '9', '.', '0'], NewYearOf('6');
  }

  /** One such changelog: releasing 1.0.0 above 0.9.0. */
  lemma {:induction false} SecondPlanDiffers(free: string -> bool) returns (t: Text, request: Request)
    ensures Plan(t, [], request, free).Ok?
    ensures Plan(Plan(t, [], request, free).value, [], request, free) != Plan(t, [], request, free)
  {
    var version, other, date := Witness();
    HiddenCandidate(version, other, date, free);
    t, request := Hiding(Heading(version + "-rc1", date), Heading(other, date)), Request("v" + version, date, false);
  }
}
