/**
 * Changelog sections: parsing category bodies, rendering them in the standard order, and release
 * headings. A text is the sequence of its lines.
 */
module Changelog {
  import opened Prelude
  import Outline

  type Line = string

  type Text = seq<Line>

  // ---- lines ----

  predicate StartsWith(s: string, p: string) { |p| <= |s| && s[..|p|] == p }

  predicate IsSpace(c: char) { c == ' ' || c == '\t' || c == '\r' }

  function TrimFront(s: Line): (r: Line)
    ensures |r| <= |s| && (r != "" ==> !IsSpace(r[0]))
    ensures s != "" && !IsSpace(s[0]) ==> r == s
    ensures r != "" ==> s != "" && r[|r| - 1] == s[|s| - 1]
  {
    if s != "" && IsSpace(s[0]) then TrimFront(s[1..]) else s
  }

  function TrimBack(s: Line): (r: Line)
    ensures r <= s && (r != "" ==> !IsSpace(r[|r| - 1]))
    ensures s != "" && !IsSpace(s[|s| - 1]) ==> r == s
    ensures s != "" && !IsSpace(s[0]) ==> r != "" && r[0] == s[0]
  {
    if s != "" && IsSpace(s[|s| - 1]) then TrimBack(s[..|s| - 1]) else s
  }

  predicate Blank(s: Line) { TrimFront(s) == "" }

  function DropBlankFront(t: Text): (r: Text)
    ensures r != [] ==> !Blank(r[0])
    ensures t != [] && !Blank(t[0]) ==> r == t
  {
    if t != [] && Blank(t[0]) then DropBlankFront(t[1..]) else t
  }

  function DropBlankBack(t: Text): (r: Text)
    ensures r <= t && (r != [] ==> !Blank(r[|r| - 1]))
    ensures t != [] && !Blank(t[|t| - 1]) ==> r == t
  {
    if t != [] && Blank(t[|t| - 1]) then DropBlankBack(t[..|t| - 1]) else t
  }

  /** str.strip() on the text: no blank lines at either end, and no blanks at either end of it. */
  function Strip(t: Text): Text
  {
    var inner := DropBlankBack(DropBlankFront(t));
    if inner == [] then []
    else
      var front := inner[0 := TrimFront(inner[0])];
      front[|front| - 1 := TrimBack(front[|front| - 1])]
  }

  predicate Stripped(t: Text)
  {
    && t != [] && t[0] != "" && !IsSpace(t[0][0])
    && t[|t| - 1] != "" && !IsSpace(t[|t| - 1][|t[|t| - 1]| - 1])
  }

  lemma StripResult(t: Text)
    ensures Strip(t) == [] || Stripped(Strip(t))
  {
    var inner := DropBlankBack(DropBlankFront(t));
    if inner != [] {
      assert inner[0] == DropBlankFront(t)[0];
      EndsStripped(inner);
    }
  }

  lemma EndsStripped(inner: Text)
    requires inner != [] && !Blank(inner[0]) && !Blank(inner[|inner| - 1])
    ensures var front := inner[0 := TrimFront(inner[0])];
      Stripped(front[|front| - 1 := TrimBack(front[|front| - 1])])
  {
    var front := inner[0 := TrimFront(inner[0])];
    var last := front[|front| - 1];
    assert !Blank(last);
    TrimBackBlank(last);
  }

  /** A line all of whose characters go at the back is blank. */
  lemma {:induction false} TrimBackBlank(s: Line)
    ensures TrimBack(s) == "" ==> Blank(s)
  {
    if s != "" && TrimBack(s) == "" {
      TrimBackBlank(s[..|s| - 1]);
      BlankAppend(s[..|s| - 1], s[|s| - 1]);
      assert s == s[..|s| - 1] + [s[|s| - 1]];
    }
  }

  lemma {:induction false} BlankAppend(s: Line, c: char)
    requires Blank(s) && IsSpace(c)
    ensures Blank(s + [c])
  {
    if s != "" {
      assert (s + [c])[1..] == s[1..] + [c];
      BlankAppend(s[1..], c);
    }
  }

  lemma StripFixed(t: Text)
    requires Stripped(t)
    ensures Strip(t) == t
  {
    assert !Blank(t[0]);
    assert !Blank(t[|t| - 1]) by { BlankEnd(t[|t| - 1]); }
  }

  lemma {:induction false} BlankEnd(s: Line)
    requires s != "" && !IsSpace(s[|s| - 1])
    ensures !Blank(s)
  {
    if IsSpace(s[0]) { BlankEnd(s[1..]); }
  }

  /** Empty lines around a stripped text disappear. */
  lemma StripPadded(t: Text)
    requires Stripped(t)
    ensures Strip([""] + t) == t && Strip([""] + t + [""]) == t
  {
    StripFixed(t);
    BlankEnd(t[|t| - 1]);
    assert !Blank(t[0]);
    var p, q := [""] + t, [""] + t + [""];
    assert p[1..] == t && q[1..] == t + [""];
    assert DropBlankFront(p) == t && DropBlankFront(q) == t + [""];
    assert (t + [""])[..|t|] == t;
    assert DropBlankBack(t + [""]) == t;
  }

  // ---- what stripping removes ----

  lemma {:induction false} TrimFrontExactly(s: Line)
    ensures var k := |s| - |TrimFront(s)|;
      TrimFront(s) == s[k..] && forall i :: 0 <= i < k ==> IsSpace(s[i])
  {
    if s != "" && IsSpace(s[0]) { TrimFrontExactly(s[1..]); }
  }

  lemma {:induction false} TrimBackExactly(s: Line)
    ensures forall i :: |TrimBack(s)| <= i < |s| ==> IsSpace(s[i])
  {
    if s != "" && IsSpace(s[|s| - 1]) { TrimBackExactly(s[..|s| - 1]); }
  }

  /** A blank line is one of blanks alone. */
  lemma {:induction false} BlankExactly(s: Line)
    ensures Blank(s) <==> forall i :: 0 <= i < |s| ==> IsSpace(s[i])
  {
    TrimFrontExactly(s);
    if !Blank(s) { assert s[|s| - |TrimFront(s)|] == TrimFront(s)[0]; }
  }

  lemma {:induction false} DropFrontExactly(t: Text)
    ensures var k := |t| - |DropBlankFront(t)|;
      0 <= k && DropBlankFront(t) == t[k..] && forall i :: 0 <= i < k ==> Blank(t[i])
  {
    if t != [] && Blank(t[0]) { DropFrontExactly(t[1..]); }
  }

  lemma {:induction false} DropBackExactly(t: Text)
    ensures forall i :: |DropBlankBack(t)| <= i < |t| ==> Blank(t[i])
  {
    if t != [] && Blank(t[|t| - 1]) { DropBackExactly(t[..|t| - 1]); }
  }

  /** Line k of the stripped text is the line of t it came from, without blanks where the text begins or ends. */
  ghost predicate StrippedLine(t: Text, a: nat, b: nat, k: nat, line: Line)
    requires a + k < b <= |t|
  {
    var front := if k == 0 then TrimFront(t[a]) else t[a + k];
    line == if a + k == b - 1 then TrimBack(front) else front
  }

  /** Stripping takes the blank lines at both ends and the blanks at both ends of what is left, no more. */
  lemma StripExactly(t: Text) returns (a: nat, b: nat)
    ensures a <= b <= |t| && |Strip(t)| == b - a
    ensures forall i :: 0 <= i < a || b <= i < |t| ==> Blank(t[i])
    ensures a < b ==> !Blank(t[a]) && !Blank(t[b - 1])
    ensures forall k: nat :: k < b - a ==> StrippedLine(t, a, b, k, Strip(t)[k])
  {
    var inner := DropBlankFront(t);
    DropFrontExactly(t);
    DropBackExactly(inner);
    a := |t| - |inner|;
    b := a + |DropBlankBack(inner)|;
    forall i | b <= i < |t| ensures Blank(t[i]) { assert t[i] == inner[i - a]; }
    if a < b { StripEnds(t, inner, a, b); }
  }

  lemma StripEnds(t: Text, inner: Text, a: nat, b: nat)
    requires inner == DropBlankFront(t) && a < b && a <= |t| && inner == t[a..] && b == a + |DropBlankBack(inner)|
    ensures b <= |t| && !Blank(t[a]) && !Blank(t[b - 1])
    ensures |Strip(t)| == b - a && forall k: nat :: k < b - a ==> StrippedLine(t, a, b, k, Strip(t)[k])
  {
    var kept := DropBlankBack(inner);
    assert kept == t[a..b];
    assert kept[0] == inner[0] == t[a];
    assert kept[b - a - 1] == t[b - 1];
    TrimEnds(t, a, b, Strip(t));
  }

  lemma TrimEnds(t: Text, a: nat, b: nat, r: Text)
    requires a < b <= |t|
    requires var front := t[a..b][0 := TrimFront(t[a])]; r == front[b - a - 1 := TrimBack(front[b - a - 1])]
    ensures |r| == b - a && forall k: nat :: k < b - a ==> StrippedLine(t, a, b, k, r[k])
  {
  }

  /** Nothing is left exactly of a text of blank lines. */
  lemma StripNothing(t: Text)
    ensures Strip(t) == [] <==> forall i :: 0 <= i < |t| ==> Blank(t[i])
  {
    var a, b := StripExactly(t);
  }

  // ---- categories ----

  const STANDARD := ["Added", "Changed", "Deprecated", "Removed", "Fixed", "Security"]

  type Categories = map<string, Text>

  datatype Error = MissingMarker | MalformedMarker | EmptySection | InvalidCategory | DuplicateSection
    | MalformedHeading | OutsideCategory | NoRelease | EntriesRemain | NothingToRelease | NotRetargetable
    | InvalidTag | InvalidDate

  /** The category a `### ` line names, without its trailing blanks. */
  function HeadingOf(line: Line): Option<string>
  {
    if !StartsWith(line, "### ") || |line| == 4 then None
    else
      var name := TrimBack(line[4..]);
      Some(if name == "" then line[4..5] else name)
  }

  /** A line the parser takes for a heading, well formed or not. */
  predicate HeadingLike(line: Line) { StartsWith(line, "## ") || StartsWith(line, "### ") }

  function Store(category: Option<string>, lines: Text, categories: Categories): Result<Categories, Error>
  {
    if category.None? then Ok(categories)
    else if Strip(lines) == [] then Err(EmptySection)
    else Ok(categories[category.value := Strip(lines)])
  }

  /** Parse the remaining lines, given the open category, its lines so far, and the finished ones. */
  function Scan(body: Text, category: Option<string>, lines: Text, categories: Categories): Result<Categories, Error>
    decreases |body|
  {
    if body == [] then Store(category, lines, categories)
    else
      var line, rest := body[0], body[1..];
      if HeadingOf(line).Some? then
        var stored, name := Store(category, lines, categories), HeadingOf(line).value;
        if stored.Err? then stored
        else if name !in STANDARD then Err(InvalidCategory)
        else if name in stored.value then Err(DuplicateSection)
        else Scan(rest, Some(name), [], stored.value)
      else if HeadingLike(line) then Err(MalformedHeading)
      else if category.None? then
        if Blank(line) then Scan(rest, None, lines, categories) else Err(OutsideCategory)
      else Scan(rest, category, lines + [line], categories)
  }

  function Parse(body: Text): Result<Categories, Error> { Scan(body, None, [], map[]) }

  // ---- what a body must look like ----

  /** How the lines of a category body are read. */
  ghost function CategoryLines(): Outline.Reading<Line>
  {
    Outline.Reading(HeadingOf, HeadingLike, Blank, Strip, STANDARD)
  }

  lemma CategoryLinesSensible()
    ensures Outline.Sensible(CategoryLines())
  {
    forall t ensures Strip(t) == [] <==> forall i :: 0 <= i < |t| ==> Blank(t[i]) { StripNothing(t); }
  }

  /** The answer of a parse: the contents of the sections, or that the body is not of that form. */
  ghost predicate Reads(body: Text, r: Result<Categories, Error>)
  {
    match r
    case Ok(m) => Outline.Means(CategoryLines(), body, m)
    case Err(_) => Outline.Spoiled(CategoryLines(), body)
  }

  /** The scan agrees with the reading of the outline, line by line. */
  lemma {:induction false} ScanAgrees(body: Text, category: Option<string>, lines: Text, m: Categories)
    ensures var r, o := Scan(body, category, lines, m), Outline.Scan(CategoryLines(), body, category, lines, m);
      if r.Ok? then o == Some(r.value) else o.None?
    decreases |body|
  {
    if body != [] {
      var line, rest := body[0], body[1..];
      if HeadingOf(line).Some? {
        var stored, name := Store(category, lines, m), HeadingOf(line).value;
        if stored.Ok? && name in STANDARD && name !in stored.value { ScanAgrees(rest, Some(name), [], stored.value); }
      } else if !HeadingLike(line) {
        if category.Some? { ScanAgrees(rest, category, lines + [line], m); }
        else if Blank(line) { ScanAgrees(rest, None, lines, m); }
      }
    }
  }

  /**
   * A category body parses exactly when it has the form of category sections, and to their contents: text
   * before the first heading, an unknown or repeated category, and an empty section are all refused.
   */
  lemma ParseReads(body: Text)
    ensures Reads(body, Parse(body))
  {
    CategoryLinesSensible();
    Outline.ReadsBody(CategoryLines(), body);
    ScanAgrees(body, None, [], map[]);
  }

  method ParseCategoryBody(body: Text) returns (r: Result<Categories, Error>)
    ensures r == Parse(body) && Reads(body, r)
  {
    ParseReads(body);
    var categories: Categories, category, lines := map[], None, [];
    for i := 0 to |body|
      invariant Scan(body[i..], category, lines, categories) == Parse(body)
    {
      var line := body[i];
      assert body[i..][1..] == body[i + 1..];
      var heading := HeadingOf(line);
      if heading.Some? {
        var stored := Store(category, lines, categories);
        if stored.Err? { return stored; }
        categories, lines := stored.value, [];
        category := heading;
        if heading.value !in STANDARD { return Err(InvalidCategory); }
        if heading.value in categories { return Err(DuplicateSection); }
      } else if HeadingLike(line) {
        return Err(MalformedHeading);
      } else if category.None? {
        if !Blank(line) { return Err(OutsideCategory); }
      } else {
        lines := lines + [line];
      }
    }
    assert body[|body|..] == [];
    r := Store(category, lines, categories);
  }

  /** What every parse and every merge yields: standard categories with stripped bodies. */
  ghost predicate WellFormed(m: Categories)
  {
    forall c :: c in m ==> c in STANDARD && Stripped(m[c])
  }

  lemma {:induction false} ScanWellFormed(body: Text, category: Option<string>, lines: Text, categories: Categories)
    requires WellFormed(categories) && (category.Some? ==> category.value in STANDARD)
    requires Scan(body, category, lines, categories).Ok?
    ensures WellFormed(Scan(body, category, lines, categories).value)
    decreases |body|
  {
    StripResult(lines);
    if body != [] {
      var line, rest := body[0], body[1..];
      if HeadingOf(line).Some? {
        ScanWellFormed(rest, HeadingOf(line), [], Store(category, lines, categories).value);
      } else if category.None? {
        ScanWellFormed(rest, None, lines, categories);
      } else {
        ScanWellFormed(rest, category, lines + [line], categories);
      }
    }
  }

  // ---- rendering ----

  function Block(category: string, body: Text): Text { ["### " + category, ""] + body }

  /** The listed categories that have entries, in list order, one empty line between them. */
  function RenderList(names: seq<string>, m: Categories): Text
  {
    if names == [] then []
    else
      var rest := RenderList(names[1..], m);
      if names[0] !in m then rest
      else Block(names[0], m[names[0]]) + if rest == [] then [] else [""] + rest
  }

  function Render(m: Categories): Text { RenderList(STANDARD, m) }

  /** Render keeps only entries, so nothing is lost: every well-formed category is on the list. */
  function Restrict(m: Categories, names: seq<string>): Categories { map c | c in m && c in names :: m[c] }

  ghost predicate NoDuplicates(names: seq<string>) { forall i, j :: 0 <= i < j < |names| ==> names[i] != names[j] }

  ghost predicate Plain(body: Text) { forall i :: 0 <= i < |body| ==> !HeadingLike(body[i]) }

  /** No body has a line the parser would take for a heading. */
  ghost predicate PlainBodies(m: Categories) { forall c :: c in m ==> Plain(m[c]) }

  lemma {:induction false} ScanPlain(body: Text, rest: Text, category: string, lines: Text, categories: Categories)
    requires Plain(body)
    ensures Scan(body + rest, Some(category), lines, categories) == Scan(rest, Some(category), lines + body, categories)
  {
    if body == [] {
      assert body + rest == rest && lines + body == lines;
    } else {
      assert (body + rest)[1..] == body[1..] + rest;
      assert lines + [body[0]] + body[1..] == lines + body;
      assert !HeadingLike(body[0]);
      ScanPlain(body[1..], rest, category, lines + [body[0]], categories);
    }
  }

  lemma ScanInside(line: Line, rest: Text, category: string, lines: Text, categories: Categories)
    requires !HeadingLike(line)
    ensures Scan([line] + rest, Some(category), lines, categories) ==
      Scan(rest, Some(category), lines + [line], categories)
  {
    assert ([line] + rest)[1..] == rest;
  }

  lemma ScanHeading(line: Line, rest: Text, category: string, stored: Categories, open: Option<string>, lines: Text,
                    before: Categories)
    requires HeadingOf(line) == Some(category) && category in STANDARD
    requires Store(open, lines, before) == Ok(stored) && category !in stored
    ensures Scan([line] + rest, open, lines, before) == Scan(rest, Some(category), [], stored)
  {
    assert ([line] + rest)[1..] == rest;
  }

  /** Scanning a block opens its category with an empty line and the body read so far. */
  lemma ScanBlock(category: string, body: Text, rest: Text, stored: Categories, open: Option<string>, lines: Text,
                  before: Categories)
    requires category in STANDARD && Plain(body)
    requires Store(open, lines, before) == Ok(stored) && category !in stored
    ensures Scan(Block(category, body) + rest, open, lines, before) == Scan(rest, Some(category), [""] + body, stored)
  {
    ScanHeading("### " + category, ([""] + body) + rest, category, stored, open, lines, before);
    assert Block(category, body) + rest == ["### " + category] + (([""] + body) + rest);
    assert Plain([""] + body);
    ScanPlain([""] + body, rest, category, [], stored);
    assert [] + ([""] + body) == [""] + body;
  }

  lemma RestrictCons(m: Categories, names: seq<string>, before: Categories)
    requires names != [] && NoDuplicates(names)
    ensures names[0] !in m ==> Restrict(m, names) == Restrict(m, names[1..])
    ensures names[0] in m ==> before[names[0] := m[names[0]]] + Restrict(m, names[1..]) == before + Restrict(m, names)
  {
    assert forall x :: x in names <==> x == names[0] || x in names[1..];
    assert names[0] !in names[1..];
  }

  lemma RenderCons(names: seq<string>, m: Categories)
    requires names != [] && names[0] in m
    ensures RenderList(names, m) == Block(names[0], m[names[0]]) + Gap(RenderList(names[1..], m))
  {
  }

  function Gap(rest: Text): Text { if rest == [] then [] else [""] + rest }

  /** One more block after an open category: the open one is stored, the block's becomes the open one. */
  lemma {:induction false} ScanNext(names: seq<string>, m: Categories, category: string, body: Text, before: Categories)
    requires names != [] && names[0] in STANDARD && names[0] in m && Plain(m[names[0]])
    requires Stripped(body) && names[0] != category && names[0] !in before
    ensures Scan(Gap(RenderList(names, m)), Some(category), [""] + body, before) ==
      Scan(Gap(RenderList(names[1..], m)), Some(names[0]), [""] + m[names[0]], before[category := body])
  {
    var c, after := names[0], Gap(RenderList(names[1..], m));
    RenderCons(names, m);
    StripPadded(body);
    ScanInside("", Block(c, m[c]) + after, category, [""] + body, before);
    ScanBlock(c, m[c], after, before[category := body], Some(category), [""] + body + [""], before);
  }

  /** Reading the rest of a rendering, with one category open, yields that category and all the rest. */
  lemma {:induction false} ScanOpen(names: seq<string>, m: Categories, category: string, body: Text, before: Categories)
    requires NoDuplicates(names) && (forall c :: c in names ==> c in STANDARD && c != category && c !in before)
    requires forall c :: c in m && c in names ==> Stripped(m[c]) && Plain(m[c])
    requires Stripped(body)
    ensures Scan(Gap(RenderList(names, m)), Some(category), [""] + body, before) ==
      Ok(before[category := body] + Restrict(m, names))
  {
    if names == [] {
      StripPadded(body);
      assert before[category := body] + Restrict(m, names) == before[category := body];
    } else {
      RestrictCons(m, names, before[category := body]);
      assert forall x :: x in names[1..] ==> x in names && x != names[0];
      if names[0] in m {
        ScanNext(names, m, category, body, before);
        ScanOpen(names[1..], m, names[0], m[names[0]], before[category := body]);
      } else {
        ScanOpen(names[1..], m, category, body, before);
      }
    }
  }

  lemma ScanFirst(names: seq<string>, m: Categories)
    requires names != [] && names[0] in STANDARD && names[0] in m && Plain(m[names[0]])
    ensures Parse(RenderList(names, m)) ==
      Scan(Gap(RenderList(names[1..], m)), Some(names[0]), [""] + m[names[0]], map[])
  {
    RenderCons(names, m);
    ScanBlock(names[0], m[names[0]], Gap(RenderList(names[1..], m)), map[], None, [], map[]);
  }

  ghost predicate Renderable(names: seq<string>, m: Categories)
  {
    && NoDuplicates(names) && (forall c :: c in names ==> c in STANDARD)
    && forall c :: c in m && c in names ==> Stripped(m[c]) && Plain(m[c])
  }

  lemma RenderableTail(names: seq<string>, m: Categories)
    requires Renderable(names, m) && names != []
    ensures Renderable(names[1..], m) && forall x :: x in names[1..] ==> x != names[0]
  {
    assert forall x :: x in names[1..] ==> x in names;
  }

  lemma ScanRest(names: seq<string>, m: Categories)
    requires Renderable(names, m) && names != [] && names[0] in m
    ensures Scan(Gap(RenderList(names[1..], m)), Some(names[0]), [""] + m[names[0]], map[]) == Ok(Restrict(m, names))
  {
    var empty: Categories := map[];
    RenderableTail(names, m);
    ScanOpen(names[1..], m, names[0], m[names[0]], empty);
    RestrictCons(m, names, empty);
    assert empty + Restrict(m, names) == Restrict(m, names);
  }

  lemma ScanFromFirst(names: seq<string>, m: Categories)
    requires Renderable(names, m) && names != [] && names[0] in m
    ensures Parse(RenderList(names, m)) == Ok(Restrict(m, names))
  {
    ScanFirst(names, m);
    ScanRest(names, m);
  }

  lemma {:induction false} ScanList(names: seq<string>, m: Categories)
    requires Renderable(names, m)
    ensures Parse(RenderList(names, m)) == Ok(Restrict(m, names))
  {
    if names != [] {
      if names[0] in m {
        ScanFromFirst(names, m);
      } else {
        RenderableTail(names, m);
        RestrictCons(m, names, map[]);
        ScanList(names[1..], m);
      }
    }
  }

  /** A rendered section parses back to exactly the categories it was rendered from. */
  lemma ParseRender(m: Categories)
    requires WellFormed(m) && PlainBodies(m)
    ensures Parse(Render(m)) == Ok(m)
  {
    ScanList(STANDARD, m);
    assert Restrict(m, STANDARD) == m;
  }

  // ---- the round trip needs plain bodies ----

  function HeadingCount(t: Text): nat
  {
    if t == [] then 0 else (if HeadingLike(t[0]) then 1 else 0) + HeadingCount(t[1..])
  }

  lemma {:induction false} HeadingCountConcat(a: Text, b: Text)
    ensures HeadingCount(a + b) == HeadingCount(a) + HeadingCount(b)
  {
    if a == [] {
      assert a + b == b;
    } else {
      assert (a + b)[1..] == a[1..] + b;
      HeadingCountConcat(a[1..], b);
    }
  }

  lemma {:induction false} HeadingCountPlain(t: Text)
    requires HeadingCount(t) == 0
    ensures Plain(t)
  {
    if t != [] { HeadingCountPlain(t[1..]); }
  }

  /** A successful parse yields one category for each heading-like line. */
  lemma {:induction false} ScanCounts(body: Text, category: Option<string>, lines: Text, categories: Categories)
    requires Scan(body, category, lines, categories).Ok?
    requires category.Some? ==> category.value !in categories
    ensures |Scan(body, category, lines, categories).value| ==
      |categories| + (if category.Some? then 1 else 0) + HeadingCount(body)
    decreases |body|
  {
    if body != [] {
      var line, rest := body[0], body[1..];
      if HeadingOf(line).Some? {
        ScanCounts(rest, HeadingOf(line), [], Store(category, lines, categories).value);
      } else if category.None? {
        ScanCounts(rest, None, lines, categories);
      } else {
        ScanCounts(rest, category, lines + [line], categories);
      }
    }
  }

  /** Heading-like lines hidden in the bodies of the listed categories. */
  function Hidden(names: seq<string>, m: Categories): nat
  {
    if names == [] then 0
    else (if names[0] in m then HeadingCount(m[names[0]]) else 0) + Hidden(names[1..], m)
  }

  lemma {:induction false} HiddenNone(names: seq<string>, m: Categories, c: string)
    requires Hidden(names, m) == 0 && c in names && c in m
    ensures Plain(m[c])
  {
    if names[0] == c { HeadingCountPlain(m[c]); } else { HiddenNone(names[1..], m, c); }
  }

  lemma BlockCounts(category: string, body: Text, rest: Text)
    requires category in STANDARD
    ensures HeadingCount(Block(category, body) + Gap(rest)) == 1 + HeadingCount(body) + HeadingCount(rest)
  {
    var head := "### " + category;
    assert StartsWith(head, "### ");
    assert Block(category, body) == [head] + ([""] + body);
    assert [head][1..] == [] && [""][1..] == [];
    HeadingCountConcat([head], [""] + body);
    HeadingCountConcat([""], body);
    HeadingCountConcat([""], rest);
    HeadingCountConcat(Block(category, body), Gap(rest));
  }

  lemma {:induction false} RenderCounts(names: seq<string>, m: Categories)
    requires NoDuplicates(names) && forall c :: c in names ==> c in STANDARD
    ensures HeadingCount(RenderList(names, m)) == |Restrict(m, names)| + Hidden(names, m)
  {
    if names != [] {
      var c, tail := names[0], names[1..];
      RestrictCons(m, names, map[]);
      assert c !in tail;
      RenderCounts(tail, m);
      if c in m {
        RenderCons(names, m);
        BlockCounts(c, m[c], RenderList(tail, m));
        RestrictSize(m, names);
      }
    }
  }

  lemma RestrictSize(m: Categories, names: seq<string>)
    requires names != [] && NoDuplicates(names) && names[0] in m
    ensures |Restrict(m, names)| == |Restrict(m, names[1..])| + 1
  {
    assert forall x :: x in names <==> x == names[0] || x in names[1..];
    assert Restrict(m, names).Keys == Restrict(m, names[1..]).Keys + {names[0]};
    assert names[0] !in Restrict(m, names[1..]);
  }

  /** The new section parses back to the merged categories exactly when no body hides a heading-like line. */
  lemma ParseRenderExactly(m: Categories)
    requires WellFormed(m)
    ensures Parse(Render(m)) == Ok(m) <==> PlainBodies(m)
  {
    assert Restrict(m, STANDARD) == m;
    if PlainBodies(m) {
      ParseRender(m);
    } else if Parse(Render(m)) == Ok(m) {
      ParsedIsPlain(STANDARD, m);
    }
  }

  lemma ParsedIsPlain(names: seq<string>, m: Categories)
    requires NoDuplicates(names) && (forall c :: c in names ==> c in STANDARD)
    requires Parse(RenderList(names, m)) == Ok(Restrict(m, names))
    ensures forall c :: c in m && c in names ==> Plain(m[c])
  {
    ScanCounts(RenderList(names, m), None, [], map[]);
    RenderCounts(names, m);
    forall c | c in m && c in names ensures Plain(m[c]) { HiddenNone(names, m, c); }
  }

  // ---- version headings ----

  predicate Digit(c: char) { '0' <= c <= '9' }

  predicate Digits(s: string) { s != "" && forall i :: 0 <= i < |s| ==> Digit(s[i]) }

  predicate TagChar(c: char) { Digit(c) || 'A' <= c <= 'Z' || 'a' <= c <= 'z' || c == '.' || c == '-' }

  function Find(s: string, c: char): (i: nat)
    ensures i <= |s| && (i < |s| ==> s[i] == c) && forall j :: 0 <= j < i ==> s[j] != c
  {
    if s == "" || s[0] == c then 0 else 1 + Find(s[1..], c)
  }

  /** Three dotted numbers. */
  predicate Core(s: string)
  {
    var i := Find(s, '.');
    i < |s| && Digits(s[..i])
    && var rest := s[i + 1..]; var j := Find(rest, '.');
       j < |rest| && Digits(rest[..j]) && Digits(rest[j + 1..])
  }

  /** A release version, with or without a pre-release tag. */
  predicate IsVersion(v: string)
  {
    var i := Find(v, '-');
    Core(v[..i]) && (i < |v| ==> i + 1 < |v| && forall j :: i < j < |v| ==> TagChar(v[j]))
  }

  predicate IsDate(d: string)
  {
    |d| == 10 && d[4] == '-' && d[7] == '-' && Digits(d[..4]) && Digits(d[5..7]) && Digits(d[8..])
  }

  function Heading(version: string, date: string): Line { "## [" + version + "] - " + date }

  /** The version a release heading names. */
  function VersionOf(line: Line): Option<string>
  {
    if !StartsWith(line, "## [") then None
    else
      var rest := line[4..];
      var i := Find(rest, ']');
      if IsVersion(rest[..i]) && StartsWith(rest[i..], "] - ") && IsDate(rest[i + 4..]) then Some(rest[..i]) else None
  }

  lemma CoreChars(s: string)
    requires Core(s)
    ensures ']' !in s
  {
    var i := Find(s, '.');
    var rest := s[i + 1..];
    var j := Find(rest, '.');
    forall k | 0 <= k < |s| ensures s[k] != ']' {
      if k > i {
        assert s[k] == rest[k - i - 1];
        if k - i - 1 > j { assert s[k] == rest[j + 1..][k - i - 1 - j - 1]; }
      }
    }
  }

  lemma VersionChars(v: string)
    requires IsVersion(v)
    ensures ']' !in v
  {
    CoreChars(v[..Find(v, '-')]);
    forall k | 0 <= k < |v| ensures v[k] != ']' {
      if k < Find(v, '-') { assert v[k] == v[..Find(v, '-')][k]; }
    }
  }

  lemma HeadingParts(version: string, date: string)
    ensures var line, rest := Heading(version, date), version + "] - " + date;
      && StartsWith(line, "## [") && line[4..] == rest
      && rest[..|version|] == version && rest[|version|..] == "] - " + date && rest[|version| + 4..] == date
  {
    assert Heading(version, date) == "## [" + (version + "] - " + date);
  }

  lemma HeadingVersion(version: string, date: string)
    requires IsVersion(version) && IsDate(date)
    ensures VersionOf(Heading(version, date)) == Some(version)
  {
    HeadingParts(version, date);
    VersionChars(version);
    var rest := version + "] - " + date;
    FindAt(rest, ']', |version|);
    assert StartsWith(rest[|version|..], "] - ");
  }

  lemma FindAt(s: string, c: char, i: nat)
    requires i < |s| && s[i] == c && forall j :: 0 <= j < i ==> s[j] != c
    ensures Find(s, c) == i
  {
  }

  // ---- what versions and headings look like ----

  /** A version is three dotted numbers and, after a dash, at least one letter, digit, dot or dash. */
  lemma VersionParts(v: string) returns (a: string, b: string, c: string, tag: string)
    requires IsVersion(v)
    ensures Digits(a) && Digits(b) && Digits(c) && forall i :: 0 <= i < |tag| ==> TagChar(tag[i])
    ensures v == a + "." + b + "." + c + (if tag == "" then "" else "-" + tag)
  {
    var i := Find(v, '-');
    a, b, c := CoreSplits(v[..i]);
    tag := if i < |v| then v[i + 1..] else "";
    if i < |v| { SplitAt(v, i); }
    forall l | 0 <= l < |tag| ensures TagChar(tag[l]) { assert tag[l] == v[i + 1 + l]; }
  }

  lemma CoreSplits(s: string) returns (a: string, b: string, c: string)
    requires Core(s)
    ensures Digits(a) && Digits(b) && Digits(c) && s == a + "." + b + "." + c
  {
    var j := Find(s, '.');
    var rest := s[j + 1..];
    var k := Find(rest, '.');
    a, b, c := s[..j], rest[..k], rest[k + 1..];
    SplitAt(s, j);
    SplitAt(rest, k);
    assert a + "." + (b + "." + c) == a + "." + b + "." + c;
  }

  lemma SplitAt(s: string, i: nat)
    requires i < |s|
    ensures s == s[..i] + [s[i]] + s[i + 1..]
  {
  }

  lemma CoreParts(a: string, b: string, c: string)
    requires Digits(a) && Digits(b) && Digits(c)
    ensures Core(a + "." + (b + "." + c))
  {
    var rest := b + "." + c;
    var core := a + "." + rest;
    DigitsLack(a, '.');
    DigitsLack(b, '.');
    FindAt(rest, '.', |b|);
    FindAt(core, '.', |a|);
    assert core[..|a|] == a && core[|a| + 1..] == rest && rest[..|b|] == b && rest[|b| + 1..] == c;
  }

  lemma CoreVersion(core: string, tag: string)
    requires Core(core) && '-' !in core && forall i :: 0 <= i < |tag| ==> TagChar(tag[i])
    ensures IsVersion(core) && (tag != "" ==> IsVersion(core + ("-" + tag)))
  {
    assert Find(core, '-') == |core| && core[..|core|] == core;
    if tag != "" {
      var v := core + ("-" + tag);
      FindAt(v, '-', |core|);
      assert v[..|core|] == core;
      assert forall j :: |core| < j < |v| ==> v[j] == tag[j - |core| - 1];
    }
  }

  /** Whatever has that form is a version. */
  lemma PartsVersion(a: string, b: string, c: string, tag: string)
    requires Digits(a) && Digits(b) && Digits(c) && forall i :: 0 <= i < |tag| ==> TagChar(tag[i])
    ensures IsVersion(a + "." + b + "." + c + (if tag == "" then "" else "-" + tag))
  {
    var core := a + "." + (b + "." + c);
    CoreParts(a, b, c);
    NoDash(a, b, c);
    CoreVersion(core, tag);
    assert a + "." + b + "." + c == core;
    assert core + "" == core;
  }

  lemma NoDash(a: string, b: string, c: string)
    requires Digits(a) && Digits(b) && Digits(c)
    ensures '-' !in a + "." + (b + "." + c)
  {
    DigitsLack(a, '-');
    DigitsLack(b, '-');
    DigitsLack(c, '-');
  }

  lemma DigitsLack(s: string, c: char)
    requires Digits(s) && !Digit(c)
    ensures forall i :: 0 <= i < |s| ==> s[i] != c
  {
  }

  /** A line names a version exactly when it is the release heading of that version and some date. */
  lemma HeadingExactly(line: Line, v: string)
    ensures VersionOf(line) == Some(v) <==>
      IsVersion(v) && |line| >= 10 && IsDate(line[|line| - 10..]) && line == Heading(v, line[|line| - 10..])
  {
    if VersionOf(line) == Some(v) { HeadingOnly(line, v); }
    if IsVersion(v) && |line| >= 10 && IsDate(line[|line| - 10..]) && line == Heading(v, line[|line| - 10..]) {
      HeadingVersion(v, line[|line| - 10..]);
    }
  }

  lemma HeadingOnly(line: Line, v: string)
    requires VersionOf(line) == Some(v)
    ensures IsVersion(v) && |line| >= 10 && IsDate(line[|line| - 10..]) && line == Heading(v, line[|line| - 10..])
  {
    var d := HeadingShape(line, v);
    assert line[|line| - 10..] == d;
  }

  lemma HeadingShape(line: Line, v: string) returns (d: string)
    requires VersionOf(line) == Some(v)
    ensures IsVersion(v) && IsDate(d) && line == Heading(v, d)
  {
    var rest := line[4..];
    var i := Find(rest, ']');
    d := rest[i + 4..];
    JoinAround(line, 4, "## [");
    JoinAround(rest[i..], 4, "] - ");
    assert rest[i..][4..] == d;
    JoinHeading(rest, i, v, d);
  }

  lemma JoinHeading(rest: string, i: nat, v: string, d: string)
    requires i <= |rest| && rest[..i] == v && rest[i..] == "] - " + d
    ensures "## [" + rest == Heading(v, d)
  {
    JoinAround(rest, i, v);
  }

  lemma JoinAround(s: string, n: nat, front: string)
    requires n <= |s| && s[..n] == front
    ensures s == front + s[n..]
  {
  }
}
