/**
 Rendering fragments and folding them into an existing changelog body
 (scripts/build_changelog.py, `render`, `_split_sections` and `merge_sections`).
 */
module ChangelogMerge {
  import opened Wrappers
  import opened Changelog

  const CATEGORIES: seq<string> := ["added", "changed", "deprecated", "removed", "fixed", "security"]

  /** Fragment bodies by category, in the order they are to appear. */
  type Fragments = map<string, seq<Lines>>

  // ---------------------------------------------------------------------------
  // Splits are proper

  lemma {:induction false} BlocksShape(x: Lines)
    ensures var bs := Blocks(x);
            && bs[0].category == ""
            && (forall i :: 0 < i < |bs| ==> ValidName(bs[i].category))
            && (forall i :: 0 <= i < |bs| ==> HeadingFree(bs[i].raw))
  {
    if x != [] {
      BlocksShape(x[..|x| - 1]);
      if Heading(x[|x| - 1]).Some? {
        HeadingNamesAreValid(x[|x| - 1]);
      }
    }
  }

  lemma {:induction false} FileUnderKeeps(ss: seq<Section>, c: string, chunk: Lines)
    requires Tidy(chunk)
    requires forall i :: 0 <= i < |ss| ==> Tidy(ss[i].chunk)
    requires forall i, j :: 0 <= i < j < |ss| ==> ss[i].category != ss[j].category
    ensures var r := FileUnder(ss, c, chunk);
            && |ss| <= |r| <= |ss| + 1
            && (forall i :: 0 <= i < |ss| ==> r[i].category == ss[i].category)
            && (|r| > |ss| ==> r[|ss|].category == c && !Has(ss, c))
            && (forall i :: 0 <= i < |r| ==> Tidy(r[i].chunk))
  {
    if ss != [] && ss[0].category != c {
      forall i | 0 <= i < |ss[1..]| ensures ss[1..][i] == ss[i + 1] {}
      FileUnderKeeps(ss[1..], c, chunk);
      var r := FileUnder(ss, c, chunk);
      forall i | 0 <= i < |r| ensures Tidy(r[i].chunk) {
        if i > 0 { assert r[i] == FileUnder(ss[1..], c, chunk)[i - 1]; }
      }
      if |r| > |ss| {
        forall i | 0 <= i < |ss| ensures ss[i].category != c {
          if i > 0 { assert ss[i] == ss[1..][i - 1]; }
        }
      }
    }
  }

  lemma {:induction false} FileAllProper(bs: seq<Block>)
    requires bs != [] ==> bs[0].category == ""
    requires forall i :: 0 < i < |bs| ==> ValidName(bs[i].category)
    ensures Proper(FileAll(bs))
  {
    if bs != [] {
      var n := |bs| - 1;
      FileAllProper(bs[..n]);
      StripIsTidy(bs[n].raw);
      if Strip(bs[n].raw) != [] {
        var ss := FileAll(bs[..n]);
        FileUnderKeeps(ss, bs[n].category, Strip(bs[n].raw));
        if n == 0 { assert bs[..n] == []; }
        var r := FileAll(bs);
        forall i, j | 0 <= i < j < |r| ensures r[i].category != r[j].category {
          if j == |ss| { assert ss[i].category == r[i].category; }
        }
      }
    }
  }

  lemma SplitIsProper(x: Lines)
    ensures Proper(Split(x))
  {
    BlocksShape(x);
    FileAllProper(Blocks(x));
  }

  // ---------------------------------------------------------------------------
  // When a split holds a stray heading

  /** No stripped block of the text begins with an indented heading line. */
  ghost predicate NoIndentedHeading(x: Lines) {
    forall i :: 0 <= i < |Blocks(x)| ==>
      var stripped := Strip(Blocks(x)[i].raw); stripped == [] || Heading(stripped[0]).None?
  }

  lemma {:induction false} TrimBottomFree(x: Lines)
    requires HeadingFree(x)
    ensures HeadingFree(TrimBottom(x))
  {
    if x != [] {
      var n := |x| - 1;
      if Blank(x[n]) {
        TrimBottomFree(x[..n]);
      } else {
        assert x[n] in x;
        HeadingIgnoresTail(x[n]);
      }
    }
  }

  /** Of a stripped plain text only the first line can read as a heading. */
  lemma {:induction false} TrimTopStray(x: Lines)
    requires HeadingFree(x)
    ensures HeadingCount(TrimTop(x)) == if TrimTop(x) != [] && Heading(TrimTop(x)[0]).Some? then 1 else 0
  {
    if x != [] {
      if Blank(x[0]) {
        TrimTopStray(x[1..]);
      } else {
        CountConcat([LStrip(x[0])], x[1..]);
        CountOne(LStrip(x[0]));
        HeadingFreeIffNone(x[1..]);
      }
    }
  }

  lemma StripStray(x: Lines)
    requires HeadingFree(x)
    ensures HeadingCount(Strip(x)) == if Strip(x) != [] && Heading(Strip(x)[0]).Some? then 1 else 0
  {
    TrimBottomFree(x);
    TrimTopStray(TrimBottom(x));
  }

  lemma {:induction false} StrayOfBlocks(bs: seq<Block>)
    requires forall i :: 0 <= i < |bs| ==> HeadingFree(bs[i].raw)
    ensures StrayHeadings(FileAll(bs)) == 0 <==>
            forall i :: 0 <= i < |bs| ==> var stripped := Strip(bs[i].raw); stripped == [] || Heading(stripped[0]).None?
  {
    if bs != [] {
      var n := |bs| - 1;
      StrayOfBlocks(bs[..n]);
      StripStray(bs[n].raw);
      FileUnderCounts(FileAll(bs[..n]), bs[n].category, Strip(bs[n].raw));
      assert bs == bs[..n] + [bs[n]];
    }
  }

  lemma StrayIffIndented(x: Lines)
    ensures AllHeadingFree(Split(x)) <==> NoIndentedHeading(x)
  {
    BlocksShape(x);
    StrayOfBlocks(Blocks(x));
    NoStrayIffFree(Split(x));
  }

  // ---------------------------------------------------------------------------
  // Rendering

  function Indented(x: Lines): Lines {
    if x == [] then [] else Indented(x[..|x| - 1]) + [if Blank(x[|x| - 1]) then "" else "  " + x[|x| - 1]]
  }

  /** One entry: a bullet that owns all its lines, and a blank line. */
  function EntryLines(body: Lines): Lines {
    (if body == [] then ["- "] else ["- " + body[0]] + Indented(body[1..])) + [""]
  }

  function EntriesLines(entries: seq<Lines>): Lines {
    if entries == [] then [] else EntriesLines(entries[..|entries| - 1]) + EntryLines(entries[|entries| - 1])
  }

  predicate HasEntries(fr: Fragments, c: string) { c in fr && fr[c] != [] }

  function RenderAll(fr: Fragments, cats: seq<string>): Lines {
    if cats == [] then []
    else
      var n := |cats| - 1;
      RenderAll(fr, cats[..n])
      + (if HasEntries(fr, cats[n]) then [HeadingLine(cats[n]), ""] + EntriesLines(fr[cats[n]]) else [])
  }

  function Render(fr: Fragments, cats: seq<string>): Lines {
    var x := RenderAll(fr, cats);
    if x == [] then [] else TrimBottom(x) + [""]
  }

  /** The sections rendered text is meant to hold. */
  function Rendered(fr: Fragments, cats: seq<string>): seq<Section> {
    if cats == [] then []
    else
      var n := |cats| - 1;
      Rendered(fr, cats[..n])
          + (if HasEntries(fr, cats[n]) then [Section(cats[n], Strip(EntriesLines(fr[cats[n]])))] else [])
  }

  lemma {:induction false} IndentedIsPlain(x: Lines)
    ensures HeadingFree(Indented(x))
  {
    if x != [] {
      IndentedIsPlain(x[..|x| - 1]);
      NoHeadingWithoutHash("");
      NoHeadingWithoutHash("  " + x[|x| - 1]);
    }
  }

  lemma EntryIsPlain(body: Lines)
    ensures HeadingFree(EntryLines(body)) && EntryLines(body) != [] && StartsClean(EntryLines(body)[0])
  {
    NoHeadingWithoutHash("");
    NoHeadingWithoutHash("- ");
    var first := if body == [] then "- " else "- " + body[0];
    assert EntryLines(body)[0] == first;
    NoHeadingWithoutHash(first);
    if body != [] { IndentedIsPlain(body[1..]); }
  }

  /** Fragment text can never create a heading, and a category with entries is never empty. */
  lemma {:induction false} EntriesArePlain(entries: seq<Lines>)
    ensures HeadingFree(EntriesLines(entries))
    ensures entries != [] ==>
              EntriesLines(entries) != [] && StartsClean(EntriesLines(entries)[0]) && Strip(EntriesLines(entries)) != []
  {
    if entries != [] {
      var n := |entries| - 1;
      EntriesArePlain(entries[..n]);
      EntryIsPlain(entries[n]);
      var x := EntriesLines(entries);
      CountConcat([x[0]], x[1..]);
      assert x == [x[0]] + x[1..];
      NotBlank(x[0]);
      CountOne(x[0]);
      StripCounts(x);
    }
  }

  ghost predicate GoodNames(cats: seq<string>) {
    && (forall i :: 0 <= i < |cats| ==> ValidName(cats[i]))
    && (forall i, j :: 0 <= i < j < |cats| ==> cats[i] != cats[j])
  }

  lemma CategoriesAreGood()
    ensures GoodNames(CATEGORIES)
  {
    CategoriesAreValid();
    CategoriesAreDistinct();
  }

  lemma CategoriesAreValid()
    ensures forall i :: 0 <= i < |CATEGORIES| ==> ValidName(CATEGORIES[i])
  {
    assert ValidName("added") && ValidName("changed") && ValidName("deprecated");
    assert ValidName("removed") && ValidName("fixed") && ValidName("security");
  }

  lemma CategoriesAreDistinct()
    ensures forall i, j :: 0 <= i < j < |CATEGORIES| ==> CATEGORIES[i] != CATEGORIES[j]
  {
    assert CATEGORIES[0][0] == 'a' && CATEGORIES[1][0] == 'c' && CATEGORIES[2][0] == 'd';
    assert CATEGORIES[3][0] == 'r' && CATEGORIES[4][0] == 'f' && CATEGORIES[5][0] == 's';
  }

  lemma {:induction false} RenderedCategories(fr: Fragments, cats: seq<string>)
    ensures forall i :: 0 <= i < |Rendered(fr, cats)| ==> Rendered(fr, cats)[i].category in cats
  {
    if cats != [] {
      RenderedCategories(fr, cats[..|cats| - 1]);
      assert cats == cats[..|cats| - 1] + [cats[|cats| - 1]];
    }
  }

  lemma {:induction false} SplitRenderAll(fr: Fragments, cats: seq<string>)
    requires GoodNames(cats)
    ensures Split(RenderAll(fr, cats)) == Rendered(fr, cats)
  {
    if cats == [] {
      FileLast([], Block("", []));
    } else {
      var n := |cats| - 1;
      var c := cats[n];
      SplitRenderAll(fr, cats[..n]);
      if HasEntries(fr, c) {
        var x := EntriesLines(fr[c]);
        EntriesArePlain(fr[c]);
        FeedConcat(OPENING, RenderAll(fr, cats[..n]), [HeadingLine(c), ""] + x);
        FeedSection(Blocks(RenderAll(fr, cats[..n])), c, x);
        RenderedCategories(fr, cats[..n]);
        assert !Has(Rendered(fr, cats[..n]), c);
        FileNew(Rendered(fr, cats[..n]), c, Strip(x));
      } else {
        assert RenderAll(fr, cats) == RenderAll(fr, cats[..n]);
      }
    }
  }

  /** Trailing white space of the last line does not matter to the sections. */
  lemma SplitTrimLine(bs: seq<Block>, l: string)
    requires bs != [] && !Blank(l)
    ensures FileAll(Feed(bs, [RStrip(l)])) == FileAll(Feed(bs, [l]))
  {
    var r := RStrip(l);
    HeadingIgnoresTail(l);
    assert [l][..0] == [] && [r][..0] == [];
    if Heading(l).None? {
      var raw := bs[|bs| - 1].raw;
      FeedPlain(bs, [l]);
      FeedPlain(bs, [r]);
      RStripFacts(l);
      NotBlank(r);
      assert (raw + [l])[..|raw|] == raw && (raw + [r])[..|raw|] == raw;
      assert TrimBottom(raw + [l]) == TrimBottom(raw + [r]);
      FileSameLast(Feed(bs, [r]), raw + [l]);
    }
  }

  /** White space at the end of a text does not matter to its sections. */
  lemma {:induction false} SplitTrimBottom(x: Lines)
    ensures Split(TrimBottom(x)) == Split(x)
  {
    if x != [] {
      var n := |x| - 1;
      assert x == x[..n] + [x[n]];
      FeedConcat(OPENING, x[..n], [x[n]]);
      if Blank(x[n]) {
        SplitTrimBottom(x[..n]);
        FeedBlank(Blocks(x[..n]), x[n]);
      } else {
        FeedConcat(OPENING, x[..n], [RStrip(x[n])]);
        SplitTrimLine(Blocks(x[..n]), x[n]);
      }
    }
  }

  /** Splitting the rendered fragments gives one section per category with entries, in order, holding exactly them. */
  lemma SplitUndoesRender(fr: Fragments, cats: seq<string>)
    requires GoodNames(cats)
    ensures Split(Render(fr, cats)) == Rendered(fr, cats)
  {
    SplitRenderAll(fr, cats);
    var x := RenderAll(fr, cats);
    if x != [] {
      SplitTrimBottom(x);
      FeedConcat(OPENING, TrimBottom(x), [""]);
      FeedBlank(Blocks(TrimBottom(x)), "");
    }
  }

  lemma {:induction false} RenderedIsPlain(fr: Fragments, cats: seq<string>)
    ensures AllHeadingFree(Rendered(fr, cats))
  {
    if cats != [] {
      var c := cats[|cats| - 1];
      RenderedIsPlain(fr, cats[..|cats| - 1]);
      if HasEntries(fr, c) {
        var x := EntriesLines(fr[c]);
        EntriesArePlain(fr[c]);
        StripStray(x);
        StripKeepsFirst(x);
        HeadingFreeIffNone(Strip(x));
      }
    }
  }

  /** A text whose first line starts clean keeps that start when stripped. */
  lemma StripKeepsFirst(x: Lines)
    requires HeadingFree(x) && x != [] && StartsClean(x[0])
    ensures Strip(x) != [] && Heading(Strip(x)[0]).None?
  {
    NotBlank(x[0]);
    TrimBottomFirst(x);
    TrimBottomFree(x);
    var y := TrimBottom(x);
    NotBlank(y[0]);
    assert Strip(x)[0] == y[0];
  }

  lemma {:induction false} TrimBottomFirst(x: Lines)
    requires x != [] && StartsClean(x[0])
    ensures TrimBottom(x) != [] && StartsClean(TrimBottom(x)[0])
  {
    NotBlank(x[0]);
    var n := |x| - 1;
    if Blank(x[n]) {
      TrimBottomFirst(x[..n]);
    } else {
      RStripFacts(x[n]);
    }
  }

  // ---------------------------------------------------------------------------
  // Merging

  function Get(ss: seq<Section>, c: string): Option<Lines> {
    if ss == [] then None else if ss[0].category == c then Some(ss[0].chunk) else Get(ss[1..], c)
  }

  /** What is there, followed by what is new. */
  function Join(there: Option<Lines>, more: Option<Lines>): Option<Lines> {
    match (there, more)
    case (Some(a), Some(b)) => Some(a + [""] + b)
    case (Some(_), None) => there
    case (None, _) => more
  }

  function AsSection(c: string, chunk: Option<Lines>): seq<Section> {
    match chunk
    case Some(x) => [Section(c, x)]
    case None => []
  }

  function Known(ss: seq<Section>, rendered: seq<Section>, cats: seq<string>): seq<Section> {
    if cats == [] then []
    else
      var c := cats[|cats| - 1];
      Known(ss, rendered, cats[..|cats| - 1]) + AsSection(c, Join(Get(ss, c), Get(rendered, c)))
  }

  predicate IsUnknown(c: string, cats: seq<string>) { c != "" && c !in cats }

  function Unknown(ss: seq<Section>, cats: seq<string>): seq<Section> {
    if ss == [] then [] else (if IsUnknown(ss[0].category, cats) then [ss[0]] else []) + Unknown(ss[1..], cats)
  }

  /** The preamble, then the known categories in their order, then any other in the order found. */
  function Merged(ss: seq<Section>, rendered: seq<Section>, cats: seq<string>): seq<Section> {
    AsSection("", Get(ss, "")) + Known(ss, rendered, cats) + Unknown(ss, cats)
  }

  function Merge(existing: Lines, fr: Fragments, cats: seq<string>): Lines {
    Compose(Merged(Split(existing), Split(Render(fr, cats)), cats))
  }

  // ---- lookups ---------------------------------------------------------------------

  lemma {:induction false} GetFacts(ss: seq<Section>, c: string)
    requires forall i, j :: 0 <= i < j < |ss| ==> ss[i].category != ss[j].category
    ensures Get(ss, c).Some? <==> Has(ss, c)
    ensures forall i :: 0 <= i < |ss| && ss[i].category == c ==> Get(ss, c) == Some(ss[i].chunk)
  {
    if ss != [] {
      forall i | 0 <= i < |ss[1..]| ensures ss[1..][i] == ss[i + 1] {}
      GetFacts(ss[1..], c);
      forall i | 0 <= i < |ss| && ss[i].category == c ensures Get(ss, c) == Some(ss[i].chunk) {
        if i > 0 { assert ss[i] == ss[1..][i - 1]; }
      }
      if Has(ss, c) && ss[0].category != c {
        var i :| 0 <= i < |ss| && ss[i].category == c;
        assert ss[1..][i - 1].category == c;
      }
      if Has(ss[1..], c) {
        var i :| 0 <= i < |ss[1..]| && ss[1..][i].category == c;
        assert ss[i + 1].category == c;
      }
    }
  }

  lemma {:induction false} GetConcat(a: seq<Section>, b: seq<Section>, c: string)
    ensures Get(a + b, c) == if Get(a, c).Some? then Get(a, c) else Get(b, c)
  {
    if a == [] {
      assert a + b == b;
    } else {
      assert (a + b)[1..] == a[1..] + b;
      GetConcat(a[1..], b, c);
    }
  }

  lemma GetAsSection(c: string, chunk: Option<Lines>, d: string)
    ensures Get(AsSection(c, chunk), d) == if c == d then chunk else None
  {
    if chunk.Some? { assert [Section(c, chunk.value)][1..] == []; }
  }

  lemma {:induction false} GetKnown(ss: seq<Section>, rd: seq<Section>, cats: seq<string>, c: string)
    ensures Get(Known(ss, rd, cats), c) == if c in cats then Join(Get(ss, c), Get(rd, c)) else None
  {
    if cats != [] {
      var n := |cats| - 1;
      GetKnown(ss, rd, cats[..n], c);
      GetConcat(Known(ss, rd, cats[..n]), AsSection(cats[n], Join(Get(ss, cats[n]), Get(rd, cats[n]))), c);
      GetAsSection(cats[n], Join(Get(ss, cats[n]), Get(rd, cats[n])), c);
      assert cats == cats[..n] + [cats[n]];
    }
  }

  lemma {:induction false} GetUnknown(ss: seq<Section>, c: string, cats: seq<string>)
    ensures Get(Unknown(ss, cats), c) == if IsUnknown(c, cats) then Get(ss, c) else None
  {
    if ss != [] {
      GetUnknown(ss[1..], c, cats);
      var first := if IsUnknown(ss[0].category, cats) then [ss[0]] else [];
      GetConcat(first, Unknown(ss[1..], cats), c);
      if first != [] { assert first[1..] == []; }
    }
  }

  /** Per category: the existing chunk followed by the rendered one; preamble and other headings are carried over. */
  lemma MergedLookup(ss: seq<Section>, rd: seq<Section>, c: string, cats: seq<string>)
    requires GoodNames(cats)
    ensures c in cats ==> Get(Merged(ss, rd, cats), c) == Join(Get(ss, c), Get(rd, c))
    ensures c !in cats ==> Get(Merged(ss, rd, cats), c) == Get(ss, c)
  {
    var front, known, rest := AsSection("", Get(ss, "")), Known(ss, rd, cats), Unknown(ss, cats);
    GetConcat(front + known, rest, c);
    GetConcat(front, known, c);
    GetAsSection("", Get(ss, ""), c);
    GetKnown(ss, rd, cats, c);
    GetUnknown(ss, c, cats);
  }

  // ---- merged sections are proper ----------------------------------------------------

  ghost predicate AllTidy(ss: seq<Section>) { forall i :: 0 <= i < |ss| ==> Tidy(ss[i].chunk) }

  ghost predicate AllDistinct(ss: seq<Section>) {
    forall i, j :: 0 <= i < j < |ss| ==> ss[i].category != ss[j].category
  }

  lemma GetTidy(ss: seq<Section>, c: string)
    requires Proper(ss) && Get(ss, c).Some?
    ensures Tidy(Get(ss, c).value)
  {
    GetFacts(ss, c);
    var i :| 0 <= i < |ss| && ss[i].category == c;
  }

  lemma {:induction false} KnownShape(ss: seq<Section>, rd: seq<Section>, cats: seq<string>)
    requires Proper(ss) && Proper(rd) && GoodNames(cats)
    ensures AllTidy(Known(ss, rd, cats)) && AllDistinct(Known(ss, rd, cats))
    ensures forall i :: 0 <= i < |Known(ss, rd, cats)| ==> Known(ss, rd, cats)[i].category in cats
  {
    if cats != [] {
      var n := |cats| - 1;
      var c := cats[n];
      KnownShape(ss, rd, cats[..n]);
      assert cats == cats[..n] + [c];
      assert c !in cats[..n];
      if Get(ss, c).Some? { GetTidy(ss, c); }
      if Get(rd, c).Some? { GetTidy(rd, c); }
    }
  }

  lemma {:induction false} UnknownShape(ss: seq<Section>, cats: seq<string>)
    requires AllTidy(ss) && AllDistinct(ss)
    ensures AllTidy(Unknown(ss, cats)) && AllDistinct(Unknown(ss, cats))
    ensures forall i :: 0 <= i < |Unknown(ss, cats)| ==>
              IsUnknown(Unknown(ss, cats)[i].category, cats) && Has(ss, Unknown(ss, cats)[i].category)
  {
    if ss != [] {
      forall i | 0 <= i < |ss[1..]| ensures ss[1..][i] == ss[i + 1] {}
      UnknownShape(ss[1..], cats);
      var u := Unknown(ss[1..], cats);
      forall i | 0 <= i < |u| ensures Has(ss, u[i].category) && u[i].category != ss[0].category {
        var j :| 0 <= j < |ss[1..]| && ss[1..][j].category == u[i].category;
        assert ss[j + 1].category == u[i].category;
      }
      assert Has(ss, ss[0].category);
    }
  }

  lemma DistinctConcat(a: seq<Section>, b: seq<Section>)
    requires AllDistinct(a) && AllDistinct(b)
    requires forall i, j :: 0 <= i < |a| && 0 <= j < |b| ==> a[i].category != b[j].category
    ensures AllDistinct(a + b)
  {
  }

  lemma MergedIsProper(ss: seq<Section>, rd: seq<Section>, cats: seq<string>)
    requires GoodNames(cats)
    requires Proper(ss) && Proper(rd)
    ensures Proper(Merged(ss, rd, cats))
  {
    KnownShape(ss, rd, cats);
    UnknownShape(ss, cats);
    var front, known, rest := AsSection("", Get(ss, "")), Known(ss, rd, cats), Unknown(ss, cats);
    if Get(ss, "").Some? { GetTidy(ss, ""); }
    DistinctConcat(front, known);
    DistinctConcat(front + known, rest);
    var m := Merged(ss, rd, cats);
    forall i | 0 <= i < |m| ensures (m[i].category == "" && i == 0) || ValidName(m[i].category) {
      if i >= |front| + |known| {
        var j :| 0 <= j < |ss| && ss[j].category == m[i].category;
      }
    }
  }

  lemma JoinFree(there: Option<Lines>, more: Option<Lines>)
    requires there.Some? ==> HeadingFree(there.value)
    requires more.Some? ==> HeadingFree(more.value)
    ensures Join(there, more).Some? ==> HeadingFree(Join(there, more).value)
  {
    NoHeadingWithoutHash("");
  }

  lemma JoinHolds(there: Lines, more: Option<Lines>)
    requires HeadingFree(Join(Some(there), more).value)
    ensures HeadingFree(there)
  {
    var all := Join(Some(there), more).value;
    forall l | l in there ensures Heading(l).None? {
      var k :| 0 <= k < |there| && there[k] == l;
      assert all[k] == l;
    }
  }

  lemma MergedFree(ss: seq<Section>, rd: seq<Section>, cats: seq<string>)
    requires GoodNames(cats)
    requires Proper(ss) && Proper(rd) && AllHeadingFree(rd) && AllHeadingFree(ss)
    ensures AllHeadingFree(Merged(ss, rd, cats))
  {
    var m := Merged(ss, rd, cats);
    MergedIsProper(ss, rd, cats);
    forall i | 0 <= i < |m| ensures HeadingFree(m[i].chunk) {
      var c := m[i].category;
      GetFacts(m, c);
      MergedLookup(ss, rd, c, cats);
      GetFree(ss, c);
      GetFree(rd, c);
      JoinFree(Get(ss, c), Get(rd, c));
    }
  }

  /** A stray heading in the existing sections survives the merge, and merging adds none. */
  lemma MergedStray(ss: seq<Section>, rd: seq<Section>, cats: seq<string>)
    requires GoodNames(cats)
    requires Proper(ss) && Proper(rd) && AllHeadingFree(rd)
    ensures AllHeadingFree(Merged(ss, rd, cats)) <==> AllHeadingFree(ss)
  {
    if AllHeadingFree(ss) {
      MergedFree(ss, rd, cats);
    }
    if AllHeadingFree(Merged(ss, rd, cats)) {
      forall i | 0 <= i < |ss| ensures HeadingFree(ss[i].chunk) {
        var c := ss[i].category;
        GetFacts(ss, c);
        MergedLookup(ss, rd, c, cats);
        GetFree(Merged(ss, rd, cats), c);
        if c in cats { JoinHolds(ss[i].chunk, Get(rd, c)); }
      }
    }
  }

  lemma {:induction false} GetFree(ss: seq<Section>, c: string)
    requires AllHeadingFree(ss)
    ensures Get(ss, c).Some? ==> HeadingFree(Get(ss, c).value)
  {
    if ss != [] {
      forall i | 0 <= i < |ss[1..]| ensures HeadingFree(ss[1..][i].chunk) { assert ss[1..][i] == ss[i + 1]; }
      GetFree(ss[1..], c);
    }
  }

  /**
   Merge and split undo each other: re-splitting a merged body gives the preamble, then per known
   category the existing chunk followed by the rendered fragments, then the other categories,
   if and only if no stripped chunk or preamble of the existing body begins with an indented
   heading line.
   */
  lemma SplitUndoesMerge(existing: Lines, fr: Fragments, cats: seq<string>)
    requires GoodNames(cats)
    ensures Split(Merge(existing, fr, cats)) == Merged(Split(existing), Rendered(fr, cats), cats)
        <==> NoIndentedHeading(existing)
  {
    var ss, rd := Split(existing), Split(Render(fr, cats));
    SplitUndoesRender(fr, cats);
    RenderedIsPlain(fr, cats);
    SplitIsProper(existing);
    SplitIsProper(Render(fr, cats));
    MergedIsProper(ss, rd, cats);
    MergedStray(ss, rd, cats);
    StrayIffIndented(existing);
    SplitUndoesCompose(Merged(ss, rd, cats));
  }

  // ---- merging again -------------------------------------------------------------------

  lemma {:induction false} KnownAgain(ss: seq<Section>, m: seq<Section>, rd: seq<Section>, cats: seq<string>)
    requires forall c :: c in cats ==> Get(m, c) == Join(Get(ss, c), Get(rd, c))
    ensures Known(m, [], cats) == Known(ss, rd, cats)
  {
    if cats != [] {
      var n := |cats| - 1;
      assert cats[n] in cats;
      KnownAgain(ss, m, rd, cats[..n]);
    }
  }

  lemma {:induction false} UnknownConcat(a: seq<Section>, b: seq<Section>, cats: seq<string>)
    ensures Unknown(a + b, cats) == Unknown(a, cats) + Unknown(b, cats)
    decreases |a|
  {
    if a == [] {
      assert a + b == b;
    } else {
      var first := if IsUnknown(a[0].category, cats) then [a[0]] else [];
      assert (a + b)[1..] == a[1..] + b && (a + b)[0] == a[0];
      UnknownConcat(a[1..], b, cats);
      assert Unknown(a, cats) == first + Unknown(a[1..], cats);
      assert Unknown(a + b, cats) == first + (Unknown(a[1..], cats) + Unknown(b, cats));
    }
  }

  lemma {:induction false} UnknownOf(ss: seq<Section>, keep: bool, cats: seq<string>)
    requires forall i :: 0 <= i < |ss| ==> (IsUnknown(ss[i].category, cats) <==> keep)
    ensures Unknown(ss, cats) == if keep then ss else []
  {
    if ss != [] {
      forall i | 0 <= i < |ss[1..]| ensures ss[1..][i] == ss[i + 1] {}
      UnknownOf(ss[1..], keep, cats);
    }
  }

  lemma UnknownOfKnown(ss: seq<Section>, rd: seq<Section>, cats: seq<string>)
    requires GoodNames(cats) && Proper(ss) && Proper(rd)
    ensures Unknown(Known(ss, rd, cats), cats) == []
  {
    KnownShape(ss, rd, cats);
    UnknownOf(Known(ss, rd, cats), false, cats);
  }

  lemma {:induction false} UnknownTwice(ss: seq<Section>, cats: seq<string>)
    ensures Unknown(Unknown(ss, cats), cats) == Unknown(ss, cats)
  {
    if ss != [] {
      UnknownTwice(ss[1..], cats);
      if IsUnknown(ss[0].category, cats) {
        assert ([ss[0]] + Unknown(ss[1..], cats))[1..] == Unknown(ss[1..], cats);
      } else {
        assert Unknown(ss, cats) == Unknown(ss[1..], cats);
      }
    }
  }

  lemma UnknownOfMerged(ss: seq<Section>, rd: seq<Section>, cats: seq<string>)
    requires GoodNames(cats)
    requires Proper(ss) && Proper(rd)
    ensures Unknown(Merged(ss, rd, cats), cats) == Unknown(ss, cats)
  {
    var front, known, rest := AsSection("", Get(ss, "")), Known(ss, rd, cats), Unknown(ss, cats);
    UnknownOf(front, false, cats);
    UnknownOfKnown(ss, rd, cats);
    UnknownTwice(ss, cats);
    UnknownConcat(front + known, rest, cats);
    UnknownConcat(front, known, cats);
  }

  /** Merged sections are already in merged form. */
  lemma MergedAgain(ss: seq<Section>, rd: seq<Section>, cats: seq<string>)
    requires GoodNames(cats)
    requires Proper(ss) && Proper(rd)
    ensures Merged(Merged(ss, rd, cats), [], cats) == Merged(ss, rd, cats)
  {
    var m := Merged(ss, rd, cats);
    forall c | c in cats ensures Get(m, c) == Join(Get(ss, c), Get(rd, c)) { MergedLookup(ss, rd, c, cats); }
    MergedLookup(ss, rd, "", cats);
    KnownAgain(ss, m, rd, cats);
    UnknownOfMerged(ss, rd, cats);
  }

  lemma {:induction false} NothingRendered(cats: seq<string>)
    ensures Rendered(map[], cats) == []
  {
    if cats != [] { NothingRendered(cats[..|cats| - 1]); }
  }

  /**
   The condition is needed: an indented heading at the start of a chunk turns into a real one when
   the chunk is stripped.
   */
  lemma IndentedHeadingIsLost()
    ensures var x := [" ### A"];
            Split(Merge(x, map[], CATEGORIES)) != Merged(Split(x), Rendered(map[], CATEGORIES), CATEGORIES)
  {
    CategoriesAreGood();
    var l := " ### A";
    HeadingRoundTrip("a");
    assert HeadingLine("a") == "### A";
    NoHeadingWithoutHash(l);
    FeedPlain(OPENING, [l]);
    assert Blocks([l])[0].raw == [l];
    StripsToHeading();
    assert !NoIndentedHeading([l]);
    SplitUndoesMerge([l], map[], CATEGORIES);
  }

  lemma StripsToHeading()
    ensures Strip([" ### A"]) == ["### A"]
  {
    var l := " ### A";
    assert l[1..] == "### A" && l[1] in l;
    assert LStrip(l) == "### A" && RStrip(l) == l;
    var x: Lines := [l];
    assert x[..0] == [] && x[1..] == [];
    assert TrimBottom(x) == [l];
  }

  // ---------------------------------------------------------------------------
  // The loops of the source

  /** Cuts a body at its headings and files each stripped chunk under its category. */
  method SplitSections(body: Lines) returns (sections: seq<Section>)
    ensures sections == Split(body)
  {
    var blocks := OPENING;
    for i := 0 to |body|
      invariant blocks == Blocks(body[..i])
    {
      assert body[..i + 1][..i] == body[..i];
      var last := blocks[|blocks| - 1];
      match Heading(body[i])
      case Some(c) => blocks := blocks + [Block(c, [])];
      case None => blocks := blocks[|blocks| - 1 := Block(last.category, last.raw + [body[i]])];
    }
    assert body[..|body|] == body;
    sections := [];
    for i := 0 to |blocks|
      invariant sections == FileAll(blocks[..i])
    {
      assert blocks[..i + 1][..i] == blocks[..i];
      var chunk := Strip(blocks[i].raw);
      if chunk != [] {
        sections := FileUnder(sections, blocks[i].category, chunk);
      }
    }
    assert blocks[..|blocks|] == blocks;
  }

  method RenderFragments(fr: Fragments, cats: seq<string>) returns (text: Lines)
    requires GoodNames(cats)
    ensures text == Render(fr, cats)
    ensures Split(text) == Rendered(fr, cats)
  {
    var x: Lines := [];
    for i := 0 to |cats|
      invariant x == RenderAll(fr, cats[..i])
    {
      var c := cats[i];
      assert cats[..i + 1][..i] == cats[..i];
      if HasEntries(fr, c) {
        var lines: Lines := [];
        var entries := fr[c];
        for j := 0 to |entries|
          invariant lines == EntriesLines(entries[..j])
        {
          assert entries[..j + 1][..j] == entries[..j];
          lines := lines + EntryLines(entries[j]);
        }
        assert entries[..|entries|] == entries;
        x := x + ([HeadingLine(c), ""] + lines);
      }
    }
    assert cats[..|cats|] == cats;
    text := if x == [] then [] else TrimBottom(x) + [""];
    SplitUndoesRender(fr, cats);
  }

  method KnownSections(sections: seq<Section>, rendered: seq<Section>, cats: seq<string>) returns (known: seq<Section>)
    ensures known == Known(sections, rendered, cats)
  {
    known := [];
    for i := 0 to |cats|
      invariant known == Known(sections, rendered, cats[..i])
    {
      assert cats[..i + 1][..i] == cats[..i];
      known := known + AsSection(cats[i], Join(Get(sections, cats[i]), Get(rendered, cats[i])));
    }
    assert cats[..|cats|] == cats;
  }

  method OtherSections(sections: seq<Section>, cats: seq<string>) returns (others: seq<Section>)
    ensures others == Unknown(sections, cats)
  {
    others := [];
    for i := 0 to |sections|
      invariant others + Unknown(sections[i..], cats) == Unknown(sections, cats)
    {
      assert sections[i..][1..] == sections[i + 1..];
      if IsUnknown(sections[i].category, cats) {
        others := others + [sections[i]];
      }
    }
  }

  /** Folds fragments into an existing body with one heading per category. */
  method MergeSections(existing: Lines, fr: Fragments, cats: seq<string>) returns (text: Lines)
    requires GoodNames(cats)
    ensures text == Merge(existing, fr, cats)
    ensures NoIndentedHeading(existing) <==> Split(text) == Merged(Split(existing), Rendered(fr, cats), cats)
  {
    var sections := SplitSections(existing);
    var body := RenderFragments(fr, cats);
    var rendered := SplitSections(body);
    var known := KnownSections(sections, rendered, cats);
    var others := OtherSections(sections, cats);
    text := Compose(AsSection("", Get(sections, "")) + known + others);
    SplitUndoesMerge(existing, fr, cats);
  }
}
