/**
 The headings of a merged changelog body (scripts/build_changelog.py, `merge_sections`).
 */
module ChangelogHeadings {
  import opened Changelog
  import opened ChangelogMerge
  import opened Wrappers

  /** The categories a text has headings for, in order, with repetitions. */
  function HeadingsOf(x: Lines): seq<string> {
    if x == [] then []
    else HeadingsOf(x[..|x| - 1]) + (match Heading(x[|x| - 1]) case Some(c) => [c] case None => [])
  }

  function Names(ss: seq<Section>): seq<string> {
    if ss == [] then []
    else Names(ss[..|ss| - 1]) + (if ss[|ss| - 1].category == "" then [] else [ss[|ss| - 1].category])
  }

  lemma {:induction false} HeadingsConcat(a: Lines, b: Lines)
    ensures HeadingsOf(a + b) == HeadingsOf(a) + HeadingsOf(b)
    decreases |b|
  {
    if b == [] {
      assert a + b == a;
    } else {
      assert (a + b)[..|a + b| - 1] == a + b[..|b| - 1];
      HeadingsConcat(a, b[..|b| - 1]);
    }
  }

  lemma {:induction false} NoHeadingsOf(x: Lines)
    requires HeadingFree(x)
    ensures HeadingsOf(x) == []
  {
    if x != [] {
      assert x[|x| - 1] in x;
      NoHeadingsOf(x[..|x| - 1]);
    }
  }

  lemma ItemHeadings(s: Section)
    requires HeadingFree(s.chunk) && (s.category == "" || ValidName(s.category))
    ensures HeadingsOf(Item(s)) == if s.category == "" then [] else [s.category]
  {
    NoHeadingsOf(s.chunk);
    if s.category != "" {
      HeadingRoundTrip(s.category);
      NoHeadingWithoutHash("");
      var head := [HeadingLine(s.category)];
      assert head[..0] == [];
      assert HeadingsOf(head) == [s.category];
      NoHeadingsOf([""]);
      assert [HeadingLine(s.category), ""] == head + [""];
      HeadingsConcat(head, [""]);
      HeadingsConcat([HeadingLine(s.category), ""], s.chunk);
    }
  }

  lemma {:induction false} ComposeHeadings(ss: seq<Section>)
    requires AllHeadingFree(ss)
    requires forall i :: 0 <= i < |ss| ==> ss[i].category == "" || ValidName(ss[i].category)
    ensures HeadingsOf(Compose(ss)) == Names(ss)
  {
    if |ss| > 1 {
      var n := |ss| - 1;
      var before, item := Compose(ss[..n]), Item(ss[n]);
      ItemHeadings(ss[n]);
      ComposeHeadings(ss[..n]);
      NoHeadingWithoutHash("");
      NoHeadingsOf([""]);
      HeadingsConcat(before + [""], item);
      HeadingsConcat(before, [""]);
      assert Compose(ss) == before + [""] + item;
    } else if ss != [] {
      ItemHeadings(ss[0]);
      assert ss[..0] == [];
    }
  }

  lemma {:induction false} NamesConcat(a: seq<Section>, b: seq<Section>)
    ensures Names(a + b) == Names(a) + Names(b)
    decreases |b|
  {
    if b == [] {
      assert a + b == a;
    } else {
      assert (a + b)[..|a + b| - 1] == a + b[..|b| - 1];
      NamesConcat(a, b[..|b| - 1]);
    }
  }

  /** The known categories with an existing chunk or with entries, in their order. */
  function KnownNames(ss: seq<Section>, fr: Fragments, cats: seq<string>): seq<string> {
    if cats == [] then []
    else
      var c := cats[|cats| - 1];
      KnownNames(ss, fr, cats[..|cats| - 1]) + (if Get(ss, c).Some? || HasEntries(fr, c) then [c] else [])
  }

  /** The other categories, in the order found. */
  function OtherNames(ss: seq<Section>, cats: seq<string>): seq<string> {
    if ss == [] then []
    else (if IsUnknown(ss[0].category, cats) then [ss[0].category] else []) + OtherNames(ss[1..], cats)
  }

  lemma {:induction false} GetRendered(fr: Fragments, cats: seq<string>, c: string)
    ensures Get(Rendered(fr, cats), c).Some? <==> c in cats && HasEntries(fr, c)
  {
    if cats != [] {
      var n := |cats| - 1;
      var last := if HasEntries(fr, cats[n]) then [Section(cats[n], Strip(EntriesLines(fr[cats[n]])))] else [];
      GetRendered(fr, cats[..n], c);
      GetConcat(Rendered(fr, cats[..n]), last, c);
      if last != [] { assert last[1..] == []; }
      assert cats == cats[..n] + [cats[n]];
    }
  }

  lemma OneName(s: Section)
    ensures Names([s]) == if s.category == "" then [] else [s.category]
  {
    assert [s][..0] == [];
  }

  /** The rendered sections are those of the categories with entries. */
  ghost predicate Matches(rd: seq<Section>, fr: Fragments, cats: seq<string>) {
    forall i :: 0 <= i < |cats| ==> cats[i] != "" && (Get(rd, cats[i]).Some? <==> HasEntries(fr, cats[i]))
  }

  lemma RenderedMatches(fr: Fragments, cats: seq<string>)
    requires GoodNames(cats)
    ensures Matches(Rendered(fr, cats), fr, cats)
  {
    forall i | 0 <= i < |cats|
      ensures cats[i] != "" && (Get(Rendered(fr, cats), cats[i]).Some? <==> HasEntries(fr, cats[i]))
    {
      assert ValidName(cats[i]);
      GetRendered(fr, cats, cats[i]);
    }
  }

  lemma {:induction false} NamesOfKnown(ss: seq<Section>, rd: seq<Section>, fr: Fragments, cats: seq<string>)
    requires Matches(rd, fr, cats)
    ensures Names(Known(ss, rd, cats)) == KnownNames(ss, fr, cats)
  {
    if cats != [] {
      var n := |cats| - 1;
      var c := cats[n];
      NamesOfKnown(ss, rd, fr, cats[..n]);
      var joined := Join(Get(ss, c), Get(rd, c));
      NamesConcat(Known(ss, rd, cats[..n]), AsSection(c, joined));
      if joined.Some? { OneName(Section(c, joined.value)); }
    }
  }

  lemma {:induction false} NamesOfUnknown(ss: seq<Section>, cats: seq<string>)
    ensures Names(Unknown(ss, cats)) == OtherNames(ss, cats)
  {
    if ss != [] {
      NamesOfUnknown(ss[1..], cats);
      if IsUnknown(ss[0].category, cats) {
        NamesConcat([ss[0]], Unknown(ss[1..], cats));
        OneName(ss[0]);
      } else {
        assert Unknown(ss, cats) == Unknown(ss[1..], cats);
      }
    }
  }

  lemma {:induction false} NamesOfMerged(ss: seq<Section>, rd: seq<Section>, fr: Fragments, cats: seq<string>)
    requires Matches(rd, fr, cats)
    ensures Names(Merged(ss, rd, cats)) == KnownNames(ss, fr, cats) + OtherNames(ss, cats)
  {
    var front, known, rest := AsSection("", Get(ss, "")), Known(ss, rd, cats), Unknown(ss, cats);
    NamesOfThree(front, known, rest);
    NoNameInFront(Get(ss, ""));
    NamesOfKnown(ss, rd, fr, cats);
    NamesOfUnknown(ss, cats);
    assert Names(Merged(ss, rd, cats)) == [] + (Names(known) + Names(rest));
  }

  lemma {:induction false} NamesOfThree(a: seq<Section>, b: seq<Section>, c: seq<Section>)
    ensures Names(a + b + c) == Names(a) + (Names(b) + Names(c))
  {
    NamesConcat(a + b, c);
    NamesConcat(a, b);
    Regroup(Names(a), Names(b), Names(c));
  }

  lemma Regroup(a: seq<string>, b: seq<string>, c: seq<string>)
    ensures a + b + c == a + (b + c)
  {
  }

  lemma NoNameInFront(chunk: Option<Lines>)
    ensures Names(AsSection("", chunk)) == []
  {
    if chunk.Some? { OneName(Section("", chunk.value)); }
  }

  lemma {:induction false} NamesAreHad(ss: seq<Section>, c: string)
    requires c in Names(ss)
    ensures Has(ss, c)
  {
    var n := |ss| - 1;
    if c in Names(ss[..n]) {
      NamesAreHad(ss[..n], c);
      var i :| 0 <= i < n && ss[..n][i].category == c;
      assert ss[i].category == c;
    } else {
      assert ss[n].category == c;
    }
  }

  predicate Distinct(names: seq<string>) { forall i, j :: 0 <= i < j < |names| ==> names[i] != names[j] }

  lemma {:induction false} NamesAreDistinct(ss: seq<Section>)
    requires AllDistinct(ss)
    ensures Distinct(Names(ss))
  {
    if ss != [] {
      var n := |ss| - 1;
      NamesAreDistinct(ss[..n]);
      if ss[n].category in Names(ss[..n]) {
        NamesAreHad(ss[..n], ss[n].category);
      }
    }
  }

  lemma MergeHeadings(existing: Lines, fr: Fragments, cats: seq<string>)
    requires GoodNames(cats) && NoIndentedHeading(existing)
    ensures var m := Merged(Split(existing), Rendered(fr, cats), cats);
            AllDistinct(m) && HeadingsOf(Merge(existing, fr, cats)) == Names(m)
  {
    SplitUndoesRender(fr, cats);
    RenderedIsPlain(fr, cats);
    SplitIsProper(existing);
    SplitIsProper(Render(fr, cats));
    var ss, rd := Split(existing), Split(Render(fr, cats));
    MergedIsProper(ss, rd, cats);
    MergedStray(ss, rd, cats);
    StrayIffIndented(existing);
    ComposeHeadings(Merged(ss, rd, cats));
  }

  /**
   The headings of a merged body, first the known categories that have an existing chunk or
   entries, in their order, then the others in the order found; and no heading occurs twice.
   */
  lemma HeadingsOccurOnce(existing: Lines, fr: Fragments, cats: seq<string>)
    requires GoodNames(cats) && NoIndentedHeading(existing)
    ensures var headings := HeadingsOf(Merge(existing, fr, cats));
            && headings == KnownNames(Split(existing), fr, cats) + OtherNames(Split(existing), cats)
            && Distinct(headings)
  {
    MergeHeadings(existing, fr, cats);
    RenderedMatches(fr, cats);
    NamesOfMerged(Split(existing), Rendered(fr, cats), fr, cats);
    NamesAreDistinct(Merged(Split(existing), Rendered(fr, cats), cats));
  }
}
