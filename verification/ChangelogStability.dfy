/**
 When merging a changelog body again changes nothing (scripts/build_changelog.py,
 `merge_sections`).
 */
module ChangelogStability {
  import opened Changelog
  import opened ChangelogMerge
  import opened Wrappers

  // ---------------------------------------------------------------------------
  // Merging moves text but loses none

  function Weight(chunk: Option<Lines>): nat { if chunk.Some? then NonBlank(chunk.value) else 0 }

  /** The lines of text filed under the given categories. */
  function WeightOf(ss: seq<Section>, cats: seq<string>): nat {
    if cats == [] then 0 else WeightOf(ss, cats[..|cats| - 1]) + Weight(Get(ss, cats[|cats| - 1]))
  }

  lemma TextOfAsSection(c: string, chunk: Option<Lines>)
    ensures TextOf(AsSection(c, chunk)) == Weight(chunk)
  {
    if chunk.Some? { assert [Section(c, chunk.value)][1..] == []; }
  }

  lemma {:induction false} TextOfKnown(ss: seq<Section>, cats: seq<string>)
    ensures TextOf(Known(ss, [], cats)) == WeightOf(ss, cats)
  {
    if cats != [] {
      var n := |cats| - 1;
      TextOfKnown(ss, cats[..n]);
      TextConcat(Known(ss, [], cats[..n]), AsSection(cats[n], Join(Get(ss, cats[n]), None)));
      TextOfAsSection(cats[n], Get(ss, cats[n]));
    }
  }

  /** One more section in front adds its text if its category is among the given ones. */
  lemma {:induction false} WeightCons(ss: seq<Section>, cats: seq<string>)
    requires ss != [] && Get(ss[1..], ss[0].category).None?
    requires forall i, j :: 0 <= i < j < |cats| ==> cats[i] != cats[j]
    ensures WeightOf(ss, cats) == WeightOf(ss[1..], cats) + if ss[0].category in cats then NonBlank(ss[0].chunk) else 0
  {
    if cats != [] {
      var n := |cats| - 1;
      WeightCons(ss, cats[..n]);
      assert cats == cats[..n] + [cats[n]];
    }
  }

  lemma {:induction false} TextInParts(ss: seq<Section>, cats: seq<string>)
    requires GoodNames(cats) && AllDistinct(ss)
    ensures Weight(Get(ss, "")) + WeightOf(ss, cats) + TextOf(Unknown(ss, cats)) == TextOf(ss)
  {
    if ss == [] {
      NothingUnder(cats);
    } else {
      var rest := ss[1..];
      forall i | 0 <= i < |rest| ensures rest[i] == ss[i + 1] {}
      TextInParts(rest, cats);
      GetFacts(rest, ss[0].category);
      WeightCons(ss, cats);
      if IsUnknown(ss[0].category, cats) {
        assert ([ss[0]] + Unknown(rest, cats))[1..] == Unknown(rest, cats);
      } else {
        assert Unknown(ss, cats) == Unknown(rest, cats);
      }
    }
  }

  lemma {:induction false} NothingUnder(cats: seq<string>)
    ensures WeightOf([], cats) == 0 && Known([], [], cats) == []
  {
    if cats != [] { NothingUnder(cats[..|cats| - 1]); }
  }

  lemma TextOfMerged(ss: seq<Section>, cats: seq<string>)
    requires GoodNames(cats) && AllDistinct(ss)
    ensures TextOf(Merged(ss, [], cats)) == TextOf(ss)
  {
    var front, known, rest := AsSection("", Get(ss, "")), Known(ss, [], cats), Unknown(ss, cats);
    TextConcat(front + known, rest);
    TextConcat(front, known);
    TextOfAsSection("", Get(ss, ""));
    TextOfKnown(ss, cats);
    TextInParts(ss, cats);
  }

  // ---------------------------------------------------------------------------
  // Stability, exactly

  lemma MergeNothing(x: Lines, cats: seq<string>)
    requires GoodNames(cats)
    ensures Merge(x, map[], cats) == Compose(Merged(Split(x), [], cats))
  {
    SplitUndoesRender(map[], cats);
    NothingRendered(cats);
  }

  /** Sections as a merge writes them: each once, tidy, in order, and no line inside one reads as a heading. */
  ghost predicate Settled(ss: seq<Section>, cats: seq<string>) {
    Proper(ss) && AllHeadingFree(ss) && Merged(ss, [], cats) == ss
  }

  /** The text is what settled sections are written as. */
  ghost predicate NormalForm(x: Lines, cats: seq<string>) {
    exists ss :: Settled(ss, cats) && x == Compose(ss)
  }

  lemma FixedIsNormal(x: Lines, cats: seq<string>)
    requires GoodNames(cats) && Merge(x, map[], cats) == x
    ensures NormalForm(x, cats)
  {
    var ss := Split(x);
    MergeNothing(x, cats);
    SplitIsProper(x);
    MergedIsProper(ss, [], cats);
    MergedAgain(ss, [], cats);
    FixedHasNoStray(x, cats);
    assert Settled(Merged(ss, [], cats), cats);
  }

  /** Counting lines: a stray heading in the merged sections would be one line too many. */
  lemma FixedHasNoStray(x: Lines, cats: seq<string>)
    requires GoodNames(cats) && Proper(Split(x)) && Proper(Merged(Split(x), [], cats))
    requires Compose(Merged(Split(x), [], cats)) == x
    ensures AllHeadingFree(Merged(Split(x), [], cats))
  {
    var m := Merged(Split(x), [], cats);
    SplitKeepsText(x);
    ComposeCounts(m);
    TextOfMerged(Split(x), cats);
    NoStrayIffFree(m);
  }

  lemma NormalIsFixed(x: Lines, cats: seq<string>)
    requires GoodNames(cats) && NormalForm(x, cats)
    ensures Merge(x, map[], cats) == x
  {
    var ss :| Settled(ss, cats) && x == Compose(ss);
    SplitCompose(ss);
    MergeNothing(x, cats);
  }

  /** Merging nothing into a body leaves it alone if and only if it is in normal form. */
  lemma FixedIffNormal(x: Lines, cats: seq<string>)
    requires GoodNames(cats)
    ensures Merge(x, map[], cats) == x <==> NormalForm(x, cats)
  {
    if Merge(x, map[], cats) == x {
      FixedIsNormal(x, cats);
    }
    if NormalForm(x, cats) {
      NormalIsFixed(x, cats);
    }
  }

  lemma MergeIsNormal(existing: Lines, fr: Fragments, cats: seq<string>)
    requires GoodNames(cats) && NoIndentedHeading(existing)
    ensures NormalForm(Merge(existing, fr, cats), cats)
  {
    var ss, rd := Split(existing), Split(Render(fr, cats));
    SplitUndoesRender(fr, cats);
    RenderedIsPlain(fr, cats);
    SplitIsProper(existing);
    SplitIsProper(Render(fr, cats));
    MergedIsProper(ss, rd, cats);
    MergedStray(ss, rd, cats);
    StrayIffIndented(existing);
    MergedAgain(ss, rd, cats);
    assert Settled(Merged(ss, rd, cats), cats);
  }

  /**
   Merging a merged body again with no fragments changes nothing if and only if the body is in
   normal form, and it is whenever no stripped chunk or preamble of the existing body begins
   with an indented heading line.
   */
  lemma MergeIsStable(existing: Lines, fr: Fragments, cats: seq<string>)
    requires GoodNames(cats)
    ensures var m := Merge(existing, fr, cats);
            && (Merge(m, map[], cats) == m <==> NormalForm(m, cats))
            && (NoIndentedHeading(existing) ==> Merge(m, map[], cats) == m)
  {
    FixedIffNormal(Merge(existing, fr, cats), cats);
    if NoIndentedHeading(existing) {
      MergeIsNormal(existing, fr, cats);
    }
  }

  // ---------------------------------------------------------------------------
  // Bodies with an indented heading: some stable, some not

  /** A body without a heading is one preamble. */
  lemma PlainSplit(x: Lines)
    requires HeadingFree(x) && Strip(x) != []
    ensures Split(x) == [Section("", Strip(x))]
    ensures NoIndentedHeading(x) <==> Heading(Strip(x)[0]).None?
  {
    FeedPlain(OPENING, x);
    assert [] + x == x;
    assert Blocks(x) == [Block("", x)];
    FileLast([], Block("", x));
  }

  lemma {:induction false} KnownOne(s: Section, cats: seq<string>)
    requires GoodNames(cats)
    ensures Known([s], [], cats) == if s.category in cats then [s] else []
  {
    assert [s][1..] == [];
    if cats != [] {
      var n := |cats| - 1;
      assert cats == cats[..n] + [cats[n]];
      KnownOne(s, cats[..n]);
    }
  }

  lemma MergedOne(s: Section, cats: seq<string>)
    requires GoodNames(cats)
    ensures Merged([s], [], cats) == [s]
  {
    assert [s][1..] == [];
    KnownOne(s, cats);
    if s.category == "" {
      assert "" !in cats;
      assert Get([s], "") == Some(s.chunk) && Unknown([s], cats) == [];
    } else {
      assert Get([s], "") == None;
      assert Unknown([s], cats) == if s.category in cats then [] else [s];
    }
  }

  lemma MergeOne(x: Lines, s: Section, cats: seq<string>)
    requires GoodNames(cats) && Split(x) == [s]
    ensures Merge(x, map[], cats) == Item(s)
  {
    MergeNothing(x, cats);
    MergedOne(s, cats);
  }

  /** The text with its first line moved in by one blank. */
  function Nudged(x: Lines): Lines
    requires x != []
  {
    [" " + x[0]] + x[1..]
  }

  lemma StripNudged(x: Lines)
    requires Tidy(x)
    ensures Strip(Nudged(x)) == x
  {
    var y := Nudged(x);
    NudgedLine(x[0]);
    if |x| == 1 { NudgedEnd(x[0]); }
    TrimmedBelow(y);
    assert y[1..] == x[1..] && [x[0]] + x[1..] == x;
  }

  lemma NudgedLine(l: string)
    requires StartsClean(l)
    ensures LStrip(" " + l) == l && !Blank(" " + l)
  {
    var m := " " + l;
    assert m[1..] == l && LStrip(l) == l;
    assert m[1] == l[0] && m[1] in m;
  }

  lemma NudgedEnd(l: string)
    requires EndsClean(l)
    ensures EndsClean(" " + l)
  {
    var m := " " + l;
    assert m[|m| - 1] == l[|l| - 1];
  }

  lemma TrimmedBelow(x: Lines)
    requires x != [] && EndsClean(x[|x| - 1])
    ensures TrimBottom(x) == x
  {
    NotBlank(x[|x| - 1]);
    assert x == x[..|x| - 1] + [x[|x| - 1]];
  }

  lemma NudgedIsPlain(x: Lines)
    requires x != [] && HeadingFree(x[1..])
    ensures HeadingFree(Nudged(x))
  {
    NoHeadingWithoutHash(" " + x[0]);
  }

  lemma PlainAfterBlank(x: Lines)
    requires HeadingFree(x)
    ensures HeadingFree([""] + x)
  {
    NoHeadingWithoutHash("");
  }

  lemma ItemIsTidy(s: Section)
    requires Tidy(s.chunk) && HeadingFree(s.chunk) && ValidName(s.category)
    ensures Tidy(Item(s)) && HeadingFree(Item(s)[1..]) && Heading(Item(s)[0]).Some?
  {
    var x := Item(s);
    HeadingRoundTrip(s.category);
    HeadingLineIsTidy(s.category);
    assert [HeadingLine(s.category)][0] == x[0];
    assert x[|x| - 1] == s.chunk[|s.chunk| - 1];
    assert x[1..] == [""] + s.chunk;
    PlainAfterBlank(s.chunk);
  }

  /**
   A section as a merge writes it, its heading moved in by a blank, is read as a preamble with
   an indented heading; merging brings the heading back out, and from then on nothing changes.
   */
  lemma NudgedSectionIsStable(s: Section, cats: seq<string>)
    requires GoodNames(cats) && Tidy(s.chunk) && HeadingFree(s.chunk) && ValidName(s.category)
    ensures var x := Nudged(Item(s));
            && !NoIndentedHeading(x) && Merge(x, map[], cats) == Item(s)
            && Merge(Merge(x, map[], cats), map[], cats) == Merge(x, map[], cats)
  {
    var x := Nudged(Item(s));
    ItemIsTidy(s);
    StripNudged(Item(s));
    NudgedIsPlain(Item(s));
    PlainSplit(x);
    MergeOne(x, Section("", Item(s)), cats);
    SplitFirst(s);
    MergeOne(Item(s), s, cats);
  }

  /**
   A heading without text, moved in by a blank, is not stable: the first merge brings it out and
   the second drops it.
   */
  lemma NudgedHeadingUnsettles(c: string, cats: seq<string>)
    requires GoodNames(cats) && ValidName(c)
    ensures var x := Nudged([HeadingLine(c)]);
            && !NoIndentedHeading(x) && Merge(x, map[], cats) == [HeadingLine(c)]
            && Merge(Merge(x, map[], cats), map[], cats) == []
  {
    var h := [HeadingLine(c)];
    HeadingLineIsTidy(c);
    StripNudged(h);
    assert h[1..] == [];
    NudgedIsPlain(h);
    HeadingRoundTrip(c);
    PlainSplit(Nudged(h));
    MergeOne(Nudged(h), Section("", h), cats);
    BareHeading(c, cats);
  }

  lemma HeadingLineIsTidy(c: string)
    requires ValidName(c)
    ensures Tidy([HeadingLine(c)])
  {
    CapitalizeFacts(c);
    var l, name := HeadingLine(c), Capitalize(c);
    assert l[0] == '#' && l[|l| - 1] == name[|name| - 1];
    assert name[|name| - 1] in name && c[|c| - 1] in c;
  }

  lemma BareHeading(c: string, cats: seq<string>)
    requires GoodNames(cats) && ValidName(c)
    ensures Merge([HeadingLine(c)], map[], cats) == []
  {
    FeedHeading(OPENING, c);
    FileLast([Block("", [])], Block(c, []));
    FileLast([], Block("", []));
    MergeNothing([HeadingLine(c)], cats);
    NothingUnder(cats);
  }
}
