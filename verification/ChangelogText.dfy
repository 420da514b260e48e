/**
 What the changelog functions write and read, line by line (scripts/build_changelog.py): which
 lines are headings, what stripping leaves, how a text is cut at its headings and filed, and
 how entries and sections are written.
 */
module ChangelogText {
  import opened Changelog
  import opened ChangelogMerge
  import opened ChangelogStability
  import opened Wrappers

  // ---------------------------------------------------------------------------
  // Headings

  /** The line is "### ", a name of letters and blanks that begins and ends with a letter, and white space. */
  ghost predicate ReadsAs(l: string, name: string, tail: string) {
    && l == "### " + name + tail && Blank(tail)
    && name != "" && IsLetter(name[0]) && !IsSpace(name[|name| - 1])
    && forall x :: x in name ==> IsLetter(x) || x == ' '
  }

  predicate LowersTo(name: string, c: string) {
    |c| == |name| && forall i :: 0 <= i < |c| ==> c[i] == LowerChar(name[i])
  }

  /** Exactly such lines are headings, and the category is the name in lower case. */
  lemma HeadingIff(l: string, c: string)
    ensures Heading(l) == Some(c) <==>
            exists name, tail :: ReadsAs(l, name, tail) && LowersTo(name, c)
  {
    if Heading(l) == Some(c) {
      var name := RStrip(l[4..]);
      RStripFacts(l[4..]);
      LowerFacts(name);
      assert l == "### " + name + l[4..][|name|..];
      assert ReadsAs(l, name, l[4..][|name|..]);
    }
    if name, tail :| ReadsAs(l, name, tail) && LowersTo(name, c) {
      assert l[..4] == "### " && l[4..] == name + tail;
      RStripSplit(name, tail);
      RStripFacts(tail);
      LowerFacts(name);
      assert Lower(name) == c;
    }
  }

  /** A heading as written: "### " and the category with its first letter in upper case. */
  lemma HeadingLineIs(c: string)
    requires ValidName(c)
    ensures exists first: char ::
              'A' <= first <= 'Z' && LowerChar(first) == c[0] && HeadingLine(c) == "### " + [first] + c[1..]
  {
    assert c[0] in c;
    var first := Capitalize(c)[0];
    assert Capitalize(c) == [first] + c[1..];
    assert HeadingLine(c) == "### " + [first] + c[1..];
  }

  // ---------------------------------------------------------------------------
  // Stripping

  /** White space is taken off the front of a line, and nothing else. */
  lemma {:induction false} LStripIs(l: string) returns (k: nat)
    ensures k <= |l| && LStrip(l) == l[k..]
    ensures (forall i :: 0 <= i < k ==> IsSpace(l[i])) && (k < |l| ==> !IsSpace(l[k]))
  {
    k := 0;
    if l != "" && IsSpace(l[0]) {
      var tail := l[1..];
      var rest := LStripIs(tail);
      k := rest + 1;
      assert tail[rest..] == l[k..];
      forall i | 0 <= i < k ensures IsSpace(l[i]) {
        if i > 0 { assert l[i] == tail[i - 1]; }
      }
    }
  }

  ghost predicate BlankFrom(x: Lines, i: nat) { forall k :: i <= k < |x| ==> Blank(x[k]) }
  ghost predicate BlankUpTo(x: Lines, i: nat) { forall k :: 0 <= k < i && k < |x| ==> Blank(x[k]) }

  lemma {:induction false} TrimBottomIs(x: Lines, j: nat)
    requires j < |x| && !Blank(x[j]) && BlankFrom(x, j + 1)
    ensures TrimBottom(x) == x[..j] + [RStrip(x[j])]
    decreases |x|
  {
    var n := |x| - 1;
    if j < n {
      assert Blank(x[n]);
      TrimBottomIs(x[..n], j);
      assert x[..n][..j] == x[..j];
    }
  }

  lemma {:induction false} TrimTopIs(x: Lines, i: nat)
    requires i < |x| && !Blank(x[i]) && BlankUpTo(x, i)
    ensures TrimTop(x) == [LStrip(x[i])] + x[i + 1..]
    decreases i
  {
    if i > 0 {
      assert Blank(x[0]);
      TrimTopIs(x[1..], i - 1);
      assert x[1..][i..] == x[i + 1..];
    }
  }

  /**
   Stripping a text leaves the lines from the first to the last that are not blank, those two
   without their outer white space.
   */
  lemma StripIs(x: Lines, i: nat, j: nat)
    requires i <= j < |x| && !Blank(x[i]) && !Blank(x[j]) && BlankUpTo(x, i) && BlankFrom(x, j + 1)
    ensures Strip(x) == if i == j then [LStrip(RStrip(x[i]))] else [LStrip(x[i])] + x[i + 1..j] + [RStrip(x[j])]
  {
    TrimBottomIs(x, j);
    RStripFacts(x[j]);
    NotBlank(RStrip(x[j]));
    var y := x[..j] + [RStrip(x[j])];
    TrimTopIs(y, i);
    if i < j { assert y[i + 1..] == x[i + 1..j] + [RStrip(x[j])]; }
  }

  lemma {:induction false} StripBlank(x: Lines)
    requires BlankUpTo(x, |x|)
    ensures Strip(x) == []
  {
    if x != [] { StripBlank(x[..|x| - 1]); }
  }

  // ---------------------------------------------------------------------------
  // Cutting at the headings

  /** The blocks put together again, with a heading line before each but the first. */
  function Rejoin(bs: seq<Block>, heads: Lines): Lines
    requires |bs| == |heads| + 1
  {
    if heads == [] then bs[0].raw
    else Rejoin(bs[..|bs| - 1], heads[..|heads| - 1]) + [heads[|heads| - 1]] + bs[|bs| - 1].raw
  }

  /** The heading lines the blocks were opened by. */
  ghost predicate Opened(bs: seq<Block>, heads: Lines) {
    && |bs| == |heads| + 1 && bs[0].category == ""
    && forall i :: 0 <= i < |heads| ==> Heading(heads[i]) == Some(bs[i + 1].category)
  }

  /**
   The blocks are the text between its headings, which `BlocksShape` shows to hold no heading:
   nothing is lost, moved or filed under another heading.
   */
  lemma {:induction false} BlocksAreTheText(x: Lines) returns (heads: Lines)
    ensures Opened(Blocks(x), heads) && x == Rejoin(Blocks(x), heads)
  {
    if x == [] {
      heads := [];
    } else {
      var n := |x| - 1;
      var before := Blocks(x[..n]);
      var hs := BlocksAreTheText(x[..n]);
      assert x == x[..n] + [x[n]];
      if Heading(x[n]).Some? {
        heads := hs + [x[n]];
        RejoinOpen(before, hs, x[n]);
      } else {
        heads := hs;
        RejoinAppend(before, hs, x[n]);
      }
    }
  }

  lemma RejoinOpen(bs: seq<Block>, heads: Lines, l: string)
    requires Opened(bs, heads) && Heading(l).Some?
    ensures var more := bs + [Block(Heading(l).value, [])];
            Opened(more, heads + [l]) && Rejoin(more, heads + [l]) == Rejoin(bs, heads) + [l]
  {
    var b := Block(Heading(l).value, []);
    assert (bs + [b])[..|bs|] == bs && (heads + [l])[..|heads|] == heads;
    assert Rejoin(bs, heads) + [l] + [] == Rejoin(bs, heads) + [l];
  }

  lemma RejoinAppend(bs: seq<Block>, heads: Lines, l: string)
    requires |bs| == |heads| + 1
    ensures var last := bs[|bs| - 1];
            Rejoin(bs[|bs| - 1 := Block(last.category, last.raw + [l])], heads) == Rejoin(bs, heads) + [l]
  {
    var n := |bs| - 1;
    var bs' := bs[n := Block(bs[n].category, bs[n].raw + [l])];
    if heads != [] {
      assert bs'[..n] == bs[..n];
      var front := Rejoin(bs[..n], heads[..|heads| - 1]) + [heads[|heads| - 1]];
      assert front + (bs[n].raw + [l]) == front + bs[n].raw + [l];
    }
  }

  // ---------------------------------------------------------------------------
  // Filing

  /** The stripped texts of the blocks of a category, in order, without empty ones, with a blank line between them. */
  function Filed(bs: seq<Block>, c: string): Option<Lines> {
    if bs == [] then None
    else
      var before, b := Filed(bs[..|bs| - 1], c), bs[|bs| - 1];
      if b.category != c || Strip(b.raw) == [] then before
      else if before.None? then Some(Strip(b.raw))
      else Some(before.value + [""] + Strip(b.raw))
  }

  /** The categories with any text, each where it first has some. */
  function FirstFiled(bs: seq<Block>): seq<string> {
    if bs == [] then []
    else
      var before, b := FirstFiled(bs[..|bs| - 1]), bs[|bs| - 1];
      if Strip(b.raw) == [] || b.category in before then before else before + [b.category]
  }

  function Categories(ss: seq<Section>): seq<string> {
    if ss == [] then [] else [ss[0].category] + Categories(ss[1..])
  }

  lemma {:induction false} FileUnderIs(ss: seq<Section>, c: string, chunk: Lines, d: string)
    ensures Get(FileUnder(ss, c, chunk), d)
         == if d != c then Get(ss, d)
            else if Get(ss, c).None? then Some(chunk) else Some(Get(ss, c).value + [""] + chunk)
    ensures Categories(FileUnder(ss, c, chunk)) == if c in Categories(ss) then Categories(ss) else Categories(ss) + [c]
    ensures Get(ss, c).Some? <==> c in Categories(ss)
  {
    if ss != [] {
      FileUnderIs(ss[1..], c, chunk, d);
      var r := FileUnder(ss, c, chunk);
      if ss[0].category == c {
        assert r[1..] == ss[1..];
      } else {
        assert r[1..] == FileUnder(ss[1..], c, chunk);
      }
    } else {
      assert [Section(c, chunk)][1..] == [];
    }
  }

  /**
   Splitting a text, category by category: what is under a category is the stripped text of its
   blocks in order with a blank line between, and the categories stand where they first have
   text.
   */
  lemma {:induction false} SplitIs(bs: seq<Block>, c: string)
    ensures Get(FileAll(bs), c) == Filed(bs, c)
    ensures Categories(FileAll(bs)) == FirstFiled(bs)
  {
    if bs != [] {
      var b := bs[|bs| - 1];
      SplitIs(bs[..|bs| - 1], c);
      SplitIs(bs[..|bs| - 1], b.category);
      FileUnderIs(FileAll(bs[..|bs| - 1]), b.category, Strip(b.raw), c);
    }
  }

  // ---------------------------------------------------------------------------
  // Writing

  lemma {:induction false} IndentedIs(x: Lines, k: nat)
    requires k < |x|
    ensures |Indented(x)| == |x| && Indented(x)[k] == if Blank(x[k]) then "" else "  " + x[k]
    decreases |x|
  {
    var n := |x| - 1;
    if k < n {
      IndentedIs(x[..n], k);
    } else if n > 0 {
      IndentedIs(x[..n], 0);
    }
  }

  /** An entry as written: a bullet before its first line, the others indented under it, and a blank line. */
  lemma EntryIs(body: Lines, k: nat)
    requires k < |body|
    ensures var e := EntryLines(body);
            && |e| == |body| + 1 && e[0] == "- " + body[0] && e[|body|] == ""
            && (k > 0 ==> e[k] == if Blank(body[k]) then "" else "  " + body[k])
  {
    if k > 0 {
      IndentedIs(body[1..], k - 1);
    } else if |body| > 1 {
      IndentedIs(body[1..], 0);
    }
  }

  /** Entries are written one after another. */
  lemma {:induction false} EntriesConcat(a: seq<Lines>, b: seq<Lines>)
    ensures EntriesLines(a + b) == EntriesLines(a) + EntriesLines(b)
    ensures forall body :: EntriesLines([body]) == EntryLines(body)
    decreases |b|
  {
    forall body ensures EntriesLines([body]) == EntryLines(body) {
      var one: seq<Lines> := [body];
      assert one[..0] == [];
    }
    if b == [] {
      assert a + b == a;
    } else {
      assert (a + b)[..|a + b| - 1] == a + b[..|b| - 1];
      EntriesConcat(a, b[..|b| - 1]);
    }
  }

  /** Sections are written one after another with a blank line between. */
  lemma {:induction false} ComposeConcat(a: seq<Section>, b: seq<Section>)
    requires a != [] && b != []
    ensures Compose(a + b) == Compose(a) + [""] + Compose(b)
    decreases |b|
  {
    var n := |b| - 1;
    assert (a + b)[..|a + b| - 1] == a + b[..n];
    if n == 0 {
      assert a + b[..n] == a;
    } else {
      ComposeConcat(a, b[..n]);
      Regroup(Compose(a) + [""], Compose(b[..n]), [""], Item(b[n]));
    }
  }

  lemma Regroup(a: Lines, b: Lines, c: Lines, d: Lines)
    ensures a + b + c + d == a + (b + c + d)
  {
  }

  lemma GetOne(s: Section, c: string)
    ensures Get([s], c) == if s.category == c then Some(s.chunk) else None
  {
    assert [s][1..] == [];
  }

  lemma KnownOf(s: Section, r: Section, cats: seq<string>)
    requires GoodNames(cats) && s.category == r.category && s.category in cats
    ensures Known([s], [r], cats) == [Section(s.category, s.chunk + [""] + r.chunk)]
  {
    KnownOfUpTo(s, r, cats);
  }

  lemma {:induction false} KnownOfUpTo(s: Section, r: Section, cats: seq<string>)
    requires GoodNames(cats) && s.category == r.category
    ensures Known([s], [r], cats) == if s.category in cats then [Section(s.category, s.chunk + [""] + r.chunk)] else []
  {
    if cats != [] {
      var n := |cats| - 1;
      var c := cats[n];
      assert cats == cats[..n] + [c];
      KnownOfUpTo(s, r, cats[..n]);
      GetOne(s, c);
      GetOne(r, c);
      assert c !in cats[..n];
    }
  }

  lemma {:induction false} RenderedOne(c: string, entries: seq<Lines>, cats: seq<string>)
    requires GoodNames(cats) && entries != []
    ensures Rendered(map[c := entries], cats) == if c in cats then [Section(c, Strip(EntriesLines(entries)))] else []
  {
    if cats != [] {
      var n := |cats| - 1;
      assert cats == cats[..n] + [cats[n]];
      RenderedOne(c, entries, cats[..n]);
    }
  }

  /**
   A merge as written: fragments of a category that the body has already go under its one heading,
   after what is there and a blank line.
   */
  lemma MergeWrites(s: Section, entries: seq<Lines>, cats: seq<string>)
    requires GoodNames(cats) && s.category in cats && entries != []
    requires Tidy(s.chunk) && HeadingFree(s.chunk)
    ensures var x := [HeadingLine(s.category), ""] + s.chunk;
            Merge(x, map[s.category := entries], cats) == x + [""] + Strip(EntriesLines(entries))
  {
    var c, fr := s.category, map[s.category := entries];
    var r := Section(c, Strip(EntriesLines(entries)));
    SplitFirst(s);
    SplitUndoesRender(fr, cats);
    RenderedOne(c, entries, cats);
    MergedPair(s, r, cats);
    PairAsWritten(s, r);
  }

  lemma MergedPair(s: Section, r: Section, cats: seq<string>)
    requires GoodNames(cats) && s.category == r.category && s.category in cats
    ensures Merged([s], [r], cats) == [Section(s.category, s.chunk + [""] + r.chunk)]
  {
    KnownOf(s, r, cats);
    GetOne(s, "");
    assert ValidName(s.category);
    UnknownOf([s], false, cats);
  }

  lemma PairAsWritten(s: Section, r: Section)
    requires s.category != ""
    ensures Compose([Section(s.category, s.chunk + [""] + r.chunk)]) == Item(s) + [""] + r.chunk
  {
    Regroup([HeadingLine(s.category), ""], s.chunk, [""], r.chunk);
  }

  /** The categories of the list that have entries, in its order. */
  function WithEntries(fr: Fragments, cats: seq<string>): seq<string> {
    if cats == [] then []
    else WithEntries(fr, cats[..|cats| - 1])
         + (if cats[|cats| - 1] in fr && fr[cats[|cats| - 1]] != [] then [cats[|cats| - 1]] else [])
  }

  lemma {:induction false} CategoriesConcat(a: seq<Section>, b: seq<Section>)
    ensures Categories(a + b) == Categories(a) + Categories(b)
  {
    if a == [] {
      assert a + b == b;
    } else {
      assert (a + b)[1..] == a[1..] + b;
      CategoriesConcat(a[1..], b);
    }
  }

  /** Rendered fragments, category by category: all its entries one after another, stripped. */
  lemma {:induction false} RenderedIs(fr: Fragments, cats: seq<string>, c: string)
    requires GoodNames(cats)
    ensures Get(Rendered(fr, cats), c)
         == if c in cats && HasEntries(fr, c) then Some(Strip(EntriesLines(fr[c]))) else None
  {
    if cats != [] {
      var before, d := cats[..|cats| - 1], cats[|cats| - 1];
      assert cats == before + [d];
      RenderedIs(fr, before, c);
      if HasEntries(fr, d) {
        var s := Section(d, Strip(EntriesLines(fr[d])));
        GetConcat(Rendered(fr, before), [s], c);
        GetOne(s, c);
      } else {
        assert Rendered(fr, cats) == Rendered(fr, before);
      }
    }
  }

  lemma {:induction false} RenderedInOrder(fr: Fragments, cats: seq<string>)
    ensures Categories(Rendered(fr, cats)) == WithEntries(fr, cats)
  {
    if cats != [] {
      var before, d := cats[..|cats| - 1], cats[|cats| - 1];
      RenderedInOrder(fr, before);
      if HasEntries(fr, d) {
        var s := Section(d, Strip(EntriesLines(fr[d])));
        CategoriesConcat(Rendered(fr, before), [s]);
        assert [s][1..] == [];
      } else {
        assert Rendered(fr, cats) == Rendered(fr, before);
      }
    }
  }
}
