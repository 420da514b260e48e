/**
 Splitting and merging changelog sections (scripts/build_changelog.py). A text is the list of
 its lines, so joining with a blank line between puts one empty line there. White space
 within a line is blank, tab or carriage return.
 */
module Changelog {
  import opened Wrappers

  type Lines = seq<string>

  // ---------------------------------------------------------------------------
  // White space

  predicate IsSpace(c: char) { c == ' ' || c == '\t' || c == '\r' }

  predicate Blank(l: string) { forall c :: c in l ==> IsSpace(c) }

  function LStrip(l: string): string { if l != "" && IsSpace(l[0]) then LStrip(l[1..]) else l }

  function RStrip(l: string): string {
    if l != "" && IsSpace(l[|l| - 1]) then RStrip(l[..|l| - 1]) else l
  }

  function TrimTop(x: Lines): Lines {
    if x == [] then [] else if Blank(x[0]) then TrimTop(x[1..]) else [LStrip(x[0])] + x[1..]
  }

  function TrimBottom(x: Lines): Lines {
    if x == [] then []
    else if Blank(x[|x| - 1]) then TrimBottom(x[..|x| - 1])
    else x[..|x| - 1] + [RStrip(x[|x| - 1])]
  }

  /** The text without white space at either end. */
  function Strip(x: Lines): Lines { TrimTop(TrimBottom(x)) }

  predicate StartsClean(l: string) { l != "" && !IsSpace(l[0]) }
  predicate EndsClean(l: string) { l != "" && !IsSpace(l[|l| - 1]) }

  /** Not empty, and nothing to strip. */
  predicate Tidy(x: Lines) { x != [] && StartsClean(x[0]) && EndsClean(x[|x| - 1]) }

  lemma {:induction false} RStripFacts(l: string)
    ensures RStrip(l) == "" <==> Blank(l)
    ensures RStrip(l) != "" ==> EndsClean(RStrip(l)) && RStrip(l)[0] == l[0]
    ensures RStrip(l) <= l && Blank(l[|RStrip(l)|..])
    ensures RStrip(RStrip(l)) == RStrip(l)
  {
    if l != "" && IsSpace(l[|l| - 1]) {
      var n := |l| - 1;
      RStripFacts(l[..n]);
      assert l == l[..n] + [l[n]];
    } else if l != "" {
      assert l[|l| - 1] in l;
    }
  }

  lemma {:induction false} LStripFacts(l: string)
    ensures LStrip(l) == "" <==> Blank(l)
    ensures LStrip(l) != "" ==> StartsClean(LStrip(l)) && LStrip(l)[|LStrip(l)| - 1] == l[|l| - 1]
  {
    if l != "" && IsSpace(l[0]) {
      LStripFacts(l[1..]);
      assert l == [l[0]] + l[1..];
    } else if l != "" {
      assert l[0] in l;
    }
  }

  lemma NotBlank(l: string)
    requires StartsClean(l) || EndsClean(l)
    ensures !Blank(l)
  {
    assert l[0] in l && l[|l| - 1] in l;
  }

  /** Stripping leaves nothing or a tidy text. */
  lemma {:induction false} TrimBottomEnds(x: Lines)
    ensures TrimBottom(x) != [] ==> EndsClean(TrimBottom(x)[|TrimBottom(x)| - 1])
  {
    if x != [] {
      if Blank(x[|x| - 1]) { TrimBottomEnds(x[..|x| - 1]); } else { RStripFacts(x[|x| - 1]); }
    }
  }

  lemma {:induction false} TrimTopStarts(x: Lines)
    requires x != [] ==> EndsClean(x[|x| - 1])
    ensures x == [] ==> TrimTop(x) == []
    ensures x != [] ==> Tidy(TrimTop(x))
  {
    if x != [] {
      NotBlank(x[|x| - 1]);
      if Blank(x[0]) { TrimTopStarts(x[1..]); } else { LStripFacts(x[0]); }
    }
  }

  lemma StripIsTidy(x: Lines)
    ensures Strip(x) == [] || Tidy(Strip(x))
  {
    TrimBottomEnds(x);
    TrimTopStarts(TrimBottom(x));
  }

  lemma StripTidy(x: Lines)
    requires Tidy(x)
    ensures TrimBottom(x) == x && Strip(x) == x
  {
    NotBlank(x[0]);
    NotBlank(x[|x| - 1]);
    assert x == x[..|x| - 1] + [x[|x| - 1]] == [x[0]] + x[1..];
  }

  lemma StripThenBlank(x: Lines, l: string)
    requires Blank(l)
    ensures Strip(x + [l]) == Strip(x)
  {
    assert (x + [l])[..|x|] == x;
  }

  lemma {:induction false} TrimBottomAfter(l: string, x: Lines)
    requires Blank(l)
    ensures TrimBottom([l] + x) == if TrimBottom(x) == [] then [] else [l] + TrimBottom(x)
    decreases |x|
  {
    if x == [] {
      assert [l] + x == [l];
      assert [l][..0] == [];
    } else {
      var n := |x| - 1;
      assert ([l] + x)[..|x|] == [l] + x[..n];
      if Blank(x[n]) { TrimBottomAfter(l, x[..n]); }
    }
  }

  lemma StripAfterBlank(l: string, x: Lines)
    requires Blank(l)
    ensures Strip([l] + x) == Strip(x)
  {
    TrimBottomAfter(l, x);
    if TrimBottom(x) != [] {
      assert ([l] + TrimBottom(x))[1..] == TrimBottom(x);
    }
  }

  // ---------------------------------------------------------------------------
  // Headings

  predicate IsLetter(c: char) { 'a' <= c <= 'z' || 'A' <= c <= 'Z' }

  function LowerChar(c: char): char { if 'A' <= c <= 'Z' then c - 'A' + 'a' else c }

  function Lower(s: string): string { if s == "" then "" else [LowerChar(s[0])] + Lower(s[1..]) }

  /** The category a section heading names: "### ", a letter, letters and blanks, trailing white space. */
  function Heading(l: string): Option<string> {
    if |l| > 4 && l[..4] == "### " then
      var name := RStrip(l[4..]);
      if name != "" && IsLetter(name[0]) && (forall c :: c in name ==> IsLetter(c) || c == ' ')
      then Some(Lower(name)) else None
    else None
  }

  /** A category as a heading yields it: lower case, begun and ended by a letter. */
  predicate ValidName(c: string) {
    && c != "" && c[0] != ' ' && c[|c| - 1] != ' '
    && forall x :: x in c ==> 'a' <= x <= 'z' || x == ' '
  }

  function Capitalize(c: string): string {
    if c == "" then "" else [if 'a' <= c[0] <= 'z' then c[0] - 'a' + 'A' else c[0]] + c[1..]
  }

  function HeadingLine(c: string): string { "### " + Capitalize(c) }

  lemma {:induction false} LowerFacts(s: string)
    ensures |Lower(s)| == |s|
    ensures forall i :: 0 <= i < |s| ==> Lower(s)[i] == LowerChar(s[i])
  {
    if s != "" { LowerFacts(s[1..]); }
  }

  lemma HeadingNamesAreValid(l: string)
    requires Heading(l).Some?
    ensures ValidName(Heading(l).value)
  {
    var name := RStrip(l[4..]);
    RStripFacts(l[4..]);
    LowerFacts(name);
    forall i | 0 <= i < |name| ensures 'a' <= Lower(name)[i] <= 'z' || Lower(name)[i] == ' ' {
      assert name[i] in name;
    }
    assert name[|name| - 1] in name;
  }

  lemma CapitalizeFacts(c: string)
    requires ValidName(c)
    ensures var name := Capitalize(c);
            && |name| == |c| && IsLetter(name[0]) && RStrip(name) == name
            && (forall x :: x in name ==> IsLetter(x) || x == ' ')
            && Lower(name) == c
  {
    var name := Capitalize(c);
    assert c[0] in c && c[|c| - 1] in c;
    forall i | 0 <= i < |c| ensures (IsLetter(name[i]) || name[i] == ' ') && LowerChar(name[i]) == c[i] {
      assert c[i] in c;
      assert i > 0 ==> name[i] == c[i];
    }
    LowerFacts(name);
  }

  /** The heading line written for a category is read back as that category. */
  lemma HeadingRoundTrip(c: string)
    requires ValidName(c)
    ensures Heading(HeadingLine(c)) == Some(c)
  {
    CapitalizeFacts(c);
    var l := HeadingLine(c);
    assert l[..4] == "### " && l[4..] == Capitalize(c);
  }

  /** Trailing white space does not decide whether a line is a heading. */
  lemma HeadingIgnoresTail(l: string)
    ensures Heading(RStrip(l)) == Heading(l)
  {
    RStripFacts(l);
    var r := RStrip(l);
    if |l| > 4 && l[..4] == "### " {
      RStripFacts(l[4..]);
      RStripSplit(l[..4], l[4..]);
      assert l == l[..4] + l[4..];
      if RStrip(l[4..]) != "" {
        assert r[..4] == l[..4] && r[4..] == RStrip(l[4..]);
      } else {
        assert |r| <= 4;
      }
    }
  }

  lemma {:induction false} RStripSplit(a: string, b: string)
    ensures RStrip(a + b) == if RStrip(b) == "" then RStrip(a) else a + RStrip(b)
    decreases |b|
  {
    if b == "" {
      assert a + b == a;
    } else if IsSpace(b[|b| - 1]) {
      assert (a + b)[..|a + b| - 1] == a + b[..|b| - 1];
      RStripSplit(a, b[..|b| - 1]);
    }
  }

  lemma NoHeadingWithoutHash(l: string)
    requires l == "" || l[0] != '#'
    ensures Heading(l).None?
  {
    if |l| > 4 {
      assert l[..4][0] == l[0];
    }
  }

  // ---------------------------------------------------------------------------
  // Splitting

  /** The lines under one heading; the first block is the preamble, filed under "". */
  datatype Block = Block(category: string, raw: Lines)

  datatype Section = Section(category: string, chunk: Lines)

  /** Reads lines one by one: a heading opens a block, any other line goes to the last one. */
  function Feed(bs: seq<Block>, x: Lines): seq<Block>
    requires bs != []
    ensures Feed(bs, x) != []
    decreases |x|
  {
    if x == [] then bs
    else
      var n := |x| - 1;
      var before := Feed(bs, x[..n]);
      var last := before[|before| - 1];
      match Heading(x[n])
      case Some(c) => before + [Block(c, [])]
      case None => before[|before| - 1 := Block(last.category, last.raw + [x[n]])]
  }

  const OPENING := [Block("", [])]

  function Blocks(x: Lines): seq<Block> { Feed(OPENING, x) }

  /** Files a chunk under its category, after what is there already. */
  function FileUnder(ss: seq<Section>, c: string, chunk: Lines): seq<Section> {
    if ss == [] then [Section(c, chunk)]
    else if ss[0].category == c then [Section(c, ss[0].chunk + [""] + chunk)] + ss[1..]
    else [ss[0]] + FileUnder(ss[1..], c, chunk)
  }

  function FileBlock(ss: seq<Section>, b: Block): seq<Section> {
    if Strip(b.raw) == [] then ss else FileUnder(ss, b.category, Strip(b.raw))
  }

  function FileAll(bs: seq<Block>): seq<Section> {
    if bs == [] then [] else FileBlock(FileAll(bs[..|bs| - 1]), bs[|bs| - 1])
  }

  /** The sections of a text in the order their categories first occur. */
  function Split(x: Lines): seq<Section> { FileAll(Blocks(x)) }

  lemma {:induction false} FeedConcat(bs: seq<Block>, a: Lines, b: Lines)
    requires bs != []
    ensures Feed(bs, a + b) == Feed(Feed(bs, a), b)
    decreases |b|
  {
    if b == [] {
      assert a + b == a;
    } else {
      assert (a + b)[..|a + b| - 1] == a + b[..|b| - 1];
      FeedConcat(bs, a, b[..|b| - 1]);
    }
  }

  predicate HeadingFree(x: Lines) { forall l :: l in x ==> Heading(l).None? }

  lemma {:induction false} FeedPlain(bs: seq<Block>, x: Lines)
    requires bs != [] && HeadingFree(x)
    ensures var last := bs[|bs| - 1];
            Feed(bs, x) == bs[|bs| - 1 := Block(last.category, last.raw + x)]
    decreases |x|
  {
    var last := bs[|bs| - 1];
    if x == [] {
      assert last.raw + x == last.raw;
    } else {
      var n := |x| - 1;
      FeedPlain(bs, x[..n]);
      assert x[n] in x;
      assert last.raw + x == last.raw + x[..n] + [x[n]];
    }
  }

  lemma FileLast(bs: seq<Block>, b: Block)
    ensures FileAll(bs + [b]) == FileBlock(FileAll(bs), b)
  {
    assert (bs + [b])[..|bs|] == bs;
  }

  /** Replacing the last block by one that strips to the same text changes nothing. */
  lemma FileSameLast(bs: seq<Block>, raw: Lines)
    requires bs != [] && Strip(raw) == Strip(bs[|bs| - 1].raw)
    ensures FileAll(bs[|bs| - 1 := Block(bs[|bs| - 1].category, raw)]) == FileAll(bs)
  {
    var n := |bs| - 1;
    assert bs[n := Block(bs[n].category, raw)][..n] == bs[..n];
  }

  lemma FeedBlank(bs: seq<Block>, l: string)
    requires bs != [] && Blank(l)
    ensures FileAll(Feed(bs, [l])) == FileAll(bs)
  {
    if l != "" { assert l[0] in l; }
    NoHeadingWithoutHash(l);
    FeedPlain(bs, [l]);
    StripThenBlank(bs[|bs| - 1].raw, l);
    FileSameLast(bs, bs[|bs| - 1].raw + [l]);
  }

  lemma FeedUnderHeading(bs: seq<Block>, c: string, x: Lines)
    requires bs != [] && ValidName(c) && HeadingFree(x)
    ensures Feed(bs, [HeadingLine(c), ""] + x) == bs + [Block(c, [""] + x)]
  {
    NoHeadingWithoutHash("");
    var head, open := [HeadingLine(c)], bs + [Block(c, [])];
    assert [HeadingLine(c), ""] + x == head + ([""] + x);
    FeedConcat(bs, head, [""] + x);
    FeedHeading(bs, c);
    FeedPlain(open, [""] + x);
    assert [] + ([""] + x) == [""] + x;
    assert open[|bs| := Block(c, [""] + x)] == bs + [Block(c, [""] + x)];
  }

  /** Feeding a heading, a blank line and plain lines opens one block and files its stripped text. */
  lemma FeedSection(bs: seq<Block>, c: string, x: Lines)
    requires bs != [] && ValidName(c) && HeadingFree(x)
    ensures FileAll(Feed(bs, [HeadingLine(c), ""] + x)) == FileBlock(FileAll(bs), Block(c, x))
  {
    FeedUnderHeading(bs, c, x);
    FileLast(bs, Block(c, [""] + x));
    StripAfterBlank("", x);
  }

  lemma FeedHeading(bs: seq<Block>, c: string)
    requires bs != [] && ValidName(c)
    ensures Feed(bs, [HeadingLine(c)]) == bs + [Block(c, [])]
  {
    HeadingRoundTrip(c);
    var head := [HeadingLine(c)];
    assert head[..0] == [];
  }

  predicate Has(ss: seq<Section>, c: string) { exists i :: 0 <= i < |ss| && ss[i].category == c }

  lemma {:induction false} FileNew(ss: seq<Section>, c: string, chunk: Lines)
    requires !Has(ss, c)
    ensures FileUnder(ss, c, chunk) == ss + [Section(c, chunk)]
  {
    if ss != [] {
      forall i | 0 <= i < |ss[1..]| ensures ss[1..][i].category != c {
        assert ss[1..][i] == ss[i + 1];
      }
      FileNew(ss[1..], c, chunk);
      assert ss == [ss[0]] + ss[1..];
    }
  }

  // ---------------------------------------------------------------------------
  // Composing

  /** A section as written: the preamble bare, any other under its heading. */
  function Item(s: Section): Lines {
    if s.category == "" then s.chunk else [HeadingLine(s.category), ""] + s.chunk
  }

  /** The items with a blank line between them. */
  function Compose(ss: seq<Section>): Lines {
    if ss == [] then []
    else if |ss| == 1 then Item(ss[0])
    else Compose(ss[..|ss| - 1]) + [""] + Item(ss[|ss| - 1])
  }

  /** Each category once, the preamble only in front, and nothing to strip anywhere. */
  ghost predicate Proper(ss: seq<Section>) {
    && (forall i :: 0 <= i < |ss| ==> Tidy(ss[i].chunk))
    && (forall i :: 0 <= i < |ss| ==> (ss[i].category == "" && i == 0) || ValidName(ss[i].category))
    && (forall i, j :: 0 <= i < j < |ss| ==> ss[i].category != ss[j].category)
  }

  /** No line inside a section reads as a heading. */
  ghost predicate AllHeadingFree(ss: seq<Section>) { forall i :: 0 <= i < |ss| ==> HeadingFree(ss[i].chunk) }

  lemma SplitFirst(s: Section)
    requires Tidy(s.chunk) && HeadingFree(s.chunk) && (s.category == "" || ValidName(s.category))
    ensures Split(Item(s)) == [s]
  {
    StripTidy(s.chunk);
    if s.category == "" {
      SplitPreamble(s.chunk);
    } else {
      FeedSection(OPENING, s.category, s.chunk);
      NothingFiled();
    }
  }

  lemma NothingFiled()
    ensures FileAll(OPENING) == []
  {
    FileLast([], Block("", []));
  }

  lemma SplitPreamble(x: Lines)
    requires HeadingFree(x) && Strip(x) != []
    ensures Split(x) == [Section("", Strip(x))]
  {
    FeedPlain(OPENING, x);
    assert [] + x == x;
    FileLast([], Block("", x));
  }

  lemma SplitLast(x: Lines, s: Section)
    requires Tidy(s.chunk) && HeadingFree(s.chunk) && ValidName(s.category) && !Has(Split(x), s.category)
    ensures Split(x + [""] + Item(s)) == Split(x) + [s]
  {
    StripTidy(s.chunk);
    assert x + [""] + Item(s) == x + ([""] + Item(s));
    FeedConcat(OPENING, x, [""] + Item(s));
    FeedConcat(Blocks(x), [""], Item(s));
    FeedBlank(Blocks(x), "");
    FeedSection(Feed(Blocks(x), [""]), s.category, s.chunk);
    FileNew(Split(x), s.category, s.chunk);
  }

  lemma ComposeLast(ss: seq<Section>, s: Section)
    requires ss != []
    ensures Compose(ss + [s]) == Compose(ss) + [""] + Item(s)
  {
    assert (ss + [s])[..|ss|] == ss;
  }

  lemma SplitComposeLast(ss: seq<Section>, s: Section)
    requires ss != [] && Split(Compose(ss)) == ss
    requires Tidy(s.chunk) && HeadingFree(s.chunk) && ValidName(s.category) && !Has(ss, s.category)
    ensures Split(Compose(ss + [s])) == ss + [s]
  {
    ComposeLast(ss, s);
    SplitLast(Compose(ss), s);
  }

  lemma ProperLast(ss: seq<Section>, n: nat)
    requires Proper(ss) && AllHeadingFree(ss) && 0 < n <= |ss|
    ensures Tidy(ss[n - 1].chunk) && HeadingFree(ss[n - 1].chunk)
    ensures ValidName(ss[n - 1].category) || (n == 1 && ss[n - 1].category == "")
    ensures !Has(ss[..n - 1], ss[n - 1].category)
  {
  }

  lemma {:induction false} SplitComposePrefix(ss: seq<Section>, n: nat)
    requires Proper(ss) && AllHeadingFree(ss) && n <= |ss|
    ensures Split(Compose(ss[..n])) == ss[..n]
    decreases n
  {
    if n == 0 {
      FileLast([], Block("", []));
    } else {
      ProperLast(ss, n);
      assert ss[..n] == ss[..n - 1] + [ss[n - 1]];
      if n == 1 {
        SplitFirst(ss[0]);
        assert ss[..1] == [ss[0]];
      } else {
        SplitComposePrefix(ss, n - 1);
        SplitComposeLast(ss[..n - 1], ss[n - 1]);
      }
    }
  }

  lemma SplitCompose(ss: seq<Section>)
    requires Proper(ss) && AllHeadingFree(ss)
    ensures Split(Compose(ss)) == ss
  {
    SplitComposePrefix(ss, |ss|);
    assert ss[..|ss|] == ss;
  }

  // ---- counting lines --------------------------------------------------------------

  function NonBlank(x: Lines): nat {
    if x == [] then 0 else NonBlank(x[..|x| - 1]) + (if Blank(x[|x| - 1]) then 0 else 1)
  }

  function HeadingCount(x: Lines): nat {
    if x == [] then 0 else HeadingCount(x[..|x| - 1]) + (if Heading(x[|x| - 1]).Some? then 1 else 0)
  }

  lemma {:induction false} CountConcat(a: Lines, b: Lines)
    ensures NonBlank(a + b) == NonBlank(a) + NonBlank(b)
    ensures HeadingCount(a + b) == HeadingCount(a) + HeadingCount(b)
    decreases |b|
  {
    if b == [] {
      assert a + b == a;
    } else {
      assert (a + b)[..|a + b| - 1] == a + b[..|b| - 1];
      CountConcat(a, b[..|b| - 1]);
    }
  }

  lemma {:induction false} HeadingFreeIffNone(x: Lines)
    ensures HeadingFree(x) <==> HeadingCount(x) == 0
  {
    if x != [] {
      HeadingFreeIffNone(x[..|x| - 1]);
      assert x == x[..|x| - 1] + [x[|x| - 1]];
    }
  }

  lemma CountOne(l: string)
    ensures NonBlank([l]) == (if Blank(l) then 0 else 1) && HeadingCount([l]) == (if Heading(l).Some? then 1 else 0)
  {
    assert [l][..0] == [];
  }

  lemma HeadingsAreNotBlank(l: string)
    requires Heading(l).Some?
    ensures !Blank(l)
  {
    assert l[0] == l[..4][0] == '#';
    assert l[0] in l;
  }

  /** Stripping removes blank lines only. */
  lemma {:induction false} TrimBottomCounts(x: Lines)
    ensures NonBlank(TrimBottom(x)) == NonBlank(x)
  {
    if x != [] {
      var n := |x| - 1;
      if Blank(x[n]) {
        TrimBottomCounts(x[..n]);
      } else {
        RStripFacts(x[n]);
        NotBlank(RStrip(x[n]));
        CountConcat(x[..n], [RStrip(x[n])]);
        CountOne(RStrip(x[n]));
      }
    }
  }

  lemma {:induction false} TrimTopCounts(x: Lines)
    ensures NonBlank(TrimTop(x)) == NonBlank(x)
  {
    if x != [] {
      assert x == [x[0]] + x[1..];
      CountConcat([x[0]], x[1..]);
      CountOne(x[0]);
      if Blank(x[0]) {
        TrimTopCounts(x[1..]);
      } else {
        LStripFacts(x[0]);
        NotBlank(LStrip(x[0]));
        CountConcat([LStrip(x[0])], x[1..]);
        CountOne(LStrip(x[0]));
      }
    }
  }

  lemma StripCounts(x: Lines)
    ensures NonBlank(Strip(x)) == NonBlank(x)
  {
    TrimBottomCounts(x);
    TrimTopCounts(TrimBottom(x));
  }

  function TextOf(ss: seq<Section>): nat {
    if ss == [] then 0 else NonBlank(ss[0].chunk) + TextOf(ss[1..])
  }

  function StrayHeadings(ss: seq<Section>): nat {
    if ss == [] then 0 else HeadingCount(ss[0].chunk) + StrayHeadings(ss[1..])
  }

  lemma {:induction false} TextConcat(a: seq<Section>, b: seq<Section>)
    ensures TextOf(a + b) == TextOf(a) + TextOf(b)
    ensures StrayHeadings(a + b) == StrayHeadings(a) + StrayHeadings(b)
  {
    if a == [] {
      assert a + b == b;
    } else {
      assert (a + b)[1..] == a[1..] + b;
      TextConcat(a[1..], b);
    }
  }

  lemma {:induction false} FileUnderCounts(ss: seq<Section>, c: string, chunk: Lines)
    ensures TextOf(FileUnder(ss, c, chunk)) == TextOf(ss) + NonBlank(chunk)
    ensures StrayHeadings(FileUnder(ss, c, chunk)) == StrayHeadings(ss) + HeadingCount(chunk)
  {
    if ss == [] {
      assert [Section(c, chunk)][1..] == [];
    } else if ss[0].category == c {
      var s := Section(c, ss[0].chunk + [""] + chunk);
      CountConcat(ss[0].chunk + [""], chunk);
      CountConcat(ss[0].chunk, [""]);
      CountOne("");
      assert ([s] + ss[1..])[1..] == ss[1..];
    } else {
      FileUnderCounts(ss[1..], c, chunk);
      assert ([ss[0]] + FileUnder(ss[1..], c, chunk))[1..] == FileUnder(ss[1..], c, chunk);
    }
  }

  function RawText(bs: seq<Block>): nat {
    if bs == [] then 0 else RawText(bs[..|bs| - 1]) + NonBlank(bs[|bs| - 1].raw)
  }

  lemma {:induction false} FileAllCounts(bs: seq<Block>)
    ensures TextOf(FileAll(bs)) == RawText(bs)
  {
    if bs != [] {
      var b := bs[|bs| - 1];
      FileAllCounts(bs[..|bs| - 1]);
      StripCounts(b.raw);
      FileUnderCounts(FileAll(bs[..|bs| - 1]), b.category, Strip(b.raw));
    }
  }

  lemma {:induction false} FeedCounts(x: Lines)
    ensures RawText(Blocks(x)) + HeadingCount(x) == NonBlank(x)
  {
    if x == [] {
      assert OPENING[..0] == [];
    } else {
      var n := |x| - 1;
      FeedCounts(x[..n]);
      var before := Blocks(x[..n]);
      var m := |before| - 1;
      if Heading(x[n]).Some? {
        HeadingsAreNotBlank(x[n]);
        var b := Block(Heading(x[n]).value, []);
        assert (before + [b])[..|before|] == before;
      } else {
        var b := Block(before[m].category, before[m].raw + [x[n]]);
        assert before[m := b][..m] == before[..m];
        CountConcat(before[m].raw, [x[n]]);
        CountOne(x[n]);
      }
    }
  }

  /** Splitting keeps every line that is neither blank nor a heading. */
  lemma SplitKeepsText(x: Lines)
    ensures TextOf(Split(x)) + HeadingCount(x) == NonBlank(x)
  {
    FeedCounts(x);
    FileAllCounts(Blocks(x));
  }

  lemma ItemCounts(s: Section)
    requires s.category == "" || ValidName(s.category)
    ensures NonBlank(Item(s)) + HeadingCount(s.chunk) == NonBlank(s.chunk) + HeadingCount(Item(s))
  {
    if s.category != "" {
      HeadingRoundTrip(s.category);
      HeadingsAreNotBlank(HeadingLine(s.category));
      assert [HeadingLine(s.category), ""] == [HeadingLine(s.category)] + [""];
      CountConcat([HeadingLine(s.category)], [""]);
      CountConcat([HeadingLine(s.category), ""], s.chunk);
      CountOne(HeadingLine(s.category));
      CountOne("");
      NoHeadingWithoutHash("");
    }
  }

  lemma TextOfOne(s: Section)
    ensures TextOf([s]) == NonBlank(s.chunk) && StrayHeadings([s]) == HeadingCount(s.chunk)
  {
    assert [s][1..] == [];
  }

  lemma CountAround(a: Lines, b: Lines)
    ensures NonBlank(a + [""] + b) == NonBlank(a) + NonBlank(b)
    ensures HeadingCount(a + [""] + b) == HeadingCount(a) + HeadingCount(b)
  {
    CountConcat(a + [""], b);
    CountConcat(a, [""]);
    CountOne("");
    NoHeadingWithoutHash("");
  }

  lemma {:induction false} ComposeCounts(ss: seq<Section>)
    requires Proper(ss)
    ensures NonBlank(Compose(ss)) + StrayHeadings(ss) == TextOf(ss) + HeadingCount(Compose(ss))
  {
    if ss != [] {
      var n := |ss| - 1;
      ItemCounts(ss[n]);
      assert ss == ss[..n] + [ss[n]];
      TextConcat(ss[..n], [ss[n]]);
      TextOfOne(ss[n]);
      if n > 0 {
        ComposeCounts(ss[..n]);
        CountAround(Compose(ss[..n]), Item(ss[n]));
      } else {
        assert ss[..0] == [];
      }
    }
  }

  lemma {:induction false} NoStrayIffFree(ss: seq<Section>)
    ensures StrayHeadings(ss) == 0 <==> AllHeadingFree(ss)
  {
    if ss != [] {
      NoStrayIffFree(ss[1..]);
      HeadingFreeIffNone(ss[0].chunk);
      assert ss == [ss[0]] + ss[1..];
      if HeadingFree(ss[0].chunk) && AllHeadingFree(ss[1..]) {
        forall i | 0 <= i < |ss| ensures HeadingFree(ss[i].chunk) {
          if i > 0 { assert ss[i] == ss[1..][i - 1]; }
        }
      }
      if AllHeadingFree(ss) {
        forall i | 0 <= i < |ss[1..]| ensures HeadingFree(ss[1..][i].chunk) { assert ss[1..][i] == ss[i + 1]; }
      }
    }
  }

  /** Composed sections split back into themselves exactly when no line inside one reads as a heading. */
  lemma SplitUndoesCompose(ss: seq<Section>)
    requires Proper(ss)
    ensures Split(Compose(ss)) == ss <==> AllHeadingFree(ss)
  {
    if AllHeadingFree(ss) {
      SplitCompose(ss);
    } else {
      NoStrayIffFree(ss);
      SplitKeepsText(Compose(ss));
      ComposeCounts(ss);
    }
  }
}
