/** The document segmenter: splits the instructions document into sections at
    lines that start with `#` once trimmed (instructions.go, `parseMarkdown`).

    This only loosely resembles a Markdown ATX heading: no space is needed
    after the `#` run, the level has no upper bound, and closing `#`s stay in
    the title.
 */
module Markdown {
  import opened Unicode
  import opened Strings

  /** One heading-delimited unit of the document. */
  datatype Section = Section(title: string, content: string, level: nat)

  /** What every section kept by the segmenter satisfies. */
  predicate WellFormed(s: Section) {
    && s.title != "" && TrimSpace(s.title) == s.title
    && s.content != "" && TrimSpace(s.content) == s.content
    && s.level >= 1
  }

  /** A heading line: its first character other than white space is `#`.
      `IsHeadingIff` shows this is the source's test that the trimmed line
      starts with `#`. */
  predicate IsHeading(line: string)
    decreases |line|
  {
    |line| > 0 && (if IsSpace(line[0]) then IsHeading(line[1..]) else line[0] == '#')
  }

  lemma {:induction false} IsHeadingTrimLeft(line: string)
    ensures IsHeading(line) <==> HasPrefix(TrimLeft(line), "#")
    decreases |line|
  {
    if |line| > 0 && IsSpace(line[0]) {
      IsHeadingTrimLeft(line[1..]);
    }
  }

  /** The heading test on the raw line agrees with the source's test on the trimmed line. */
  lemma {:induction false} IsHeadingIff(line: string)
    ensures IsHeading(line) <==> HasPrefix(TrimSpace(line), "#")
  {
    IsHeadingTrimLeft(line);
    var l := TrimLeft(line);
    TrimLeftSpec(line);
    TrimRightSpec(l);
    if l != [] {
      assert TrimRight(l) != [];
      assert TrimRight(l)[0] == l[0];
    }
  }

  /** Length of the run of `#` that starts `s`. */
  function HashRun(s: string): (n: nat)
    ensures n <= |s|
    ensures forall i :: 0 <= i < n ==> s[i] == '#'
    ensures n == |s| || s[n] != '#'
    decreases |s|
  {
    if |s| > 0 && s[0] == '#' then 1 + HashRun(s[1..]) else 0
  }

  /** The level of a heading line: how many `#` start the trimmed line. */
  function HeadingLevel(line: string): (n: nat)
    ensures IsHeading(line) ==> n >= 1
  {
    IsHeadingIff(line);
    HashRun(TrimSpace(line))
  }

  /** The title of a heading line: what follows the `#` run, trimmed. */
  function HeadingTitle(line: string): (r: string)
    ensures TrimSpace(r) == r
  {
    var t := TrimSpace(line);
    TrimSpaceIdempotent(t[HashRun(t)..]);
    TrimSpace(t[HashRun(t)..])
  }

  /** The line the response writes above a section's content. */
  function RenderHeading(level: nat, title: string): string {
    Repeat('#', level) + " " + title
  }

  function Repeat(c: char, n: nat): (r: string)
    ensures |r| == n
    ensures forall i :: 0 <= i < n ==> r[i] == c
  {
    if n == 0 then "" else [c] + Repeat(c, n - 1)
  }

  // ----------------------------------------------------------------------
  // The segmenter as written: one pass over the lines with an open section.
  // ----------------------------------------------------------------------

  /** The loop state: sections finished so far, then the open section's
      title and level and the body lines gathered for it. An empty title
      means no section is open. */
  datatype Builder = Builder(done: seq<Section>, title: string, level: nat, body: seq<string>)

  const Start: Builder := Builder([], "", 0, [])

  /** Closing the open section: kept only if it has a title and a non-blank body. */
  function Close(b: Builder): seq<Section> {
    if b.title == "" then []
    else
      var content := TrimSpace(Join(b.body, '\n'));
      if content == "" then [] else [Section(b.title, content, b.level)]
  }

  /** One iteration of the loop over lines. */
  function Feed(b: Builder, line: string): Builder {
    if IsHeading(line) then
      Builder(b.done + Close(b), HeadingTitle(line), HeadingLevel(line), [])
    else if b.title != "" then
      b.(body := b.body + [line])
    else
      b
  }

  function FeedAll(b: Builder, lines: seq<string>): Builder
    decreases |lines|
  {
    if lines == [] then b else FeedAll(Feed(b, lines[0]), lines[1..])
  }

  /** `parseMarkdown`: the sections of a document, in document order. */
  function ParseMarkdown(content: string): (r: seq<Section>)
    ensures forall i :: 0 <= i < |r| ==> WellFormed(r[i])
    ensures |r| <= HeadingCount(Split(content, '\n'))
  {
    var lines := Split(content, '\n');
    var b := FeedAll(Start, lines);
    ParseMatchesSegments(content);
    SegmentsWellFormed(lines);
    SegmentsCount(lines);
    b.done + Close(b)
  }

  // ----------------------------------------------------------------------
  // The same segmentation stated block by block.
  // ----------------------------------------------------------------------

  /** Index of the first heading line, or the number of lines if there is none. */
  function FirstHeading(lines: seq<string>): (j: nat)
    ensures j <= |lines|
    ensures forall i :: 0 <= i < j ==> !IsHeading(lines[i])
    ensures j == |lines| || IsHeading(lines[j])
    decreases |lines|
  {
    if lines == [] || IsHeading(lines[0]) then 0 else 1 + FirstHeading(lines[1..])
  }

  function HeadingCount(lines: seq<string>): nat
    decreases |lines|
  {
    if lines == [] then 0
    else (if IsHeading(lines[0]) then 1 else 0) + HeadingCount(lines[1..])
  }

  /** The section a heading line and the lines under it produce, if any. */
  function Entry(heading: string, body: seq<string>): seq<Section> {
    var title := HeadingTitle(heading);
    var content := TrimSpace(Join(body, '\n'));
    if title != "" && content != "" then [Section(title, content, HeadingLevel(heading))] else []
  }

  /** Sections of lines that start at a heading: each heading owns the lines
      up to the next heading. */
  function Blocks(lines: seq<string>): seq<Section>
    decreases |lines|
  {
    if lines == [] then []
    else
      var rest := lines[1..];
      var j := FirstHeading(rest);
      Entry(lines[0], rest[..j]) + Blocks(rest[j..])
  }

  /** Lines before the first heading belong to no section. */
  function Segments(lines: seq<string>): seq<Section> {
    Blocks(lines[FirstHeading(lines)..])
  }

  lemma {:induction false} CloseIsEntry(done: seq<Section>, heading: string, body: seq<string>)
    ensures Close(Builder(done, HeadingTitle(heading), HeadingLevel(heading), body)) == Entry(heading, body)
  {
  }

  /** What the loop yields from state `b` over `lines`, as the block-by-block description says. */
  function Expected(b: Builder, lines: seq<string>): seq<Section> {
    var j := FirstHeading(lines);
    b.done + Close(b.(body := b.body + lines[..j])) + Blocks(lines[j..])
  }

  function Result(b: Builder): seq<Section> {
    b.done + Close(b)
  }

  lemma {:induction false} HeadingStep(b: Builder, lines: seq<string>)
    requires lines != [] && IsHeading(lines[0])
    ensures Expected(Feed(b, lines[0]), lines[1..]) == Expected(b, lines)
  {
    HeadingOpens(b, lines);
    HeadingStarts(b, lines);
  }

  /** After a heading line the loop has closed `b` and opened the heading's
      section, which then owns the lines up to the next heading. */
  lemma {:induction false} HeadingOpens(b: Builder, lines: seq<string>)
    requires lines != [] && IsHeading(lines[0])
    ensures Expected(Feed(b, lines[0]), lines[1..]) == Result(b) + Blocks(lines)
  {
    FeedHeading(b, lines[0]);
    OpenedExpected(Result(b), lines);
  }

  lemma {:induction false} FeedHeading(b: Builder, line: string)
    requires IsHeading(line)
    ensures Feed(b, line) == Builder(Result(b), HeadingTitle(line), HeadingLevel(line), [])
  {
  }

  /** A section just opened at `lines[0]` yields the blocks of `lines`. */
  lemma {:induction false} OpenedExpected(done: seq<Section>, lines: seq<string>)
    requires lines != []
    ensures Expected(Builder(done, HeadingTitle(lines[0]), HeadingLevel(lines[0]), []), lines[1..]) == done + Blocks(lines)
  {
    OpenedUnfold(done, lines);
    BlocksUnfold(lines);
    var rest := lines[1..];
    var k := FirstHeading(rest);
    ConcatAssoc(done, Entry(lines[0], rest[..k]), Blocks(rest[k..]));
  }

  lemma {:induction false} OpenedUnfold(done: seq<Section>, lines: seq<string>)
    requires lines != []
    ensures var rest := lines[1..]; var k := FirstHeading(rest);
            Expected(Builder(done, HeadingTitle(lines[0]), HeadingLevel(lines[0]), []), rest)
            == done + Entry(lines[0], rest[..k]) + Blocks(rest[k..])
  {
    var rest := lines[1..];
    var k := FirstHeading(rest);
    assert [] + rest[..k] == rest[..k];
    CloseIsEntry(done, lines[0], rest[..k]);
  }

  lemma {:induction false} BlocksUnfold(lines: seq<string>)
    requires lines != []
    ensures var rest := lines[1..]; var k := FirstHeading(rest);
            Blocks(lines) == Entry(lines[0], rest[..k]) + Blocks(rest[k..])
  {
  }

  /** Lines that start at a heading add nothing to the open section of `b`. */
  lemma {:induction false} HeadingStarts(b: Builder, lines: seq<string>)
    requires lines != [] && IsHeading(lines[0])
    ensures Expected(b, lines) == Result(b) + Blocks(lines)
  {
    assert FirstHeading(lines) == 0;
    assert b.(body := b.body + lines[..0]) == b;
    assert lines[0..] == lines;
  }

  lemma {:induction false} TextStep(b: Builder, lines: seq<string>)
    requires lines != [] && !IsHeading(lines[0])
    ensures Expected(Feed(b, lines[0]), lines[1..]) == Expected(b, lines)
  {
    var rest := lines[1..];
    var k := FirstHeading(rest);
    var j := FirstHeading(lines);
    var b' := Feed(b, lines[0]);
    assert j == k + 1;
    assert lines[..j] == [lines[0]] + rest[..k];
    assert lines[j..] == rest[k..];
    if b.title != "" {
      assert b'.body + rest[..k] == b.body + lines[..j];
    }
  }

  /** The loop, run from any state, closes the open section over the lines up
      to the next heading and then produces the blocks of the remaining lines. */
  lemma {:induction false} FeedAllBlocks(b: Builder, lines: seq<string>)
    ensures Result(FeedAll(b, lines)) == Expected(b, lines)
    decreases |lines|
  {
    if lines == [] {
      assert b.(body := b.body + lines[..0]) == b;
    } else {
      FeedAllBlocks(Feed(b, lines[0]), lines[1..]);
      if IsHeading(lines[0]) {
        HeadingStep(b, lines);
      } else {
        TextStep(b, lines);
      }
    }
  }

  /** The one-pass segmenter and the block-by-block description agree on every document. */
  lemma {:induction false} ParseMatchesSegments(content: string)
    ensures var b := FeedAll(Start, Split(content, '\n'));
            b.done + Close(b) == Segments(Split(content, '\n'))
  {
    var lines := Split(content, '\n');
    FeedAllBlocks(Start, lines);
    assert Start.(body := lines[..FirstHeading(lines)]).title == "";
  }

  lemma {:induction false} BlocksWellFormed(lines: seq<string>)
    requires lines == [] || IsHeading(lines[0])
    ensures forall i :: 0 <= i < |Blocks(lines)| ==> WellFormed(Blocks(lines)[i])
    decreases |lines|
  {
    if lines != [] {
      var rest := lines[1..];
      var j := FirstHeading(rest);
      var e := Entry(lines[0], rest[..j]);
      TrimSpaceIdempotent(Join(rest[..j], '\n'));
      BlocksWellFormed(rest[j..]);
      assert forall i :: 0 <= i < |e| ==> WellFormed(e[i]);
    }
  }

  lemma {:induction false} SegmentsWellFormed(lines: seq<string>)
    ensures forall i :: 0 <= i < |Segments(lines)| ==> WellFormed(Segments(lines)[i])
  {
    BlocksWellFormed(lines[FirstHeading(lines)..]);
  }

  lemma {:induction false} HeadingCountAppend(a: seq<string>, b: seq<string>)
    ensures HeadingCount(a + b) == HeadingCount(a) + HeadingCount(b)
    decreases |a|
  {
    if a != [] {
      var ab := a + b;
      assert ab[0] == a[0];
      assert ab[1..] == a[1..] + b;
      HeadingCountAppend(a[1..], b);
      var h := if IsHeading(a[0]) then 1 else 0;
      assert HeadingCount(ab) == h + HeadingCount(ab[1..]);
      assert HeadingCount(a) == h + HeadingCount(a[1..]);
    } else {
      assert a + b == b;
    }
  }

  lemma {:induction false} NoHeadingCount(a: seq<string>)
    requires forall i :: 0 <= i < |a| ==> !IsHeading(a[i])
    ensures HeadingCount(a) == 0
    decreases |a|
  {
    if a != [] {
      assert !IsHeading(a[0]);
      assert forall i :: 0 <= i < |a[1..]| ==> !IsHeading(a[1..][i]);
      NoHeadingCount(a[1..]);
    }
  }

  lemma {:induction false} BlocksCount(lines: seq<string>)
    requires lines == [] || IsHeading(lines[0])
    ensures |Blocks(lines)| <= HeadingCount(lines)
    decreases |lines|
  {
    if lines != [] {
      var rest := lines[1..];
      var j := FirstHeading(rest);
      BlocksCount(rest[j..]);
      SkipTextCount(rest, j);
      EntryAtMostOne(lines[0], rest[..j]);
      assert |Blocks(lines)| == |Entry(lines[0], rest[..j])| + |Blocks(rest[j..])|;
      assert HeadingCount(lines) == 1 + HeadingCount(rest);
    }
  }

  lemma {:induction false} EntryAtMostOne(heading: string, body: seq<string>)
    ensures |Entry(heading, body)| <= 1
  {
  }

  /** Lines before the first heading add nothing to the heading count. */
  lemma {:induction false} SkipTextCount(lines: seq<string>, j: nat)
    requires j <= |lines|
    requires forall i :: 0 <= i < j ==> !IsHeading(lines[i])
    ensures HeadingCount(lines[j..]) == HeadingCount(lines)
  {
    TakeDrop(lines, j);
    HeadingCountAppend(lines[..j], lines[j..]);
    NoHeadingCount(lines[..j]);
  }

  lemma {:induction false} SegmentsCount(lines: seq<string>)
    ensures |Segments(lines)| <= HeadingCount(lines)
  {
    var j := FirstHeading(lines);
    BlocksCount(lines[j..]);
    SkipTextCount(lines, j);
  }

  // ----------------------------------------------------------------------
  // Headings, preamble and the rendering of a section.
  // ----------------------------------------------------------------------

  lemma {:induction false} HashRunAfterHashes(n: nat, x: string)
    ensures HashRun(Repeat('#', n) + x) == n + HashRun(x)
    decreases n
  {
    if n > 0 {
      var s := Repeat('#', n) + x;
      assert s[1..] == Repeat('#', n - 1) + x;
      HashRunAfterHashes(n - 1, x);
    } else {
      assert Repeat('#', 0) + x == x;
    }
  }

  /** Reading back the heading line the response writes for a section gives
      that section's level and title. */
  lemma {:induction false} HeadingRoundTrip(level: nat, title: string)
    requires level >= 1 && title != "" && TrimSpace(title) == title
    ensures IsHeading(RenderHeading(level, title))
    ensures HeadingLevel(RenderHeading(level, title)) == level
    ensures HeadingTitle(RenderHeading(level, title)) == title
  {
    var h := RenderHeading(level, title);
    RenderedHeadingTrimmed(level, title);
    assert IsHeading(h) by {
      assert h[0] == '#';
    }
    RenderedHashRun(level, title);
    RenderedTitle(level, title);
  }

  /** The heading line the response writes has no surrounding white space. */
  lemma {:induction false} RenderedHeadingTrimmed(level: nat, title: string)
    requires level >= 1 && title != "" && TrimSpace(title) == title
    ensures TrimSpace(RenderHeading(level, title)) == RenderHeading(level, title)
  {
    var h := RenderHeading(level, title);
    TrimSpaceSpec(title);
    assert h[0] == '#';
    assert h[|h| - 1] == title[|title| - 1];
    TrimSpaceSpec(h);
  }

  lemma {:induction false} RenderedHashRun(level: nat, title: string)
    requires title != "" && TrimSpace(title) == title
    ensures HashRun(RenderHeading(level, title)) == level
  {
    HashRunAfterHashes(level, " " + title);
    assert RenderHeading(level, title) == Repeat('#', level) + (" " + title);
  }

  lemma {:induction false} RenderedTitle(level: nat, title: string)
    requires title != "" && TrimSpace(title) == title
    ensures var h := RenderHeading(level, title); TrimSpace(h[level..]) == title
  {
    var h := RenderHeading(level, title);
    assert h == Repeat('#', level) + (" " + title);
    assert h[level..] == " " + title;
    assert (" " + title)[1..] == title;
    TrimSpaceSpec(title);
    assert TrimLeft(" " + title) == TrimLeft(title) == title;
  }

  /** `"### Title"` is a level-3 heading titled `"Title"`. */
  lemma {:induction false} ExampleLevelThree()
    ensures IsHeading("### Title")
    ensures HeadingLevel("### Title") == 3 && HeadingTitle("### Title") == "Title"
  {
    TrimSpaceSpec("Title");
    assert RenderHeading(3, "Title") == "### Title";
    HeadingRoundTrip(3, "Title");
  }

  lemma {:induction false} FirstHeadingAfterText(a: seq<string>, b: seq<string>)
    requires forall i :: 0 <= i < |a| ==> !IsHeading(a[i])
    ensures FirstHeading(a + b) == |a| + FirstHeading(b)
    decreases |a|
  {
    if a == [] {
      assert a + b == b;
    } else {
      assert (a + b)[0] == a[0];
      assert (a + b)[1..] == a[1..] + b;
      FirstHeadingAfterText(a[1..], b);
    }
  }

  lemma {:induction false} SegmentsAfterText(p: seq<string>, d: seq<string>)
    requires forall i :: 0 <= i < |p| ==> !IsHeading(p[i])
    ensures Segments(p + d) == Segments(d)
  {
    FirstHeadingAfterText(p, d);
    DropAfterPrefix(p, d, FirstHeading(d));
  }

  /** Text before the first heading is discarded: putting heading-free lines
      in front of a document does not change its sections. */
  lemma {:induction false} PreambleDiscarded(pre: string, doc: string)
    requires NoHeadingLines(pre)
    ensures ParseMarkdown(pre + "\n" + doc) == ParseMarkdown(doc)
  {
    var text := pre + "\n" + doc;
    assert text == pre + ['\n'] + doc;
    SplitAppend(pre, '\n', doc);
    ParseMatchesSegments(text);
    ParseMatchesSegments(doc);
    SegmentsAfterText(Split(pre, '\n'), Split(doc, '\n'));
  }

  /** A section as the response writes it: heading line, blank line, content. */
  function RenderSection(s: Section): string {
    RenderHeading(s.level, s.title) + "\n\n" + s.content + "\n"
  }

  /** No line of `text` is a heading. */
  predicate NoHeadingLines(text: string) {
    forall i :: 0 <= i < |Split(text, '\n')| ==> !IsHeading(Split(text, '\n')[i])
  }

  /** Segmenting a rendered section gives back exactly that section, provided
      its title is one line and no line of its content looks like a heading. */
  lemma {:induction false} RenderSectionRoundTrip(s: Section)
    requires WellFormed(s)
    requires Free(s.title, '\n')
    requires NoHeadingLines(s.content)
    ensures ParseMarkdown(RenderSection(s)) == [s]
  {
    var h := RenderHeading(s.level, s.title);
    var rest := BodyLines(s.content);
    var text := RenderSection(s);
    var lines := [h] + rest;
    HeadingRoundTrip(s.level, s.title);
    RenderedLines(s);
    ParseMatchesSegments(text);
    assert FirstHeading(lines) == 0;
    assert lines[0..] == lines;
    assert lines[1..] == rest;
    BodyLinesNoHeading(s.content);
    assert rest[..|rest|] == rest && rest[|rest|..] == [];
    assert Blocks(lines) == Entry(h, rest) + Blocks([]);
    BodyLinesJoin(s.content);
  }

  /** The lines under the heading of a rendered section: a blank line, the
      content's lines, and the empty piece after the final newline. */
  function BodyLines(c: string): seq<string> {
    [""] + Split(c, '\n') + [""]
  }

  lemma {:induction false} RenderedLines(s: Section)
    requires WellFormed(s)
    requires Free(s.title, '\n')
    ensures Split(RenderSection(s), '\n') == [RenderHeading(s.level, s.title)] + BodyLines(s.content)
  {
    var h := RenderHeading(s.level, s.title);
    var c := s.content;
    HeadingRoundTrip(s.level, s.title);
    assert Free(h, '\n');
    assert RenderSection(s) == h + ['\n'] + ("" + ['\n'] + (c + ['\n'] + ""));
    SplitAfterPiece(h, '\n', "" + ['\n'] + (c + ['\n'] + ""));
    SplitAfterPiece("", '\n', c + ['\n'] + "");
    SplitAppend(c, '\n', "");
  }

  lemma {:induction false} BodyLinesNoHeading(c: string)
    requires NoHeadingLines(c)
    ensures FirstHeading(BodyLines(c)) == |BodyLines(c)|
  {
    var cl := Split(c, '\n');
    var rest := BodyLines(c);
    assert !IsHeading("");
    forall i | 0 <= i < |rest| ensures !IsHeading(rest[i]) {
      if 0 < i < |rest| - 1 {
        assert rest[i] == cl[i - 1];
      }
    }
    FirstHeadingAfterText(rest, []);
    assert rest + [] == rest;
  }

  lemma {:induction false} BodyLinesJoin(c: string)
    requires c != "" && TrimSpace(c) == c
    ensures TrimSpace(Join(BodyLines(c), '\n')) == c
  {
    var cl := Split(c, '\n');
    JoinAppend([""], cl + [""], '\n');
    JoinAppend(cl, [""], '\n');
    assert BodyLines(c) == [""] + (cl + [""]);
    JoinSplit(c, '\n');
    assert Join(BodyLines(c), '\n') == ['\n'] + c + ['\n'];
    TrimSpaceSpec(c);
    TrimSpaceSurround('\n', c, '\n');
  }

  lemma {:induction false} ExampleHeadings()
    ensures HeadingTitle("# A") == "A" && HeadingTitle("# B") == "B"
    ensures IsHeading("# A") && IsHeading("# B") && HeadingLevel("# B") == 1
    ensures !IsHeading("body")
  {
    assert "# A" == ['#', ' ', 'A'] && "A" == ['A'];
    assert "# B" == ['#', ' ', 'B'] && "B" == ['B'];
    HeadingOfLetter('A');
    HeadingOfLetter('B');
  }

  /** `"# c"` for a character `c` that is not white space is a level-1 heading titled `c`. */
  lemma {:induction false} HeadingOfLetter(c: char)
    requires !IsSpace(c)
    ensures IsHeading(['#', ' ', c])
    ensures HeadingLevel(['#', ' ', c]) == 1
    ensures HeadingTitle(['#', ' ', c]) == [c]
  {
    TrimSpaceSpec([c]);
    assert RenderHeading(1, [c]) == ['#', ' ', c];
    HeadingRoundTrip(1, [c]);
  }

  lemma {:induction false} ExampleEntries()
    ensures Entry("# A", []) == []
    ensures Entry("# B", ["body"]) == [Section("B", "body", 1)]
  {
    EntryWithoutBody("# A");
    ExampleBodyEntry();
  }

  /** A heading with no lines under it yields no section. */
  lemma {:induction false} EntryWithoutBody(heading: string)
    ensures Entry(heading, []) == []
  {
    assert Join([], '\n') == "";
    TrimSpaceSpec("");
  }

  lemma {:induction false} ExampleBodyEntry()
    ensures Entry("# B", ["body"]) == [Section("B", "body", 1)]
  {
    ExampleHeadings();
    assert Join(["body"], '\n') == "body";
    TrimSpaceSpec("body");
  }

  lemma {:induction false} ExampleLines()
    ensures Split("# A\n# B\nbody", '\n') == ["# A", "# B", "body"]
  {
    var lines := ["# A", "# B", "body"];
    assert Join(lines, '\n') == "# A\n# B\nbody";
    assert forall i :: 0 <= i < |lines| ==> Free(lines[i], '\n');
    SplitJoin(lines, '\n');
  }

  lemma {:induction false} ExampleSegments()
    ensures Segments(["# A", "# B", "body"]) == [Section("B", "body", 1)]
  {
    var lines := ["# A", "# B", "body"];
    ExampleHeadings();
    ExampleEntries();
    assert FirstHeading(lines) == 0;
    assert lines[0..] == lines;
    assert FirstHeading(lines[1..]) == 0;
    assert lines[1..][1..] == ["body"];
    assert FirstHeading(["body"]) == 1;
    assert ["body"][..1] == ["body"] && ["body"][1..] == [];
    assert Blocks(lines[1..]) == Entry("# B", ["body"]) + Blocks([]);
  }

  /** `"# A\n# B\nbody"` has one section, `B`: the heading `A` has no body. */
  lemma {:induction false} ExampleEmptyBodyDropped()
    ensures ParseMarkdown("# A\n# B\nbody") == [Section("B", "body", 1)]
  {
    ExampleLines();
    ParseMatchesSegments("# A\n# B\nbody");
    ExampleSegments();
  }
}
