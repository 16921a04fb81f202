/** From the exported blocks to the chunks that show them: chunk_docling loses nothing a block shows
    (backend/app/chunking.py). Blocks and pages are read here by their own keys. */
module DoclingCoverage {
  import opened Wrappers
  import opened Text
  import opened Sorting
  import opened Chunks
  import opened Docling

  // One block, by its keys

  /** The text a block shows: its text, else its content, else its rows. */
  predicate Shows(block: Block, value: string) {
    && block.Block?
    && match block.text
       case NotStr => false
       case Str(s) => if s != "" then value == s else ShowsContent(block, value)
       case Absent => ShowsContent(block, value)
  }

  predicate ShowsContent(block: Block, value: string)
    requires block.Block?
  {
    match block.content
    case NotStr => false
    case Str(s) => if s != "" then value == s else ShowsRows(block.rows, value)
    case Absent => ShowsRows(block.rows, value)
  }

  /** One line per row, its cells between bars; what is not a row is skipped. */
  predicate ShowsRows(rows: seq<Row>, value: string) {
    if |rows| == 0 then value == ""
    else if rows[0].NoCells? then ShowsRows(rows[1..], value)
    else if forall i :: 1 <= i < |rows| ==> rows[i].NoCells? then value == Line(rows[0].cells)
    else |value| > |Line(rows[0].cells)| && value[..|Line(rows[0].cells)| + 1] == Line(rows[0].cells) + "\n"
         && ShowsRows(rows[1..], value[|Line(rows[0].cells)| + 1..])
  }

  function Line(cells: seq<string>): string {
    "| " + Join(" | ", cells) + " |"
  }

  ghost predicate Visible(value: string) {
    exists i :: 0 <= i < |value| && !IsSpace(value[i])
  }

  predicate SameLetter(c: char, lower: char) {
    c == lower || ('A' <= c <= 'Z' && c as int + 32 == lower as int)
  }

  /** s holds the word at i, whatever the case of its letters. */
  predicate SaysAt(s: string, word: string, i: nat) {
    i + |word| <= |s| && forall j :: 0 <= j < |word| ==> SameLetter(s[i + j], word[j])
  }

  ghost predicate Says(s: string, word: string) {
    exists i: nat :: SaysAt(s, word, i)
  }

  function Named(block: Block): string
    requires block.Block?
  {
    if block.blockType != "" then block.blockType else if block.kind != "" then block.kind else "paragraph"
  }

  ghost predicate IsTitle(block: Block) {
    && block.Block?
    && (|| Says(Named(block), "heading")
        || (|Named(block)| == 5 && SaysAt(Named(block), "title", 0))
        || (|Named(block)| == 14 && SaysAt(Named(block), "section_header", 0)))
  }

  ghost predicate TypeIs(block: Block, chunkType: string) {
    && block.Block?
    && chunkType == (if Says(Named(block), "table") then "table" else if Says(Named(block), "list") then "list" else "prose")
  }

  predicate DepthIs(block: Block, level: int) {
    && block.Block?
    && (if block.level > 0 then level == block.level
        else if block.level == 0 && block.headingLevel > 0 then level == block.headingLevel
        else level == 1)
  }

  lemma LowerSays(s: string, word: string)
    requires forall j :: 0 <= j < |word| ==> !('A' <= word[j] <= 'Z')
    ensures Contains(Lower(s), word) <==> Says(s, word)
    ensures Lower(s) == word <==> |s| == |word| && SaysAt(s, word, 0)
  {
    InstrFinds(Lower(s), word);
    forall k: nat ensures MatchesAt(Lower(s), word, k) <==> SaysAt(s, word, k) {
      LowerSaysAt(s, word, k);
    }
    assert |s| == |word| ==> Lower(s)[0..0 + |word|] == Lower(s);
  }

  lemma LowerSaysAt(s: string, word: string, k: nat)
    requires forall j :: 0 <= j < |word| ==> !('A' <= word[j] <= 'Z')
    ensures MatchesAt(Lower(s), word, k) <==> SaysAt(s, word, k)
  {
    var t := Lower(s);
    if k + |word| <= |s| {
      var cut := t[k..k + |word|];
      assert forall j :: 0 <= j < |word| ==> cut[j] == t[k + j];
      if SaysAt(s, word, k) {
        assert cut == word;
      }
      if cut == word {
        forall j | 0 <= j < |word|
          ensures SameLetter(s[k + j], word[j])
        {
          assert t[k + j] == word[j];
        }
      }
    }
  }

  lemma TitleExact(block: Block)
    requires block.Block?
    ensures IsHeading(block) <==> IsTitle(block)
    ensures TypeIs(block, ChunkType(block))
    ensures DepthIs(block, Level(block))
  {
    hide Contains, Lower, SaysAt;
    LowerSays(Named(block), "heading");
    LowerSays(Named(block), "title");
    LowerSays(Named(block), "section_header");
    LowerSays(Named(block), "table");
    LowerSays(Named(block), "list");
  }

  lemma {:induction false} NothingRendered(rows: seq<Row>)
    ensures Rendered(rows) == [] <==> forall i :: 0 <= i < |rows| ==> rows[i].NoCells?
  {
    if |rows| > 0 {
      NothingRendered(rows[1..]);
      assert forall i :: 1 <= i < |rows| ==> rows[i] == rows[1..][i - 1];
      assert forall i :: 0 <= i < |rows[1..]| ==> rows[1..][i] == rows[i + 1];
    }
  }

  lemma NoMoreRows(rows: seq<Row>)
    requires |rows| > 0
    ensures (forall i :: 0 <= i < |rows[1..]| ==> rows[1..][i].NoCells?) <==> forall i :: 1 <= i < |rows| ==> rows[i].NoCells?
  {
    assert forall i :: 1 <= i < |rows| ==> rows[i] == rows[1..][i - 1];
    assert forall i :: 0 <= i < |rows[1..]| ==> rows[1..][i] == rows[i + 1];
  }

  lemma JoinLines(line: string, rest: seq<string>)
    ensures rest == [] ==> Join("\n", [line] + rest) == line
    ensures rest != [] ==> Join("\n", [line] + rest) == line + "\n" + Join("\n", rest)
  {
    assert ([line] + rest)[1..] == rest;
  }

  lemma {:induction false} RowsShown(rows: seq<Row>)
    ensures ShowsRows(rows, Join("\n", Rendered(rows)))
  {
    hide Join;
    if |rows| == 0 {
      NothingJoined();
      assert Rendered(rows) == [];
    } else {
      RowsShown(rows[1..]);
      NothingRendered(rows[1..]);
      NoMoreRows(rows);
      var rest := Rendered(rows[1..]);
      if rows[0].Cells? {
        assert Rendered(rows) == [Line(rows[0].cells)] + rest;
        JoinLines(Line(rows[0].cells), rest);
      } else {
        assert [] + rest == rest;
      }
    }
  }

  lemma {:induction false} RowsShowOne(rows: seq<Row>, v: string, w: string)
    requires ShowsRows(rows, v) && ShowsRows(rows, w)
    ensures v == w
  {
    if |rows| > 0 {
      if rows[0].NoCells? {
        RowsShowOne(rows[1..], v, w);
      } else if exists i :: 1 <= i < |rows| && !rows[i].NoCells? {
        var n := |Line(rows[0].cells)| + 1;
        RowsShowOne(rows[1..], v[n..], w[n..]);
        assert v == v[..n] + v[n..] && w == w[..n] + w[n..];
      }
    }
  }

  /** A block is taken up exactly when what it shows has a visible character, and then for exactly that text. */
  lemma ShownExact(block: Block, value: string)
    ensures block.Block? && BlockValue(block).Str? ==> Shows(block, BlockValue(block).s)
    ensures Shows(block, value) ==> block.Block? && BlockValue(block) == Str(value)
    ensures Shows(block, value) ==> (HasText(block) <==> Visible(value))
  {
    if block.Block? {
      RowsShown(block.rows);
      if ShowsRows(block.rows, value) {
        RowsShowOne(block.rows, value, Join("\n", Rendered(block.rows)));
      }
      BlankExact(value);
    }
  }

  // The export as one list of blocks

  /** The block at place b of page entry p, with the page number its chunks will cite. */
  datatype Item = Item(p: nat, b: nat, number: int, block: Block)

  predicate NumberIs(page: Page, p: nat, number: int) {
    && page.Page?
    && number == (if page.page != 0 then page.page else if page.pageNo != 0 then page.pageNo else p + 1)
  }

  /** The blocks of a page: its elements, or its blocks, or itself. */
  predicate BlocksAre(page: Page, blocks: seq<Block>) {
    && page.Page?
    && (page.elements != [] ==> blocks == page.elements)
    && (page.elements == [] && page.blocks != [] ==> blocks == page.blocks)
    && (page.elements == [] && page.blocks == [] ==> blocks == [page.body])
  }

  ghost predicate Exported(pages: seq<Page>, item: Item) {
    && item.p < |pages| && NumberIs(pages[item.p], item.p, item.number)
    && exists blocks :: BlocksAre(pages[item.p], blocks) && item.b < |blocks| && blocks[item.b] == item.block
  }

  predicate Earlier(x: Item, y: Item) {
    x.p < y.p || (x.p == y.p && x.b < y.b)
  }

  function PageItems(pages: seq<Page>, p: nat, from: nat): seq<Item>
    requires p < |pages| && pages[p].Page? && from <= |BlocksOf(pages[p])|
    decreases |BlocksOf(pages[p])| - from
  {
    if from == |BlocksOf(pages[p])| then []
    else [ItemAt(pages, p, from)] + PageItems(pages, p, from + 1)
  }

  function ItemsFrom(pages: seq<Page>, p: nat): seq<Item>
    requires p <= |pages|
    decreases |pages| - p
  {
    if p == |pages| then []
    else (if pages[p].Page? then PageItems(pages, p, 0) else []) + ItemsFrom(pages, p + 1)
  }

  function Items(pages: seq<Page>): seq<Item> {
    ItemsFrom(pages, 0)
  }

  ghost predicate InOrder(items: seq<Item>) {
    forall i, j :: 0 <= i < j < |items| ==> Earlier(items[i], items[j])
  }

  function ItemAt(pages: seq<Page>, p: nat, b: nat): Item
    requires p < |pages| && pages[p].Page? && b < |BlocksOf(pages[p])|
  {
    Item(p, b, PageNumber(pages[p], p + 1), BlocksOf(pages[p])[b])
  }

  lemma ItemIsExported(pages: seq<Page>, p: nat, b: nat)
    requires p < |pages| && pages[p].Page? && b < |BlocksOf(pages[p])|
    ensures Exported(pages, ItemAt(pages, p, b))
  {
    assert BlocksAre(pages[p], BlocksOf(pages[p]));
  }

  lemma ExportedIsItem(pages: seq<Page>, x: Item)
    ensures Exported(pages, x) ==>
      x.p < |pages| && pages[x.p].Page? && x.b < |BlocksOf(pages[x.p])| && x == ItemAt(pages, x.p, x.b)
  {
  }

  lemma {:induction false} PageItemsExact(pages: seq<Page>, p: nat, from: nat)
    requires p < |pages| && pages[p].Page? && from <= |BlocksOf(pages[p])|
    ensures var items := PageItems(pages, p, from);
      && InOrder(items)
      && (forall x :: x in items <==> Exported(pages, x) && x.p == p && x.b >= from)
    decreases |BlocksOf(pages[p])| - from
  {
    hide Exported, BlocksOf, PageNumber;
    if from < |BlocksOf(pages[p])| {
      PageItemsExact(pages, p, from + 1);
      ItemIsExported(pages, p, from);
    }
    forall x | Exported(pages, x) && x.p == p && x.b >= from ensures x in PageItems(pages, p, from) {
      ExportedIsItem(pages, x);
      if x.b == from {
        assert x == PageItems(pages, p, from)[0];
      }
    }
  }

  lemma {:induction false} ItemsFromExact(pages: seq<Page>, p: nat)
    requires p <= |pages|
    ensures var items := ItemsFrom(pages, p);
      && InOrder(items)
      && (forall x :: x in items <==> Exported(pages, x) && x.p >= p)
    decreases |pages| - p
  {
    if p < |pages| {
      hide PageItems, NumberIs, BlocksAre;
      ItemsFromExact(pages, p + 1);
      if pages[p].Page? {
        PageItemsExact(pages, p, 0);
      }
      NotAPageHasNone(pages, p);
      var here, rest := if pages[p].Page? then PageItems(pages, p, 0) else [], ItemsFrom(pages, p + 1);
      forall i, j | 0 <= i < j < |here + rest| ensures Earlier((here + rest)[i], (here + rest)[j]) {
        if i < |here| && |here| <= j {
          assert here[i] in here && rest[j - |here|] in rest;
        }
      }
    }
  }

  lemma NotAPageHasNone(pages: seq<Page>, p: nat)
    requires p < |pages|
    ensures pages[p].NotAPage? ==> forall x :: Exported(pages, x) ==> x.p != p
  {
  }

  /** The list holds exactly the blocks of the export, in page and block order. */
  lemma ItemsExact(pages: seq<Page>)
    ensures InOrder(Items(pages)) && forall x :: x in Items(pages) <==> Exported(pages, x)
  {
    hide ItemsFrom;
    ItemsFromExact(pages, 0);
  }

  // The adapter as a fold over that list

  function Fold(state: State, items: seq<Item>): State {
    if |items| == 0 then state
    else AddBlock(Fold(state, items[..|items| - 1]), items[|items| - 1].number, items[|items| - 1].block)
  }

  lemma {:induction false} FoldAppend(state: State, a: seq<Item>, b: seq<Item>)
    ensures Fold(state, a + b) == Fold(Fold(state, a), b)
  {
    hide AddBlock;
    if |b| == 0 {
      assert a + b == a;
    } else {
      FoldAppend(state, a, b[..|b| - 1]);
      assert (a + b)[..|a + b| - 1] == a + b[..|b| - 1];
    }
  }

  lemma {:induction false} BlocksFold(state: State, pages: seq<Page>, p: nat, from: nat)
    requires p < |pages| && pages[p].Page? && from <= |BlocksOf(pages[p])|
    ensures AddBlocks(state, PageNumber(pages[p], p + 1), BlocksOf(pages[p]), from) == Fold(state, PageItems(pages, p, from))
    decreases |BlocksOf(pages[p])| - from
  {
    hide AddBlock, BlocksOf, PageNumber;
    if from < |BlocksOf(pages[p])| {
      var head := ItemAt(pages, p, from);
      var next := AddBlock(state, head.number, head.block);
      BlocksFold(next, pages, p, from + 1);
      FoldAppend(state, [head], PageItems(pages, p, from + 1));
      assert Fold(state, [head]) == next by {
        assert [head][..0] == [];
      }
    }
  }

  lemma {:induction false} PagesFold(state: State, pages: seq<Page>, p: nat)
    requires p <= |pages|
    ensures AddPages(state, pages, p) == Fold(state, ItemsFrom(pages, p))
    decreases |pages| - p
  {
    hide AddBlocks, BlocksOf, PageNumber, PageItems;
    if p < |pages| {
      var here := if pages[p].Page? then PageItems(pages, p, 0) else [];
      if pages[p].Page? {
        BlocksFold(state, pages, p, 0);
      }
      PagesFold(AddPage(state, pages[p], p + 1), pages, p + 1);
      FoldAppend(state, here, ItemsFrom(pages, p + 1));
    }
  }

  // Which blocks become segments, and under which headings

  ghost predicate ShowsText(block: Block) {
    exists value :: Shows(block, value) && Visible(value)
  }

  /** A block of body text, or one that opens a section. */
  ghost predicate IsBody(block: Block) {
    ShowsText(block) && !IsTitle(block)
  }

  ghost predicate Opens(block: Block) {
    ShowsText(block) && IsTitle(block)
  }

  /** text is what the block shows without the white space around it. */
  ghost predicate ShowsTrimmed(block: Block, text: string) {
    exists value :: Shows(block, value) && TrimmedTo(value, text)
  }

  ghost predicate TrimmedTo(value: string, text: string) {
    exists lo, hi :: Core(value, text, lo, hi)
  }

  /** text is value[lo..hi], and only white space is left out. */
  ghost predicate Core(value: string, text: string, lo: int, hi: int) {
    0 <= lo <= hi <= |value| && text == value[lo..hi]
    && forall i :: 0 <= i < |value| && !IsSpace(value[i]) ==> lo <= i < hi
  }

  ghost predicate SegmentFor(segment: SourceSegment, item: Item) {
    && IsBody(item.block) && ShowsTrimmed(item.block, segment.text) && Trimmed(segment.text)
    && segment.pageStart == Some(item.number) && segment.pageEnd == Some(item.number)
    && TypeIs(item.block, segment.chunkType)
  }

  ghost predicate DeeperThan(block: Block, depth: int) {
    exists level :: DepthIs(block, level) && level > depth
  }

  /** heads are the headings open before place n: each one's text is on the path; a heading stays until one that
      is not deeper than its place; the last heading is open, and so is every heading that only deeper ones follow. */
  ghost predicate OpenHeadings(items: seq<Item>, n: nat, path: seq<string>, heads: seq<nat>)
    requires n <= |items|
  {
    HeadsShow(items, n, path, heads) && HeadsDeep(items, n, heads) && HeadsAll(items, n, heads)
  }

  ghost predicate HeadsShow(items: seq<Item>, n: nat, path: seq<string>, heads: seq<nat>)
    requires n <= |items|
  {
    && |heads| == |path|
    && (forall i :: 0 <= i < |heads| ==> heads[i] < n && Opens(items[heads[i]].block) && ShowsTrimmed(items[heads[i]].block, path[i]))
    && (forall i, j :: 0 <= i < j < |heads| ==> heads[i] < heads[j])
    && (forall x :: 0 <= x < n && Opens(items[x].block) ==> |heads| > 0 && x <= heads[|heads| - 1])
  }

  ghost predicate HeadsDeep(items: seq<Item>, n: nat, heads: seq<nat>)
    requires n <= |items|
  {
    && (forall i :: 0 <= i < |heads| ==> heads[i] < n && DeeperThan(items[heads[i]].block, i))
    && (forall i, x :: 0 <= i < |heads| && heads[i] < x < n && Opens(items[x].block) ==> DeeperThan(items[x].block, i + 1))
  }

  ghost predicate HeadsAll(items: seq<Item>, n: nat, heads: seq<nat>)
    requires n <= |items|
  {
    forall x, level :: 0 <= x < n && Opens(items[x].block) && DepthIs(items[x].block, level) && OnlyDeeperAfter(items, n, x, level)
      ==> x in heads
  }

  ghost predicate OnlyDeeperAfter(items: seq<Item>, n: nat, x: nat, level: int)
    requires n <= |items|
  {
    forall y :: x < y < n && Opens(items[y].block) ==> DeeperThan(items[y].block, level)
  }

  ghost predicate Sectioned(items: seq<Item>, n: nat, path: seq<string>)
    requires n <= |items|
  {
    exists heads :: OpenHeadings(items, n, path, heads)
  }

  /** The segments after n blocks: at[k] is the place of the block that segment k is made of. */
  ghost predicate Segmented(items: seq<Item>, n: nat, segments: seq<SourceSegment>, at: seq<nat>)
    requires n <= |items|
  {
    && |at| == |segments|
    && (forall k :: 0 <= k < |at| ==> at[k] < n && SegmentFor(segments[k], items[at[k]])
                                       && Sectioned(items, at[k], segments[k].sectionPath))
    && (forall j, k :: 0 <= j < k < |at| ==> at[j] < at[k])
    && (forall x :: 0 <= x < n && IsBody(items[x].block) ==> x in at)
  }

  lemma StripIsCore(value: string)
    ensures TrimmedTo(value, Strip(value))
  {
    BlankExact(value);
    if Blank(value) {
      assert Core(value, Strip(value), 0, 0);
    } else {
      assert Core(value, Strip(value), Leading(value), RStripLength(value));
    }
  }

  /** What the adapter's tests and its cleaning say about a block. */
  lemma BlockExact(block: Block)
    ensures HasText(block) <==> ShowsText(block)
    ensures HasText(block) ==> block.Block? && BlockValue(block).Str? && ShowsTrimmed(block, Strip(BlockValue(block).s))
    ensures HasText(block) ==> (IsHeading(block) <==> Opens(block)) && (!IsHeading(block) <==> IsBody(block))
    ensures !HasText(block) ==> !Opens(block) && !IsBody(block)
    ensures block.Block? ==> TypeIs(block, ChunkType(block)) && DepthIs(block, Level(block))
  {
    hide Shows, BlockValue, IsHeading, IsTitle, TypeIs, DepthIs, ChunkType, Level, Blank, Visible, Strip;
    forall value ensures Shows(block, value) ==> block.Block? && BlockValue(block) == Str(value) && (HasText(block) <==> Visible(value)) {
      ShownExact(block, value);
    }
    if block.Block? {
      TitleExact(block);
      if BlockValue(block).Str? {
        ShownExact(block, BlockValue(block).s);
        StripIsCore(BlockValue(block).s);
      }
    }
  }

  lemma SkipStep(items: seq<Item>, n: nat, state: State, at: seq<nat>, heads: seq<nat>)
    requires n < |items| && !Opens(items[n].block)
    requires OpenHeadings(items, n, state.section, heads)
    ensures OpenHeadings(items, n + 1, state.section, heads)
    ensures Segmented(items, n, state.segments, at) && !IsBody(items[n].block) ==> Segmented(items, n + 1, state.segments, at)
  {
    hide Opens, IsBody, ShowsTrimmed, DeeperThan, DepthIs, SegmentFor, Sectioned;
    forall x, level | 0 <= x < n + 1 && Opens(items[x].block) && DepthIs(items[x].block, level) && OnlyDeeperAfter(items, n + 1, x, level)
      ensures x in heads
    {
      assert OnlyDeeperAfter(items, n, x, level);
    }
  }

  lemma BodyStep(items: seq<Item>, n: nat, state: State, segment: SourceSegment, at: seq<nat>, heads: seq<nat>)
    requires n < |items| && Segmented(items, n, state.segments, at)
    requires SegmentFor(segment, items[n]) && segment.sectionPath == state.section && OpenHeadings(items, n, state.section, heads)
    ensures Segmented(items, n + 1, state.segments + [segment], at + [n])
  {
    hide SegmentFor, OpenHeadings;
    assert Sectioned(items, n, segment.sectionPath);
    forall x | 0 <= x < n + 1 && IsBody(items[x].block) ensures x in at + [n] {
      if x < n {
        assert x in at;
      }
    }
  }

  lemma HeadingShows(items: seq<Item>, n: nat, path: seq<string>, heads: seq<nat>, kept: nat, text: string)
    requires n < |items| && Opens(items[n].block) && ShowsTrimmed(items[n].block, text) && HeadsShow(items, n, path, heads)
    ensures HeadsShow(items, n + 1, Take(path, kept) + [text], Take(heads, kept) + [n])
  {
    hide Opens, ShowsTrimmed;
  }

  lemma HeadingDeep(items: seq<Item>, n: nat, heads: seq<nat>, kept: nat)
    requires n < |items| && DepthIs(items[n].block, kept + 1) && HeadsDeep(items, n, heads)
    ensures HeadsDeep(items, n + 1, Take(heads, kept) + [n])
  {
    hide Opens, DepthIs, DeeperThan;
    var below := Take(heads, kept);
    forall depth | 0 <= depth <= kept ensures DeeperThan(items[n].block, depth) {
      DepthIsDeeper(items[n].block, kept + 1, depth);
    }
    assert |below| <= kept && |below| <= |heads|;
    assert forall i :: 0 <= i < |below| ==> below[i] == heads[i];
    forall i, x | 0 <= i < |below + [n]| && (below + [n])[i] < x < n + 1 && Opens(items[x].block)
      ensures DeeperThan(items[x].block, i + 1)
    {
      assert i < |below| && heads[i] < x;
    }
  }

  lemma DepthIsDeeper(block: Block, level: int, depth: int)
    requires DepthIs(block, level) && depth < level
    ensures DeeperThan(block, depth)
  {
  }

  lemma HeadingAll(items: seq<Item>, n: nat, heads: seq<nat>, kept: nat)
    requires n < |items| && Opens(items[n].block) && DepthIs(items[n].block, kept + 1)
    requires HeadsAll(items, n, heads) && HeadsDeep(items, n, heads)
    ensures HeadsAll(items, n + 1, Take(heads, kept) + [n])
  {
    hide Opens, OnlyDeeperAfter;
    var below := Take(heads, kept);
    assert (below + [n])[|below|] == n;
    forall x, level | 0 <= x < n + 1 && Opens(items[x].block) && DepthIs(items[x].block, level) && OnlyDeeperAfter(items, n + 1, x, level)
      ensures x in below + [n]
    {
      if x < n {
        EarlierStaysOpen(items, n, x, level);
        var i :| 0 <= i < |heads| && heads[i] == x;
        assert DeeperThan(items[heads[i]].block, i);
        assert below[i] == x;
      }
    }
  }

  lemma HeadingStep(items: seq<Item>, n: nat, path: seq<string>, heads: seq<nat>, kept: nat, text: string)
    requires n < |items| && Opens(items[n].block) && ShowsTrimmed(items[n].block, text)
    requires DepthIs(items[n].block, kept + 1) && OpenHeadings(items, n, path, heads)
    ensures OpenHeadings(items, n + 1, Take(path, kept) + [text], Take(heads, kept) + [n])
  {
    hide HeadsShow, HeadsDeep, HeadsAll, Take;
    HeadingShows(items, n, path, heads, kept, text);
    HeadingDeep(items, n, heads, kept);
    HeadingAll(items, n, heads, kept);
  }

  lemma EarlierStaysOpen(items: seq<Item>, n: nat, x: nat, level: int)
    requires x < n < |items| && Opens(items[n].block) && OnlyDeeperAfter(items, n + 1, x, level)
    ensures OnlyDeeperAfter(items, n, x, level) && DeeperThan(items[n].block, level)
  {
  }

  lemma {:induction false} FoldLaws(items: seq<Item>, n: nat) returns (at: seq<nat>, heads: seq<nat>)
    requires n <= |items|
    ensures Segmented(items, n, Fold(START, items[..n]).segments, at)
    ensures OpenHeadings(items, n, Fold(START, items[..n]).section, heads)
  {
    hide AddBlock, IsBody, Opens, Segmented, OpenHeadings, HasText;
    if n == 0 {
      at, heads := [], [];
      NothingYet(items);
    } else {
      var at', heads' := FoldLaws(items, n - 1);
      assert items[..n][..n - 1] == items[..n - 1];
      at, heads := ItemStep(items, n - 1, Fold(START, items[..n - 1]), at', heads');
    }
  }

  lemma NothingYet(items: seq<Item>)
    ensures Segmented(items, 0, [], []) && OpenHeadings(items, 0, [], [])
  {
  }

  lemma ItemStep(items: seq<Item>, n: nat, state: State, at: seq<nat>, heads: seq<nat>) returns (at': seq<nat>, heads': seq<nat>)
    requires n < |items| && Segmented(items, n, state.segments, at) && OpenHeadings(items, n, state.section, heads)
    ensures var next := AddBlock(state, items[n].number, items[n].block);
      Segmented(items, n + 1, next.segments, at') && OpenHeadings(items, n + 1, next.section, heads')
  {
    hide HasText, BlockValue, IsHeading, ChunkType, Level, Strip, IsBody, Opens, Segmented, OpenHeadings, ShowsTrimmed, TypeIs, DepthIs;
    var block := items[n].block;
    BlockExact(block);
    SameLength(items, n, state.section, heads);
    at', heads' := at, heads;
    if !HasText(block) {
      SkipStep(items, n, state, at, heads);
    } else if IsHeading(block) {
      var kept := Level(block) - 1;
      heads' := Take(heads, kept) + [n];
      HeadingStep(items, n, state.section, heads, kept, Strip(BlockValue(block).s));
      HeadingIsNoBody(items, n, state, at);
    } else {
      at' := at + [n];
      var next := AddBlock(state, items[n].number, block);
      BodyIsNoHeading(block);
      SkipStep(items, n, state, at, heads);
      assert SegmentFor(next.segments[|state.segments|], items[n]);
      BodyStep(items, n, state, next.segments[|state.segments|], at, heads);
    }
  }

  lemma SameLength(items: seq<Item>, n: nat, path: seq<string>, heads: seq<nat>)
    requires n <= |items| && OpenHeadings(items, n, path, heads)
    ensures |heads| == |path|
  {
  }

  lemma BodyIsNoHeading(block: Block)
    requires IsBody(block)
    ensures !Opens(block)
  {
  }

  lemma HeadingIsNoBody(items: seq<Item>, n: nat, state: State, at: seq<nat>)
    requires n < |items| && Opens(items[n].block) && Segmented(items, n, state.segments, at)
    ensures Segmented(items, n + 1, state.segments, at)
  {
    hide SegmentFor, Sectioned;
  }

  /** The segments are, in page and block order, exactly one for each block of body text the export has: at[k] is the
      place of segment k's block. Each carries the block's page and type, and the headings open at the block. */
  lemma SegmentsExact(pages: seq<Page>) returns (at: seq<nat>)
    ensures Segmented(Items(pages), |Items(pages)|, SegmentsOf(pages), at)
  {
    hide Segmented, AddPages, Fold, OpenHeadings;
    var items := Items(pages);
    PagesFold(START, pages, 0);
    var heads;
    at, heads := FoldLaws(items, |items|);
    assert items[..|items|] == items;
  }

  // From a block to the chunks that show it

  predicate EntriesAre(export_: Export, pages: seq<Page>) {
    match export_
    case Pages(given) => pages == given
    case Keyed(given, elements) => pages == if given != [] then given else elements
    case NoPages => pages == []
  }

  /** The chunk's text is value[lo..hi], and it cites the block's page and says its type. */
  ghost predicate ShowsSlice(chunk: TextChunk, item: Item, value: string, lo: int, hi: int) {
    && 0 <= lo < hi <= |value| && chunk.text == value[lo..hi]
    && chunk.pageStart == Some(item.number) && chunk.pageEnd == Some(item.number)
    && TypeIs(item.block, chunk.chunkType)
  }

  ghost predicate ShownBy(chunk: TextChunk, item: Item, value: string, i: int) {
    exists lo, hi :: lo <= i < hi && ShowsSlice(chunk, item, value, lo, hi)
  }

  /** The chunk shows part of this block, under the headings open at it. */
  ghost predicate Quotes(chunk: TextChunk, pages: seq<Page>, n: nat, value: string)
  {
    && n < |Items(pages)| && IsBody(Items(pages)[n].block) && Shows(Items(pages)[n].block, value)
    && Sectioned(Items(pages), n, chunk.sectionPath)
    && exists lo, hi :: ShowsSlice(chunk, Items(pages)[n], value, lo, hi)
  }

  ghost predicate QuotesSome(chunk: TextChunk, pages: seq<Page>) {
    exists n, value :: Quotes(chunk, pages, n, value)
  }

  /** Block n of the export is no heading and shows this value, with a visible character at i. */
  ghost predicate ShowsAt(pages: seq<Page>, n: nat, value: string, i: nat) {
    && n < |Items(pages)| && Shows(Items(pages)[n].block, value) && !IsTitle(Items(pages)[n].block)
    && i < |value| && !IsSpace(value[i])
  }

  /** Every visible character of what a body block shows is in a chunk that quotes the block there. */
  ghost predicate Kept(chunks: seq<TextChunk>, pages: seq<Page>, n: nat, value: string, i: int)
  {
    exists k :: 0 <= k < |chunks| && Quotes(chunks[k], pages, n, value) && ShownBy(chunks[k], Items(pages)[n], value, i)
  }

  lemma SliceOfSlice(value: string, a: int, b: int, lo: int, hi: int)
    requires 0 <= a <= b <= |value| && 0 <= lo <= hi <= b - a
    ensures value[a..b][lo..hi] == value[a + lo..a + hi]
  {
    var core := value[a..b];
    assert forall k :: 0 <= k < |core| ==> core[k] == value[a + k];
    var slice, whole := core[lo..hi], value[a + lo..a + hi];
    assert forall k :: 0 <= k < |slice| ==> slice[k] == core[lo + k] == whole[k];
    assert slice == whole;
  }

  /** A slice of the trimmed text is a slice of the text. */
  lemma SliceOfCore(chunk: TextChunk, segment: SourceSegment, item: Item, value: string, a: int, b: int, maxChars: nat)
    requires SegmentFor(segment, item) && Shows(item.block, value) && Core(value, segment.text, a, b)
    requires Cites(chunk, segment, maxChars)
    ensures var from := chunk.sourceStart - segment.start + a;
      ShowsSlice(chunk, item, value, from, from + |chunk.text|)
  {
    hide IsBody, ShowsTrimmed, TypeIs, Shows, Trimmed;
    var lo, hi := chunk.sourceStart - segment.start, chunk.sourceEnd - segment.start;
    SliceOfSlice(value, a, b, lo, hi);
  }

  lemma OneText(block: Block, v: string, w: string)
    requires Shows(block, v) && Shows(block, w)
    ensures v == w
  {
    hide Shows;
    ShownExact(block, v);
    ShownExact(block, w);
  }

  lemma CoreOf(segment: SourceSegment, item: Item, value: string) returns (a: int, b: int)
    requires SegmentFor(segment, item) && Shows(item.block, value)
    ensures Core(value, segment.text, a, b)
  {
    hide Shows, Core;
    var v :| Shows(item.block, v) && TrimmedTo(v, segment.text);
    OneText(item.block, v, value);
    a, b :| Core(value, segment.text, a, b);
  }

  lemma ChunkQuotes(chunk: TextChunk, pages: seq<Page>, n: nat, segment: SourceSegment, value: string, maxChars: nat)
    requires n < |Items(pages)| && SegmentFor(segment, Items(pages)[n]) && Sectioned(Items(pages), n, segment.sectionPath)
    requires Cites(chunk, segment, maxChars) && Shows(Items(pages)[n].block, value)
    ensures Quotes(chunk, pages, n, value)
  {
    hide Items, Shows, Sectioned, Core, ShowsSlice, IsBody;
    var a, b := CoreOf(segment, Items(pages)[n], value);
    SliceOfCore(chunk, segment, Items(pages)[n], value, a, b, maxChars);
  }

  lemma HeldIsShown(chunk: TextChunk, item: Item, segment: SourceSegment, value: string, i: nat, a: int, b: int, maxChars: nat)
    requires SegmentFor(segment, item) && Shows(item.block, value) && Core(value, segment.text, a, b)
    requires a <= i < b && Holds(chunk, segment, i - a, maxChars)
    ensures ShownBy(chunk, item, value, i)
  {
    hide Shows, IsBody, ShowsTrimmed, TypeIs, Core, ShowsSlice, SegmentFor;
    SliceOfCore(chunk, segment, item, value, a, b, maxChars);
    var from := chunk.sourceStart - segment.start + a;
    assert |chunk.text| == chunk.sourceEnd - chunk.sourceStart;
    assert from <= i < from + |chunk.text|;
  }

  lemma CharacterKept(chunks: seq<TextChunk>, pages: seq<Page>, n: nat, segment: SourceSegment, value: string, i: nat, maxChars: nat)
    requires n < |Items(pages)| && SegmentFor(segment, Items(pages)[n]) && Sectioned(Items(pages), n, segment.sectionPath)
    requires Shows(Items(pages)[n].block, value) && i < |value| && !IsSpace(value[i])
    requires forall x: nat :: x < |segment.text| && !IsSpace(segment.text[x]) ==> HeldBySome(chunks, segment, x, maxChars)
    ensures Kept(chunks, pages, n, value, i)
  {
    hide Items, Shows, Sectioned, SegmentFor, Quotes, ShownBy, Holds, Cites;
    var a, b := CoreOf(segment, Items(pages)[n], value);
    assert segment.text[i - a] == value[i];
    var k :| 0 <= k < |chunks| && Holds(chunks[k], segment, i - a, maxChars);
    HoldingCites(chunks[k], segment, i - a, maxChars);
    ChunkQuotes(chunks[k], pages, n, segment, value, maxChars);
    HeldIsShown(chunks[k], Items(pages)[n], segment, value, i, a, b, maxChars);
  }

  lemma HoldingCites(chunk: TextChunk, segment: SourceSegment, i: nat, maxChars: nat)
    requires Holds(chunk, segment, i, maxChars)
    ensures Cites(chunk, segment, maxChars)
  {
  }

  lemma BodyShows(block: Block) returns (value: string)
    requires IsBody(block)
    ensures Shows(block, value)
  {
    value :| Shows(block, value) && Visible(value);
  }

  lemma VisibleIsBody(block: Block, value: string, i: nat)
    requires Shows(block, value) && !IsTitle(block) && i < |value| && !IsSpace(value[i])
    ensures IsBody(block)
  {
    hide Shows;
  }

  lemma EntriesExact(export_: Export)
    ensures EntriesAre(export_, PagesOf(export_))
    ensures forall pages :: EntriesAre(export_, pages) ==> pages == PagesOf(export_)
  {
  }

  /** What an export shows is what its chunks quote. On accepted bounds, every visible character of every body block,
      its text, else its content, else its rows, is in a chunk that cites the block's page and says its type, under
      the headings open at it; and every chunk quotes such a block. */
  lemma ChunksShowTheExport(document: string, version: string, export_: Export, pages: seq<Page>, maxChars: int, overlap: int)
    requires MayChunkDocling(export_, maxChars, overlap) && maxChars >= 128 && overlap >= 0 && EntriesAre(export_, pages)
    ensures var result := DoclingChunked(document, version, export_, maxChars, overlap);
      && result.Success?
      && (forall n: nat, value, i: nat :: ShowsAt(pages, n, value, i) ==> Kept(result.value, pages, n, value, i))
      && (forall k :: 0 <= k < |result.value| ==> QuotesSome(result.value[k], pages))
  {
    hide Items, Shows, IsBody, IsTitle, Sectioned, SegmentFor, Kept, Quotes, SegmentsOf, Joined, FromSomeBlock, HeldBySome, Cites, ReadsBack;
    EntriesExact(export_);
    var result, segments, items := DoclingChunked(document, version, export_, maxChars, overlap), SegmentsOf(pages), Items(pages);
    var origin := CitedSegments(document, version, export_, maxChars, overlap);
    var at := SegmentsExact(pages);
    forall n: nat, value, i: nat | ShowsAt(pages, n, value, i)
      ensures Kept(result.value, pages, n, value, i)
    {
      VisibleIsBody(items[n].block, value, i);
      var j :| 0 <= j < |at| && at[j] == n;
      CharacterKept(result.value, pages, n, segments[j], value, i, maxChars);
    }
    forall k | 0 <= k < |result.value| ensures QuotesSome(result.value[k], pages) {
      var j := origin[k];
      SegmentIsBody(segments[j], items[at[j]]);
      var value := BodyShows(items[at[j]].block);
      ChunkQuotes(result.value[k], pages, at[j], segments[j], value, maxChars);
      assert Quotes(result.value[k], pages, at[j], value);
    }
  }

  lemma SegmentIsBody(segment: SourceSegment, item: Item)
    requires SegmentFor(segment, item)
    ensures IsBody(item.block)
  {
  }

  /** The chunks of an export each cite one of its segments, and keep their characters. */
  lemma CitedSegments(document: string, version: string, export_: Export, maxChars: int, overlap: int) returns (origin: seq<nat>)
    requires MayChunkDocling(export_, maxChars, overlap) && maxChars >= 128 && overlap >= 0
    ensures var segments, result := SegmentsOf(PagesOf(export_)), DoclingChunked(document, version, export_, maxChars, overlap);
      && result.Success? && |origin| == |result.value|
      && (forall k :: 0 <= k < |origin| ==> origin[k] < |segments| && Cites(result.value[k], segments[origin[k]], maxChars))
      && EveryCharacterKept(result.value, segments, maxChars)
  {
    hide SegmentsOf, Joined, Splittable, HeldBySome, ChunksFrom, Cites;
    var segments := SegmentsOf(PagesOf(export_));
    origin := ChunkLineage(document, version, Joined(segments), maxChars, BoundedOverlap(maxChars, overlap), segments);
    if |segments| == 0 {
      assert Joined(segments) == "" by { NothingJoined(); }
      NothingToChunk(document, version, maxChars, BoundedOverlap(maxChars, overlap));
    }
  }
}
