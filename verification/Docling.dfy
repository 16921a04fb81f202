/** chunk_docling: exported pages become source segments, and chunks cite them (backend/app/chunking.py). */
module Docling {
  import opened Wrappers
  import opened Text
  import opened Chunking
  import opened Chunks

  /** What `block.get("text")` and its like may hold; Absent is every falsy value. */
  datatype Content = Absent | Str(s: string) | NotStr {
    predicate Truthy() {
      NotStr? || (Str? && s != "")
    }
  }

  /** A list or mapping row with its cells as text, or something else. */
  datatype Row = Cells(cells: seq<string>) | NoCells

  /** Empty texts and zero levels stand for absent keys, which the source treats alike. */
  datatype Block =
    | Block(text: Content, content: Content, rows: seq<Row>, blockType: string, kind: string, level: int, headingLevel: int)
    | NotABlock

  /** `body` is the page's own mapping read as a block. */
  datatype Page =
    | Page(page: int, pageNo: int, elements: seq<Block>, blocks: seq<Block>, body: Block)
    | NotAPage

  datatype Export = Pages(pages: seq<Page>) | Keyed(pages: seq<Page>, elements: seq<Page>) | NoPages

  function PagesOf(export_: Export): seq<Page> {
    match export_
    case Pages(pages) => pages
    case Keyed(pages, elements) => if |pages| > 0 then pages else elements
    case NoPages => []
  }

  function Lower(s: string): string {
    seq(|s|, i requires 0 <= i < |s| => if 'A' <= s[i] <= 'Z' then s[i] - 'A' + 'a' else s[i])
  }

  predicate Contains(s: string, part: string) {
    Instr(s, part) > 0
  }

  function Rendered(rows: seq<Row>): seq<string> {
    if |rows| == 0 then []
    else (if rows[0].Cells? then ["| " + Join(" | ", rows[0].cells) + " |"] else []) + Rendered(rows[1..])
  }

  function BlockValue(block: Block): Content
    requires block.Block?
  {
    var value := if block.text.Truthy() then block.text else if block.content.Truthy() then block.content else Str("");
    if !value.Truthy() then Str(Join("\n", Rendered(block.rows))) else value
  }

  function Kind(block: Block): string
    requires block.Block?
  {
    Lower(if block.blockType != "" then block.blockType else if block.kind != "" then block.kind else "paragraph")
  }

  predicate HasText(block: Block) {
    block.Block? && BlockValue(block).Str? && !Blank(BlockValue(block).s)
  }

  predicate IsHeading(block: Block)
    requires block.Block?
  {
    Contains(Kind(block), "heading") || Kind(block) in {"title", "section_header"}
  }

  function Level(block: Block): (level: nat)
    requires block.Block?
    ensures level >= 1
  {
    var given := if block.level != 0 then block.level else if block.headingLevel != 0 then block.headingLevel else 1;
    Max(1, given)
  }

  function ChunkType(block: Block): string
    requires block.Block?
  {
    if Contains(Kind(block), "table") then "table" else if Contains(Kind(block), "list") then "list" else "prose"
  }

  /** `number` counts every entry of the export, from 1. */
  function PageNumber(page: Page, number: nat): int
    requires page.Page?
  {
    if page.page != 0 then page.page else if page.pageNo != 0 then page.pageNo else number
  }

  function BlocksOf(page: Page): seq<Block> {
    if page.NotAPage? then []
    else if |page.elements| > 0 then page.elements
    else if |page.blocks| > 0 then page.blocks
    else [page.body]
  }

  // The adapter's loops over segments, offset and section

  datatype State = State(segments: seq<SourceSegment>, offset: nat, section: seq<string>)

  const START := State([], 0, [])

  function AddBlock(state: State, number: int, block: Block): State {
    if !HasText(block) then state
    else
      var clean := Strip(BlockValue(block).s);
      if IsHeading(block) then
        var kept := Level(block) - 1;
        state.(section := (if kept <= |state.section| then state.section[..kept] else state.section) + [clean])
      else
        state.(
          segments := state.segments + [SourceSegment(clean, state.offset, state.offset + |clean|, Some(number), Some(number),
                                                      state.section, ChunkType(block))],
          offset := state.offset + |clean| + 1)
  }

  function AddBlocks(state: State, number: int, blocks: seq<Block>, from: nat): State
    requires from <= |blocks|
    decreases |blocks| - from
  {
    if from == |blocks| then state
    else AddBlocks(AddBlock(state, number, blocks[from]), number, blocks, from + 1)
  }

  function AddPage(state: State, page: Page, number: nat): State {
    if page.NotAPage? then state else AddBlocks(state, PageNumber(page, number), BlocksOf(page), 0)
  }

  function AddPages(state: State, pages: seq<Page>, from: nat): State
    requires from <= |pages|
    decreases |pages| - from
  {
    if from == |pages| then state
    else AddPages(AddPage(state, pages[from], from + 1), pages, from + 1)
  }

  function SegmentsOf(pages: seq<Page>): seq<SourceSegment> {
    AddPages(START, pages, 0).segments
  }

  function Texts(segments: seq<SourceSegment>): seq<string> {
    if |segments| == 0 then [] else [segments[0].text] + Texts(segments[1..])
  }

  function Joined(segments: seq<SourceSegment>): string {
    Join("\n", Texts(segments))
  }

  function BoundedOverlap(maxChars: int, overlap: int): int {
    if overlap <= maxChars - 1 then overlap else maxChars - 1
  }

  method BuildSegments(pages: seq<Page>) returns (segments: seq<SourceSegment>)
    ensures segments == SegmentsOf(pages)
  {
    hide AddBlocks, AddPages, Blank, IsHeading, BlockValue, Kind, ChunkType, PageNumber, BlocksOf, Strip, Level;
    segments := [];
    var offset: nat, section: seq<string> := 0, [];
    var p := 0;
    while p < |pages|
      invariant 0 <= p <= |pages|
      invariant AddPages(State(segments, offset, section), pages, p) == AddPages(START, pages, 0)
    {
      AddPagesStep(State(segments, offset, section), pages, p);
      if pages[p].Page? {
        var number := PageNumber(pages[p], p + 1);
        var blocks := BlocksOf(pages[p]);
        ghost var entry := State(segments, offset, section);
        var b := 0;
        while b < |blocks|
          invariant 0 <= b <= |blocks|
          invariant AddBlocks(State(segments, offset, section), number, blocks, b) == AddBlocks(entry, number, blocks, 0)
        {
          AddBlocksStep(State(segments, offset, section), number, blocks, b);
          var block := blocks[b];
          if HasText(block) {
            var clean := Strip(BlockValue(block).s);
            if IsHeading(block) {
              var kept := Level(block) - 1;
              section := (if kept <= |section| then section[..kept] else section) + [clean];
            } else {
              segments := segments + [SourceSegment(clean, offset, offset + |clean|, Some(number), Some(number), section, ChunkType(block))];
              offset := offset + |clean| + 1;
            }
          }
          b := b + 1;
        }
        AddBlocksStep(State(segments, offset, section), number, blocks, b);
      }
      p := p + 1;
    }
    AddPagesStep(State(segments, offset, section), pages, p);
  }

  lemma AddBlocksStep(state: State, number: int, blocks: seq<Block>, b: nat)
    requires b <= |blocks|
    ensures b == |blocks| ==> AddBlocks(state, number, blocks, b) == state
    ensures b < |blocks| ==>
      AddBlocks(AddBlock(state, number, blocks[b]), number, blocks, b + 1) == AddBlocks(state, number, blocks, b)
  {
  }

  lemma AddPagesStep(state: State, pages: seq<Page>, p: nat)
    requires p <= |pages|
    ensures p == |pages| ==> AddPages(state, pages, p) == state
    ensures p < |pages| ==> AddPages(AddPage(state, pages[p], p + 1), pages, p + 1) == AddPages(state, pages, p)
  {
  }

  ghost function DoclingChunked(document: string, version: string, export_: Export, maxChars: int, overlap: int)
    : Result<seq<TextChunk>>
    requires MayChunkDocling(export_, maxChars, overlap)
  {
    var segments := SegmentsOf(PagesOf(export_));
    Chunked(document, version, Joined(segments), maxChars, BoundedOverlap(maxChars, overlap), segments)
  }

  ghost predicate MayChunkDocling(export_: Export, maxChars: int, overlap: int) {
    var segments := SegmentsOf(PagesOf(export_));
    MayChunk(Joined(segments), maxChars, BoundedOverlap(maxChars, overlap), segments)
  }

  method ChunkDocling(document: string, version: string, export_: Export, maxChars: int, overlap: int)
    returns (result: Result<seq<TextChunk>>)
    requires MayChunkDocling(export_, maxChars, overlap)
    ensures result == DoclingChunked(document, version, export_, maxChars, overlap)
  {
    var segments := BuildSegments(PagesOf(export_));
    result := ChunkText(document, version, Joined(segments), maxChars, BoundedOverlap(maxChars, overlap), segments);
  }

  // Offsets into the joined text

  /** Segments follow each other with one separator between them, the first at `base`. */
  ghost predicate LaidOut(segments: seq<SourceSegment>, base: int) {
    && (|segments| > 0 ==> segments[0].start == base)
    && (forall k :: 0 <= k < |segments| ==> segments[k].end == segments[k].start + |segments[k].text|)
    && (forall j, k :: 0 <= j < |segments| && j < k < |segments| && k == j + 1 ==> segments[k].start == segments[j].end + 1)
  }

  /** Characters of a segment sit at their recorded offsets of the joined text. */
  lemma {:induction false} JoinedAt(segments: seq<SourceSegment>, base: int, j: nat, i: nat)
    requires LaidOut(segments, base) && j < |segments| && i < |segments[j].text|
    ensures
      var at := segments[j].start - base + i;
      0 <= at < |Joined(segments)| && Joined(segments)[at] == segments[j].text[i]
    decreases j
  {
    var first := segments[0].text;
    assert Texts(segments)[1..] == Texts(segments[1..]);
    if |segments| > 1 {
      assert |Texts(segments)| > 1;
      assert Joined(segments) == first + "\n" + Joined(segments[1..]);
    }
    if j > 0 {
      assert segments[1].start == segments[0].end + 1;
      JoinedAt(segments[1..], base + |first| + 1, j - 1, i);
    }
  }

  // Where segments come from

  /** The segment is the stripped text of a body block, with that block's page and type. */
  ghost predicate Mirrors(segment: SourceSegment, pages: seq<Page>, p: nat, b: nat) {
    && p < |pages| && pages[p].Page? && b < |BlocksOf(pages[p])|
    && var block := BlocksOf(pages[p])[b];
    && HasText(block) && !IsHeading(block)
    && segment.text == Strip(BlockValue(block).s)
    && segment.pageStart == segment.pageEnd == Some(PageNumber(pages[p], p + 1))
    && segment.chunkType == ChunkType(block)
  }

  ghost predicate FromSomeBlock(segment: SourceSegment, pages: seq<Page>) {
    exists p, b :: Mirrors(segment, pages, p, b)
  }

  ghost predicate StateFaithful(state: State, pages: seq<Page>) {
    && LaidOut(state.segments, 0)
    && state.offset == (if |state.segments| == 0 then 0 else state.segments[|state.segments| - 1].end + 1)
    && forall k :: 0 <= k < |state.segments| ==> FromSomeBlock(state.segments[k], pages)
  }

  lemma BlockFaithful(state: State, pages: seq<Page>, p: nat, b: nat)
    requires StateFaithful(state, pages) && p < |pages| && pages[p].Page? && b < |BlocksOf(pages[p])|
    ensures StateFaithful(AddBlock(state, PageNumber(pages[p], p + 1), BlocksOf(pages[p])[b]), pages)
  {
    hide Blank, IsHeading, BlockValue, Kind, ChunkType, PageNumber, BlocksOf, Strip, Level;
    var block := BlocksOf(pages[p])[b];
    var next := AddBlock(state, PageNumber(pages[p], p + 1), block);
    if HasText(block) && !IsHeading(block) {
      assert Mirrors(next.segments[|state.segments|], pages, p, b);
    }
  }

  lemma {:induction false} BlocksFaithful(state: State, pages: seq<Page>, p: nat, b: nat)
    requires StateFaithful(state, pages) && p < |pages| && pages[p].Page? && b <= |BlocksOf(pages[p])|
    ensures StateFaithful(AddBlocks(state, PageNumber(pages[p], p + 1), BlocksOf(pages[p]), b), pages)
    decreases |BlocksOf(pages[p])| - b
  {
    hide StateFaithful, AddBlock, PageNumber, BlocksOf;
    if b < |BlocksOf(pages[p])| {
      BlockFaithful(state, pages, p, b);
      BlocksFaithful(AddBlock(state, PageNumber(pages[p], p + 1), BlocksOf(pages[p])[b]), pages, p, b + 1);
    }
  }

  lemma {:induction false} PagesFaithful(state: State, pages: seq<Page>, p: nat)
    requires StateFaithful(state, pages) && p <= |pages|
    ensures StateFaithful(AddPages(state, pages, p), pages)
    decreases |pages| - p
  {
    hide StateFaithful, AddBlocks, PageNumber, BlocksOf;
    if p < |pages| {
      if pages[p].Page? {
        BlocksFaithful(state, pages, p, 0);
      }
      PagesFaithful(AddPage(state, pages[p], p + 1), pages, p + 1);
    }
  }

  // The round trip

  /** The chunk's interval of the joined text lies inside one segment, reads back the chunk's text, and the chunk has
      the page and type of the block that segment came from. */
  ghost predicate ReadsBack(chunk: TextChunk, pages: seq<Page>, joined: string, segment: SourceSegment) {
    && segment.start <= chunk.sourceStart < chunk.sourceEnd <= segment.end
    && 0 <= chunk.sourceStart && chunk.sourceEnd <= |joined|
    && joined[chunk.sourceStart..chunk.sourceEnd] == chunk.text
    && chunk.pageStart == segment.pageStart && chunk.pageEnd == segment.pageEnd
    && chunk.sectionPath == segment.sectionPath && chunk.chunkType == segment.chunkType
    && FromSomeBlock(segment, pages)
  }

  lemma ChunkReadsBack(chunk: TextChunk, segments: seq<SourceSegment>, j: nat, maxChars: nat)
    requires LaidOut(segments, 0) && j < |segments| && Cites(chunk, segments[j], maxChars)
    ensures segments[j].start <= chunk.sourceStart < chunk.sourceEnd <= segments[j].end
    ensures 0 <= chunk.sourceStart && chunk.sourceEnd <= |Joined(segments)|
    ensures Joined(segments)[chunk.sourceStart..chunk.sourceEnd] == chunk.text
  {
    hide Joined;
    var s := segments[j];
    var lo, hi := chunk.sourceStart - s.start, chunk.sourceEnd - s.start;
    JoinedAt(segments, 0, j, lo);
    JoinedAt(segments, 0, j, hi - 1);
    forall i | lo <= i < hi ensures 0 <= s.start + i < |Joined(segments)| && Joined(segments)[s.start + i] == s.text[i] {
      JoinedAt(segments, 0, j, i);
    }
    var cut := Joined(segments)[chunk.sourceStart..chunk.sourceEnd];
    assert forall i :: 0 <= i < |cut| ==> cut[i] == Joined(segments)[s.start + (lo + i)];
    assert cut == s.text[lo..hi];
  }

  /** Citation round trip, for every export the splitter ends on. */
  lemma DoclingRoundTrip(document: string, version: string, export_: Export, maxChars: int, overlap: int)
    returns (origin: seq<nat>)
    requires MayChunkDocling(export_, maxChars, overlap)
    ensures
      var pages, segments := PagesOf(export_), SegmentsOf(PagesOf(export_));
      var result := DoclingChunked(document, version, export_, maxChars, overlap);
      && (result.Success? <==> maxChars >= 128 && overlap >= 0)
      && (result.Success? ==>
        && |origin| == |result.value|
        && (forall k :: 0 <= k < |result.value| ==>
          origin[k] < |segments| && ReadsBack(result.value[k], pages, Joined(segments), segments[origin[k]]))
        && EveryCharacterKept(result.value, segments, maxChars))
  {
    hide SegmentsOf, Joined, FromSomeBlock, LaidOut, Splittable, HeldBySome, ChunksFrom, Cites;
    var pages, segments := PagesOf(export_), SegmentsOf(PagesOf(export_));
    SegmentsFaithful(pages);
    origin := ChunkLineage(document, version, Joined(segments), maxChars, BoundedOverlap(maxChars, overlap), segments);
    var result := DoclingChunked(document, version, export_, maxChars, overlap);
    if result.Success? {
      if |segments| == 0 {
        assert Joined(segments) == "" by { NothingJoined(); }
        NothingToChunk(document, version, maxChars, BoundedOverlap(maxChars, overlap));
      } else {
        forall k | 0 <= k < |result.value| ensures ReadsBack(result.value[k], pages, Joined(segments), segments[origin[k]]) {
          RoundTripOne(result.value[k], pages, segments, origin[k], maxChars);
        }
      }
    }
  }

  lemma NothingJoined()
    ensures Joined([]) == ""
  {
  }

  lemma NothingToChunk(document: string, version: string, maxChars: int, overlap: int)
    requires MayChunk("", maxChars, overlap, []) && BoundsAccepted(maxChars, overlap)
    ensures Chunked(document, version, "", maxChars, overlap, []) == Success([])
  {
    var job, all := Job(document, version, maxChars, overlap), Effective("", []);
    assert Blank(all[0].text);
    assert ChunksOfSegment(job, all[0], 0) == [];
    assert ChunksFrom(job, all, 1, 0) == [];
    assert ChunksFrom(job, all, 0, 0) == [] + ChunksFrom(job, all, 1, 0);
  }

  lemma SegmentsFaithful(pages: seq<Page>)
    ensures LaidOut(SegmentsOf(pages), 0)
    ensures forall k :: 0 <= k < |SegmentsOf(pages)| ==> FromSomeBlock(SegmentsOf(pages)[k], pages)
  {
    PagesFaithful(START, pages, 0);
  }

  lemma RoundTripOne(chunk: TextChunk, pages: seq<Page>, segments: seq<SourceSegment>, j: nat, maxChars: nat)
    requires LaidOut(segments, 0) && j < |segments| && Cites(chunk, segments[j], maxChars)
    requires FromSomeBlock(segments[j], pages)
    ensures ReadsBack(chunk, pages, Joined(segments), segments[j])
  {
    hide Joined, FromSomeBlock, LaidOut;
    ChunkReadsBack(chunk, segments, j, maxChars);
  }
}
