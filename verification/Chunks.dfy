/** chunk_text: chunks that carry the citation lineage of their segment (backend/app/chunking.py). */
module Chunks {
  import opened Wrappers
  import opened Text
  import opened Chunking

  datatype SourceSegment = SourceSegment(
    text: string,
    start: int,
    end: int,
    pageStart: Option<int>,
    pageEnd: Option<int>,
    sectionPath: seq<string>,
    chunkType: string)

  /** The fields the stable id hashes, in place of their digest. */
  datatype ChunkId = ChunkId(document: string, version: string, no: nat, text: string)

  datatype TextChunk = TextChunk(
    id: ChunkId,
    text: string,
    chunkNo: nat,
    sourceStart: int,
    sourceEnd: int,
    pageStart: Option<int>,
    pageEnd: Option<int>,
    sectionPath: seq<string>,
    chunkType: string)

  datatype Job = Job(document: string, version: string, maxChars: nat, overlap: nat)

  // The loop bodies

  function Slice(segment: SourceSegment, span: Span): string
    requires span.start <= span.end <= |segment.text|
  {
    segment.text[span.start..span.end]
  }

  function ChunkOf(job: Job, segment: SourceSegment, span: Span, no: nat): TextChunk
    requires span.start <= span.end <= |segment.text|
  {
    var raw := Slice(segment, span);
    TextChunk(
      ChunkId(job.document, job.version, no, Strip(raw)),
      Strip(raw),
      no,
      segment.start + span.start + Leading(raw),
      segment.start + span.start + RStripLength(raw),
      segment.pageStart, segment.pageEnd, segment.sectionPath, segment.chunkType)
  }

  ghost predicate SpansFit(spans: seq<Span>, segment: SourceSegment, maxChars: nat) {
    forall k :: 0 <= k < |spans| ==> SpanFits(spans[k], segment, maxChars)
  }

  predicate SpanFits(span: Span, segment: SourceSegment, maxChars: nat) {
    span.start <= span.end <= |segment.text| && span.end - span.start <= maxChars
  }

  /** The chunks of a segment's spans, numbered from `no`. */
  ghost function ChunksOfSpans(job: Job, segment: SourceSegment, spans: seq<Span>, no: nat): seq<TextChunk>
    requires SpansFit(spans, segment, job.maxChars)
  {
    if |spans| == 0 then []
    else
      assert SpanFits(spans[0], segment, job.maxChars);
      if Blank(Slice(segment, spans[0])) then ChunksOfSpans(job, segment, spans[1..], no)
      else [ChunkOf(job, segment, spans[0], no)] + ChunksOfSpans(job, segment, spans[1..], no + 1)
  }

  ghost predicate Splittable(job: Job, segments: seq<SourceSegment>)
    requires job.maxChars >= 1
  {
    forall j :: 0 <= j < |segments| && !Blank(segments[j].text) ==> Terminates(segments[j].text, job.maxChars, job.overlap)
  }

  lemma SplitFits(job: Job, segment: SourceSegment)
    requires job.maxChars >= 1 && Terminates(segment.text, job.maxChars, job.overlap)
    ensures SpansFit(SplitSpans(segment.text, job.maxChars, job.overlap), segment, job.maxChars)
  {
    SplitCovers(segment.text, job.maxChars, job.overlap);
  }

  ghost function ChunksOfSegment(job: Job, segment: SourceSegment, no: nat): seq<TextChunk>
    requires job.maxChars >= 1 && (Blank(segment.text) || Terminates(segment.text, job.maxChars, job.overlap))
  {
    if Blank(segment.text) then []
    else
      SplitFits(job, segment);
      ChunksOfSpans(job, segment, SplitSpans(segment.text, job.maxChars, job.overlap), no)
  }

  /** The chunks of segments[from..], numbered from `no`. */
  ghost function ChunksFrom(job: Job, segments: seq<SourceSegment>, from: nat, no: nat): seq<TextChunk>
    requires job.maxChars >= 1 && from <= |segments| && Splittable(job, segments)
    decreases |segments| - from
  {
    if from == |segments| then []
    else
      var here := ChunksOfSegment(job, segments[from], no);
      here + ChunksFrom(job, segments, from + 1, no + |here|)
  }

  /** With no segments given the input is one prose segment. */
  function Effective(text: string, segments: seq<SourceSegment>): (effective: seq<SourceSegment>)
    ensures |effective| > 0
  {
    if |segments| > 0 then segments else [SourceSegment(text, 0, |text|, None, None, [], "prose")]
  }

  predicate BoundsAccepted(maxChars: int, overlap: int) {
    maxChars >= 128 && 0 <= overlap < maxChars
  }

  /** The caller's burden: once the guards pass, every split must end. It is met by overlap < max_chars / 2. */
  ghost predicate MayChunk(text: string, maxChars: int, overlap: int, segments: seq<SourceSegment>) {
    BoundsAccepted(maxChars, overlap) ==> Splittable(Job("", "", maxChars, overlap), Effective(text, segments))
  }

  lemma HalfOverlapMayChunk(text: string, maxChars: int, overlap: int, segments: seq<SourceSegment>)
    requires overlap < maxChars / 2
    ensures MayChunk(text, maxChars, overlap, segments)
  {
    if BoundsAccepted(maxChars, overlap) {
      var all := Effective(text, segments);
      forall j | 0 <= j < |all| ensures Terminates(all[j].text, maxChars, overlap) {
        SpanCount(all[j].text, maxChars, overlap);
      }
    }
  }

  ghost function Chunked(document: string, version: string, text: string, maxChars: int, overlap: int,
                         segments: seq<SourceSegment>): Result<seq<TextChunk>>
    requires MayChunk(text, maxChars, overlap, segments)
  {
    if maxChars < 128 then Failure("max_chars must be an integer >= 128")
    else if overlap < 0 || overlap >= maxChars then Failure("overlap_chars must be in [0, max_chars)")
    else Success(ChunksFrom(Job(document, version, maxChars, overlap), Effective(text, segments), 0, 0))
  }

  ghost predicate SpansPending(job: Job, segment: SourceSegment, spans: seq<Span>, no: nat, output: seq<TextChunk>, i: nat) {
    && i <= |spans| && SpansFit(spans, segment, job.maxChars)
    && output + ChunksOfSpans(job, segment, spans[i..], no + |output|) == ChunksOfSpans(job, segment, spans, no)
  }

  lemma SpansPendingStep(job: Job, segment: SourceSegment, spans: seq<Span>, no: nat, output: seq<TextChunk>, i: nat)
    requires SpansPending(job, segment, spans, no, output, i) && i < |spans|
    ensures SpanFits(spans[i], segment, job.maxChars)
    ensures SpansPending(job, segment, spans, no,
      if Blank(Slice(segment, spans[i])) then output else output + [ChunkOf(job, segment, spans[i], no + |output|)], i + 1)
  {
    hide Blank, ChunkOf, Slice;
    assert spans[i..][0] == spans[i] && spans[i..][1..] == spans[i + 1..];
    assert SpanFits(spans[i], segment, job.maxChars);
    if !Blank(Slice(segment, spans[i])) {
      var chunk, n := ChunkOf(job, segment, spans[i], no + |output|), no + |output|;
      assert ChunksOfSpans(job, segment, spans[i..], n) == [chunk] + ChunksOfSpans(job, segment, spans[i + 1..], n + 1);
      assert |output + [chunk]| == |output| + 1;
      assert output + ([chunk] + ChunksOfSpans(job, segment, spans[i + 1..], n + 1))
        == output + [chunk] + ChunksOfSpans(job, segment, spans[i + 1..], n + 1);
    }
  }

  lemma SpansPendingEnds(job: Job, segment: SourceSegment, spans: seq<Span>, no: nat, output: seq<TextChunk>)
    requires SpansFit(spans, segment, job.maxChars)
    ensures SpansPending(job, segment, spans, no, [], 0)
    ensures SpansPending(job, segment, spans, no, output, |spans|) ==> output == ChunksOfSpans(job, segment, spans, no)
  {
    hide Blank, ChunkOf, Slice, SpanFits;
    assert spans[0..] == spans && [] + ChunksOfSpans(job, segment, spans, no) == ChunksOfSpans(job, segment, spans, no);
    assert spans[|spans|..] == [];
    assert output + [] == output;
  }

  method ChunkSegment(job: Job, segment: SourceSegment, no: nat) returns (output: seq<TextChunk>)
    requires job.maxChars >= 1 && (Blank(segment.text) || Terminates(segment.text, job.maxChars, job.overlap))
    ensures output == ChunksOfSegment(job, segment, no)
  {
    hide ChunksOfSpans, SpansFit, SpansPending, SplitSpans, Terminates, Blank, ChunkOf, Slice;
    output := [];
    if Blank(segment.text) {
      return;
    }
    var spans := SplitBounded(segment.text, job.maxChars, job.overlap);
    SplitFits(job, segment);
    SpansPendingEnds(job, segment, spans, no, []);
    var i := 0;
    while i < |spans|
      invariant 0 <= i <= |spans|
      invariant SpansPending(job, segment, spans, no, output, i)
    {
      SpansPendingStep(job, segment, spans, no, output, i);
      if !Blank(Slice(segment, spans[i])) {
        output := output + [ChunkOf(job, segment, spans[i], no + |output|)];
      }
      i := i + 1;
    }
    SpansPendingEnds(job, segment, spans, no, output);
  }

  ghost predicate SegmentsPending(job: Job, segments: seq<SourceSegment>, output: seq<TextChunk>, j: nat) {
    && job.maxChars >= 1 && j <= |segments| && Splittable(job, segments)
    && output + ChunksFrom(job, segments, j, |output|) == ChunksFrom(job, segments, 0, 0)
  }

  lemma SegmentsPendingStep(job: Job, segments: seq<SourceSegment>, output: seq<TextChunk>, j: nat)
    requires SegmentsPending(job, segments, output, j)
    ensures j == |segments| ==> output == ChunksFrom(job, segments, 0, 0)
    ensures j < |segments| ==> Blank(segments[j].text) || Terminates(segments[j].text, job.maxChars, job.overlap)
    ensures j < |segments| ==>
      SegmentsPending(job, segments, output + ChunksOfSegment(job, segments[j], |output|), j + 1)
  {
    hide ChunksOfSegment, Blank, Terminates;
    if j == |segments| {
      assert output + [] == output;
    } else {
      var here := ChunksOfSegment(job, segments[j], |output|);
      var rest := ChunksFrom(job, segments, j + 1, |output| + |here|);
      assert output + (here + rest) == output + here + rest;
    }
  }

  method ChunkText(document: string, version: string, text: string, maxChars: int, overlap: int,
                   segments: seq<SourceSegment>)
    returns (result: Result<seq<TextChunk>>)
    requires MayChunk(text, maxChars, overlap, segments)
    ensures result == Chunked(document, version, text, maxChars, overlap, segments)
  {
    if maxChars < 128 {
      return Failure("max_chars must be an integer >= 128");
    }
    if overlap < 0 || overlap >= maxChars {
      return Failure("overlap_chars must be in [0, max_chars)");
    }
    hide Terminates, Effective, ChunksOfSegment, ChunksFrom, SegmentsPending, Blank;
    var job := Job(document, version, maxChars, overlap);
    var all := Effective(text, segments);
    var output := [];
    SegmentsStart(job, all);
    var j := 0;
    while j < |all|
      invariant 0 <= j <= |all|
      invariant SegmentsPending(job, all, output, j)
    {
      SegmentsPendingStep(job, all, output, j);
      var here := ChunkSegment(job, all[j], |output|);
      output := output + here;
      j := j + 1;
    }
    SegmentsPendingStep(job, all, output, j);
    result := Success(output);
  }

  lemma SegmentsStart(job: Job, segments: seq<SourceSegment>)
    requires job.maxChars >= 1 && Splittable(job, segments)
    ensures SegmentsPending(job, segments, [], 0)
  {
  }

  // Lineage

  /** The chunk is a trimmed, non-empty slice of the segment at the offsets it records, and carries the segment's
      page, section and type. */
  ghost predicate Cites(chunk: TextChunk, segment: SourceSegment, maxChars: nat) {
    var lo, hi := chunk.sourceStart - segment.start, chunk.sourceEnd - segment.start;
    && 0 <= lo < hi <= |segment.text| && hi - lo <= maxChars
    && chunk.text == segment.text[lo..hi]
    && Trimmed(chunk.text)
    && chunk.pageStart == segment.pageStart && chunk.pageEnd == segment.pageEnd
    && chunk.sectionPath == segment.sectionPath && chunk.chunkType == segment.chunkType
  }

  ghost predicate Numbered(chunks: seq<TextChunk>, job: Job, no: nat) {
    forall k :: 0 <= k < |chunks| ==>
      chunks[k].chunkNo == no + k && chunks[k].id == ChunkId(job.document, job.version, no + k, chunks[k].text)
  }

  /** Chunk k comes from segments[origin[k]], in segment order. */
  ghost predicate Traced(chunks: seq<TextChunk>, segments: seq<SourceSegment>, origin: seq<nat>, from: nat, maxChars: nat) {
    && |origin| == |chunks|
    && (forall k :: 0 <= k < |chunks| ==> from <= origin[k] < |segments| && Cites(chunks[k], segments[origin[k]], maxChars))
    && (forall a, b :: 0 <= a < b < |origin| ==> origin[a] <= origin[b])
  }

  ghost predicate Holds(chunk: TextChunk, segment: SourceSegment, i: nat, maxChars: nat) {
    Cites(chunk, segment, maxChars) && chunk.sourceStart <= segment.start + i < chunk.sourceEnd
  }

  ghost predicate HeldBySome(chunks: seq<TextChunk>, segment: SourceSegment, i: nat, maxChars: nat) {
    exists k :: 0 <= k < |chunks| && Holds(chunks[k], segment, i, maxChars)
  }

  lemma ChunkCites(job: Job, segment: SourceSegment, span: Span, no: nat)
    requires SpanFits(span, segment, job.maxChars) && !Blank(Slice(segment, span))
    ensures Cites(ChunkOf(job, segment, span, no), segment, job.maxChars)
  {
    hide Leading, RStripLength, Blank;
    var raw, chunk := Slice(segment, span), ChunkOf(job, segment, span, no);
    BlankExact(raw);
    var lo, hi := chunk.sourceStart - segment.start, chunk.sourceEnd - segment.start;
    assert lo == span.start + Leading(raw) && hi == span.start + RStripLength(raw);
    assert chunk.text == raw[Leading(raw)..RStripLength(raw)] == segment.text[lo..hi];
  }

  /** A visible character of a span lies between the stripped ends. */
  lemma ChunkHolds(job: Job, segment: SourceSegment, span: Span, no: nat, i: nat)
    requires SpanFits(span, segment, job.maxChars)
    requires span.start <= i < span.end && !IsSpace(segment.text[i])
    ensures !Blank(Slice(segment, span)) && Holds(ChunkOf(job, segment, span, no), segment, i, job.maxChars)
  {
    var raw := Slice(segment, span);
    assert raw[i - span.start] == segment.text[i];
    BlankExact(raw);
    ChunkCites(job, segment, span, no);
  }

  lemma {:induction false} SpanLineage(job: Job, segment: SourceSegment, spans: seq<Span>, no: nat)
    requires SpansFit(spans, segment, job.maxChars)
    ensures
      var chunks := ChunksOfSpans(job, segment, spans, no);
      && Numbered(chunks, job, no)
      && forall k :: 0 <= k < |chunks| ==> Cites(chunks[k], segment, job.maxChars)
  {
    hide Leading, RStripLength, Strip, Cites, Blank;
    if |spans| == 0 {
    } else {
      assert SpanFits(spans[0], segment, job.maxChars);
      if Blank(Slice(segment, spans[0])) {
        SpanLineage(job, segment, spans[1..], no);
      } else {
        SpanLineage(job, segment, spans[1..], no + 1);
        ChunkCites(job, segment, spans[0], no);
      }
    }
  }

  lemma {:induction false} SpanKeeps(job: Job, segment: SourceSegment, spans: seq<Span>, no: nat, i: nat, k: nat)
    requires SpansFit(spans, segment, job.maxChars)
    requires k < |spans| && Inside(i, spans[k]) && i < |segment.text| && !IsSpace(segment.text[i])
    ensures HeldBySome(ChunksOfSpans(job, segment, spans, no), segment, i, job.maxChars)
  {
    hide Leading, RStripLength, Strip, Holds, ChunkOf;
    var chunks := ChunksOfSpans(job, segment, spans, no);
    assert SpanFits(spans[0], segment, job.maxChars);
    if k == 0 {
      ChunkHolds(job, segment, spans[0], no, i);
      assert Holds(chunks[0], segment, i, job.maxChars);
    } else {
      var skipped := Blank(Slice(segment, spans[0]));
      var next := if skipped then no else no + 1;
      SpanKeeps(job, segment, spans[1..], next, i, k - 1);
      var rest := ChunksOfSpans(job, segment, spans[1..], next);
      var m :| 0 <= m < |rest| && Holds(rest[m], segment, i, job.maxChars);
      assert chunks[if skipped then m else m + 1] == rest[m];
    }
  }

  lemma SegmentLineage(job: Job, segment: SourceSegment, no: nat)
    requires job.maxChars >= 1 && (Blank(segment.text) || Terminates(segment.text, job.maxChars, job.overlap))
    ensures
      var chunks := ChunksOfSegment(job, segment, no);
      && Numbered(chunks, job, no)
      && forall k :: 0 <= k < |chunks| ==> Cites(chunks[k], segment, job.maxChars)
  {
    hide Cites, Terminates, SplitSpans, ChunksOfSpans, Blank, SpansFit;
    if !Blank(segment.text) {
      SplitFits(job, segment);
      SpanLineage(job, segment, SplitSpans(segment.text, job.maxChars, job.overlap), no);
    }
  }

  lemma SegmentKeeps(job: Job, segment: SourceSegment, no: nat, i: nat)
    requires job.maxChars >= 1 && (Blank(segment.text) || Terminates(segment.text, job.maxChars, job.overlap))
    requires i < |segment.text| && !IsSpace(segment.text[i])
    ensures HeldBySome(ChunksOfSegment(job, segment, no), segment, i, job.maxChars)
  {
    BlankExact(segment.text);
    SplitFits(job, segment);
    SplitCovers(segment.text, job.maxChars, job.overlap);
    var spans := SplitSpans(segment.text, job.maxChars, job.overlap);
    assert InSomeSpan(i, spans);
    var k :| 0 <= k < |spans| && Inside(i, spans[k]);
    SpanKeeps(job, segment, spans, no, i, k);
  }

  lemma {:induction false} LineageFrom(job: Job, segments: seq<SourceSegment>, from: nat, no: nat) returns (origin: seq<nat>)
    requires job.maxChars >= 1 && from <= |segments| && Splittable(job, segments)
    ensures
      var chunks := ChunksFrom(job, segments, from, no);
      Numbered(chunks, job, no) && Traced(chunks, segments, origin, from, job.maxChars)
    decreases |segments| - from
  {
    hide Cites, Terminates, ChunksOfSegment, Blank;
    if from == |segments| {
      origin := [];
    } else {
      var here := ChunksOfSegment(job, segments[from], no);
      SegmentLineage(job, segments[from], no);
      var rest := LineageFrom(job, segments, from + 1, no + |here|);
      origin := seq(|here|, _ => from) + rest;
    }
  }

  lemma {:induction false} KeepsFrom(job: Job, segments: seq<SourceSegment>, from: nat, no: nat, j: nat, i: nat)
    requires job.maxChars >= 1 && from <= j < |segments| && Splittable(job, segments)
    requires i < |segments[j].text| && !IsSpace(segments[j].text[i])
    ensures HeldBySome(ChunksFrom(job, segments, from, no), segments[j], i, job.maxChars)
    decreases j - from
  {
    hide Terminates, ChunksOfSegment, Blank, Holds;
    var here := ChunksOfSegment(job, segments[from], no);
    var rest := ChunksFrom(job, segments, from + 1, no + |here|);
    if j == from {
      SegmentKeeps(job, segments[j], no, i);
      var k :| 0 <= k < |here| && Holds(here[k], segments[j], i, job.maxChars);
      assert (here + rest)[k] == here[k];
    } else {
      KeepsFrom(job, segments, from + 1, no + |here|, j, i);
      var k :| 0 <= k < |rest| && Holds(rest[k], segments[j], i, job.maxChars);
      assert (here + rest)[|here| + k] == rest[k];
    }
  }

  ghost predicate EveryCharacterKept(chunks: seq<TextChunk>, segments: seq<SourceSegment>, maxChars: nat) {
    forall j, i :: 0 <= j < |segments| && 0 <= i < |segments[j].text| && !IsSpace(segments[j].text[i]) ==>
      HeldBySome(chunks, segments[j], i, maxChars)
  }

  /** Chunking succeeds exactly on the accepted bounds, and then every chunk cites one segment, in order and numbered
      without gaps, and no visible character of any segment is lost. */
  lemma ChunkLineage(document: string, version: string, text: string, maxChars: int, overlap: int,
                     segments: seq<SourceSegment>)
    returns (origin: seq<nat>)
    requires MayChunk(text, maxChars, overlap, segments)
    ensures
      var result := Chunked(document, version, text, maxChars, overlap, segments);
      && (result.Success? <==> BoundsAccepted(maxChars, overlap))
      && (result.Success? ==>
        && Numbered(result.value, Job(document, version, maxChars, overlap), 0)
        && Traced(result.value, Effective(text, segments), origin, 0, maxChars)
        && EveryCharacterKept(result.value, Effective(text, segments), maxChars))
  {
    hide Terminates, ChunksFrom, Holds, Cites, Blank;
    origin := [];
    if BoundsAccepted(maxChars, overlap) {
      var job, all := Job(document, version, maxChars, overlap), Effective(text, segments);
      origin := LineageFrom(job, all, 0, 0);
      forall j, i | 0 <= j < |all| && 0 <= i < |all[j].text| && !IsSpace(all[j].text[i])
        ensures HeldBySome(ChunksFrom(job, all, 0, 0), all[j], i, maxChars)
      {
        KeepsFrom(job, all, 0, 0, j, i);
      }
    }
  }

  /** Some chunk is the part of the text between its offsets, and i is in it. */
  ghost predicate QuotedAt(chunks: seq<TextChunk>, text: string, i: int) {
    exists k :: 0 <= k < |chunks|
      && 0 <= chunks[k].sourceStart <= i < chunks[k].sourceEnd <= |text|
      && chunks[k].text == text[chunks[k].sourceStart..chunks[k].sourceEnd]
  }

  /** A text without segments loses no visible character either, and its chunks cite no page and no section. */
  lemma PlainTextKept(document: string, version: string, text: string, maxChars: int, overlap: int)
    requires MayChunk(text, maxChars, overlap, []) && BoundsAccepted(maxChars, overlap)
    ensures var result := Chunked(document, version, text, maxChars, overlap, []);
      && result.Success?
      && (forall i :: 0 <= i < |text| && !IsSpace(text[i]) ==> QuotedAt(result.value, text, i))
      && forall k :: 0 <= k < |result.value| ==>
           var chunk := result.value[k];
           chunk.pageStart == None && chunk.pageEnd == None && chunk.sectionPath == [] && chunk.chunkType == "prose"
  {
    hide Splittable, ChunksFrom, Blank, Terminates;
    var result := Chunked(document, version, text, maxChars, overlap, []);
    var origin := ChunkLineage(document, version, text, maxChars, overlap, []);
    var whole := Effective(text, [])[0];
    forall i | 0 <= i < |text| && !IsSpace(text[i]) ensures QuotedAt(result.value, text, i) {
      assert HeldBySome(result.value, whole, i, maxChars);
    }
  }
}
