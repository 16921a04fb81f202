/** Bounded text chunking with citation lineage (backend/app/chunking.py). */
module Chunking {
  import opened Wrappers
  import opened Text

  // _split_bounded

  /** text.rfind(c, lo, hi) */
  function RFind(text: string, c: char, lo: nat, hi: nat): (r: int)
    requires hi <= |text|
    ensures r == -1 || (lo <= r < hi && text[r] == c)
    ensures forall i :: lo <= i < hi && i > r ==> text[i] != c
    decreases hi
  {
    if hi <= lo then -1 else if text[hi - 1] == c then hi - 1 else RFind(text, c, lo, hi - 1)
  }

  function Max(a: int, b: int): int {
    if a >= b then a else b
  }

  /** Where the span that starts at cursor ends. */
  function SpanEnd(text: string, maxChars: nat, cursor: nat): (end: nat)
    requires cursor < |text| && maxChars >= 1
    ensures cursor < end <= |text| && end <= cursor + maxChars
    ensures end < |text| ==> end >= cursor + maxChars / 2
  {
    var bound := if cursor + maxChars <= |text| then cursor + maxChars else |text|;
    if bound < |text| then
      var from := cursor + maxChars / 2;
      var boundary := Max(RFind(text, ' ', from, bound), RFind(text, '\n', from, bound));
      Max(if boundary > cursor then boundary else bound, cursor + 1)
    else Max(bound, cursor + 1)
  }

  function NextCursor(end: nat, overlap: nat): nat {
    Max(0, end - overlap)
  }

  /** The splitting loop entered at cursor leaves within n iterations. */
  predicate Finishes(text: string, maxChars: nat, overlap: nat, cursor: nat, n: nat)
    requires maxChars >= 1
    decreases n
  {
    if cursor >= |text| then true
    else if n == 0 then false
    else
      var end := SpanEnd(text, maxChars, cursor);
      end >= |text| || Finishes(text, maxChars, overlap, NextCursor(end, overlap), n - 1)
  }

  datatype Span = Span(start: nat, end: nat)

  function Spans(text: string, maxChars: nat, overlap: nat, cursor: nat, n: nat): seq<Span>
    requires maxChars >= 1 && Finishes(text, maxChars, overlap, cursor, n)
    decreases n
  {
    hide SpanEnd;
    if cursor >= |text| then []
    else
      var end := SpanEnd(text, maxChars, cursor);
      [Span(cursor, end)] + if end >= |text| then [] else Spans(text, maxChars, overlap, NextCursor(end, overlap), n - 1)
  }

  ghost predicate Terminates(text: string, maxChars: nat, overlap: nat)
    requires maxChars >= 1
  {
    exists n :: Finishes(text, maxChars, overlap, 0, n)
  }

  ghost function SplitSpans(text: string, maxChars: nat, overlap: nat): seq<Span>
    requires maxChars >= 1 && Terminates(text, maxChars, overlap)
  {
    var n :| Finishes(text, maxChars, overlap, 0, n); Spans(text, maxChars, overlap, 0, n)
  }

  lemma {:induction false} SpansIgnoreSpareSteps(text: string, maxChars: nat, overlap: nat, cursor: nat, n: nat, m: nat)
    requires maxChars >= 1
    requires Finishes(text, maxChars, overlap, cursor, n) && Finishes(text, maxChars, overlap, cursor, m)
    ensures Spans(text, maxChars, overlap, cursor, n) == Spans(text, maxChars, overlap, cursor, m)
    decreases n
  {
    hide SpanEnd;
    if cursor < |text| {
      var end := SpanEnd(text, maxChars, cursor);
      if end < |text| {
        SpansIgnoreSpareSteps(text, maxChars, overlap, NextCursor(end, overlap), n - 1, m - 1);
      }
    }
  }

  lemma SplitSpansIs(text: string, maxChars: nat, overlap: nat, n: nat)
    requires maxChars >= 1 && Finishes(text, maxChars, overlap, 0, n)
    ensures Terminates(text, maxChars, overlap)
    ensures SplitSpans(text, maxChars, overlap) == Spans(text, maxChars, overlap, 0, n)
  {
    hide SpanEnd, Spans, Finishes;
    var m: nat :| Finishes(text, maxChars, overlap, 0, m)
      && SplitSpans(text, maxChars, overlap) == Spans(text, maxChars, overlap, 0, m);
    SpansIgnoreSpareSteps(text, maxChars, overlap, 0, n, m);
  }

  /** The spans found so far, and those still to come from cursor, make up the whole split. */
  ghost predicate Pending(text: string, maxChars: nat, overlap: nat, done: seq<Span>, cursor: nat, n: nat)
    requires maxChars >= 1 && Terminates(text, maxChars, overlap)
  {
    Finishes(text, maxChars, overlap, cursor, n)
    && done + Spans(text, maxChars, overlap, cursor, n) == SplitSpans(text, maxChars, overlap)
  }

  lemma PendingStart(text: string, maxChars: nat, overlap: nat) returns (n: nat)
    requires maxChars >= 1 && Terminates(text, maxChars, overlap)
    ensures Pending(text, maxChars, overlap, [], 0, n)
  {
    hide SpanEnd, Spans;
    n :| Finishes(text, maxChars, overlap, 0, n);
    SplitSpansIs(text, maxChars, overlap, n);
  }

  lemma PendingStep(text: string, maxChars: nat, overlap: nat, done: seq<Span>, cursor: nat, n: nat)
    requires maxChars >= 1 && Terminates(text, maxChars, overlap)
    requires Pending(text, maxChars, overlap, done, cursor, n)
    ensures cursor >= |text| ==> done == SplitSpans(text, maxChars, overlap)
    ensures cursor < |text| ==>
      var end := SpanEnd(text, maxChars, cursor);
      var more := done + [Span(cursor, end)];
      if end >= |text| then more == SplitSpans(text, maxChars, overlap)
      else n > 0 && Pending(text, maxChars, overlap, more, NextCursor(end, overlap), n - 1)
  {
    hide SpanEnd, SplitSpans, Terminates;
  }

  method SplitBounded(text: string, maxChars: nat, overlap: nat) returns (spans: seq<Span>)
    requires maxChars >= 1 && Terminates(text, maxChars, overlap)
    ensures spans == SplitSpans(text, maxChars, overlap)
  {
    hide *;
    spans := [];
    var cursor: nat := 0;
    ghost var left := PendingStart(text, maxChars, overlap);
    while cursor < |text|
      invariant Pending(text, maxChars, overlap, spans, cursor, left)
      decreases left
    {
      PendingStep(text, maxChars, overlap, spans, cursor, left);
      var end := SpanEnd(text, maxChars, cursor);
      spans := spans + [Span(cursor, end)];
      if end >= |text| {
        return;
      }
      cursor := NextCursor(end, overlap);
      left := left - 1;
    }
    PendingStep(text, maxChars, overlap, spans, cursor, left);
  }

  // Termination, exactly

  /** Every step moves the cursor by at least maxChars / 2 - overlap, which bounds the number of spans. */
  lemma {:induction false} SpansBounded(text: string, maxChars: nat, overlap: nat, cursor: nat, n: nat)
    requires maxChars >= 1 && overlap < maxChars / 2
    requires cursor <= |text| && n * (maxChars / 2 - overlap) > |text| - cursor
    ensures Finishes(text, maxChars, overlap, cursor, n)
    ensures |Spans(text, maxChars, overlap, cursor, n)| <= n
    decreases n
  {
    hide SpanEnd;
    if cursor < |text| {
      var step := maxChars / 2 - overlap;
      assert n > 0;
      var end := SpanEnd(text, maxChars, cursor);
      if end < |text| {
        assert (n - 1) * step == n * step - step;
        SpansBounded(text, maxChars, overlap, NextCursor(end, overlap), n - 1);
      }
    }
  }

  lemma SpanCount(text: string, maxChars: nat, overlap: nat)
    requires maxChars >= 1 && overlap < maxChars / 2
    ensures Terminates(text, maxChars, overlap)
    ensures |SplitSpans(text, maxChars, overlap)| <= 1 + |text| / (maxChars / 2 - overlap)
  {
    var step := maxChars / 2 - overlap;
    var n := 1 + |text| / step;
    assert n * step > |text| by {
      assert |text| == (|text| / step) * step + |text| % step;
      assert n * step == (|text| / step) * step + step;
    }
    SpansBounded(text, maxChars, overlap, 0, n);
    SplitSpansIs(text, maxChars, overlap, n);
  }

  /** One space in the middle of the first window. */
  function Stuck(maxChars: nat): string {
    seq(maxChars + 1, i => if i == maxChars / 2 then ' ' else 'x')
  }

  lemma {:induction false} StuckForever(maxChars: nat, overlap: nat, n: nat)
    requires maxChars >= 2 && maxChars / 2 <= overlap
    ensures !Finishes(Stuck(maxChars), maxChars, overlap, 0, n)
    decreases n
  {
    var text := Stuck(maxChars);
    assert text[maxChars / 2] == ' ';
    assert SpanEnd(text, maxChars, 0) == maxChars / 2;
    if n > 0 {
      StuckForever(maxChars, overlap, n - 1);
    }
  }

  /** Splitting terminates on every text exactly when the overlap is less than half the chunk size: the guard
      overlap < max_chars does not suffice. */
  lemma TerminationExact(maxChars: nat, overlap: nat)
    requires maxChars >= 128 && overlap < maxChars
    ensures (forall text :: Terminates(text, maxChars, overlap)) <==> overlap < maxChars / 2
  {
    if overlap < maxChars / 2 {
      forall text ensures Terminates(text, maxChars, overlap) {
        SpanCount(text, maxChars, overlap);
      }
    } else {
      forall n ensures !Finishes(Stuck(maxChars), maxChars, overlap, 0, n) {
        StuckForever(maxChars, overlap, n);
      }
      assert !Terminates(Stuck(maxChars), maxChars, overlap);
    }
  }

  // Coverage

  ghost predicate Inside(i: int, span: Span) {
    span.start <= i < span.end
  }

  ghost predicate InSomeSpan(i: int, spans: seq<Span>) {
    exists k :: 0 <= k < |spans| && Inside(i, spans[k])
  }

  /** Spans are non-empty, at most maxChars long, leave no gap from `from` on, and end with the text. */
  ghost predicate Covers(spans: seq<Span>, from: nat, length: nat, maxChars: nat) {
    && (forall k :: 0 <= k < |spans| ==> spans[k].start < spans[k].end <= length && spans[k].end - spans[k].start <= maxChars)
    && (|spans| > 0 ==> spans[0].start == from && spans[|spans| - 1].end == length)
    && (forall j, k :: 0 <= j < |spans| && j < k < |spans| && k == j + 1 ==> spans[k].start <= spans[j].end)
    && (from < length ==> |spans| > 0)
  }

  lemma {:induction false} SpansCover(text: string, maxChars: nat, overlap: nat, cursor: nat, n: nat)
    requires maxChars >= 1 && Finishes(text, maxChars, overlap, cursor, n)
    ensures Covers(Spans(text, maxChars, overlap, cursor, n), cursor, |text|, maxChars)
    decreases n
  {
    hide SpanEnd;
    if cursor < |text| {
      var end := SpanEnd(text, maxChars, cursor);
      if end < |text| {
        SpansCover(text, maxChars, overlap, NextCursor(end, overlap), n - 1);
      }
    }
  }

  lemma {:induction false} CoveredIndex(spans: seq<Span>, from: nat, length: nat, maxChars: nat, i: nat)
    requires Covers(spans, from, length, maxChars) && from <= i < length
    ensures InSomeSpan(i, spans)
  {
    if i < spans[0].end {
      assert Inside(i, spans[0]);
    } else {
      assert |spans| > 1;
      CoveredIndex(spans[1..], spans[1].start, length, maxChars, i);
      var k :| 0 <= k < |spans[1..]| && Inside(i, spans[1..][k]);
      assert Inside(i, spans[k + 1]);
    }
  }

  /** On every text the split ends on: no gap, spans of length 1 to max_chars, the whole text covered. */
  lemma SplitCovers(text: string, maxChars: nat, overlap: nat)
    requires maxChars >= 1 && Terminates(text, maxChars, overlap)
    ensures Covers(SplitSpans(text, maxChars, overlap), 0, |text|, maxChars)
    ensures forall i :: 0 <= i < |text| ==> InSomeSpan(i, SplitSpans(text, maxChars, overlap))
  {
    var spans := SplitSpans(text, maxChars, overlap);
    var n: nat :| Finishes(text, maxChars, overlap, 0, n) && spans == Spans(text, maxChars, overlap, 0, n);
    SpansCover(text, maxChars, overlap, 0, n);
    forall i | 0 <= i < |text| ensures InSomeSpan(i, spans) {
      CoveredIndex(spans, 0, |text|, maxChars, i);
    }
  }

  // Where spans break

  predicate IsBreak(text: string, i: int) {
    0 <= i < |text| && (text[i] == ' ' || text[i] == '\n')
  }

  /** The span ends at the last space or newline of the second half of its window, or at the window's end if that
      half has none; the last span ends with the text. */
  predicate EndsWell(text: string, maxChars: nat, span: Span) {
    var window := span.start + maxChars;
    if window >= |text| then span.end == |text|
    else
      && (forall i :: span.start + maxChars / 2 <= i < window && IsBreak(text, i) ==> i <= span.end)
      && (span.end == window || (span.start + maxChars / 2 <= span.end < window && IsBreak(text, span.end)))
      && (span.end == window ==> forall i :: span.start + maxChars / 2 <= i < window ==> !IsBreak(text, i))
  }

  ghost predicate Steps(spans: seq<Span>, overlap: nat) {
    forall j, k :: 0 <= j < |spans| && j < k < |spans| && k == j + 1 ==>
      spans[k].start == if spans[j].end >= overlap then spans[j].end - overlap else 0
  }

  lemma SpanEndsWell(text: string, maxChars: nat, cursor: nat)
    requires cursor < |text| && maxChars >= 2
    ensures EndsWell(text, maxChars, Span(cursor, SpanEnd(text, maxChars, cursor)))
  {
  }

  lemma {:induction false} SpansBreak(text: string, maxChars: nat, overlap: nat, cursor: nat, n: nat)
    requires maxChars >= 2 && Finishes(text, maxChars, overlap, cursor, n)
    ensures var spans := Spans(text, maxChars, overlap, cursor, n);
      && Steps(spans, overlap) && (forall k :: 0 <= k < |spans| ==> EndsWell(text, maxChars, spans[k]))
      && (|spans| > 0 ==> spans[0].start == cursor)
    decreases n
  {
    hide SpanEnd, EndsWell;
    if cursor < |text| {
      var end := SpanEnd(text, maxChars, cursor);
      SpanEndsWell(text, maxChars, cursor);
      if end < |text| {
        SpansBreak(text, maxChars, overlap, NextCursor(end, overlap), n - 1);
      }
    }
  }

  /** Spans break at white space where they can, and each starts the overlap before the end of the one before it. */
  lemma SplitBreaks(text: string, maxChars: nat, overlap: nat)
    requires maxChars >= 2 && Terminates(text, maxChars, overlap)
    ensures var spans := SplitSpans(text, maxChars, overlap);
      Steps(spans, overlap) && forall k :: 0 <= k < |spans| ==> EndsWell(text, maxChars, spans[k])
  {
    hide EndsWell, Spans, SpanEnd;
    var spans := SplitSpans(text, maxChars, overlap);
    var n: nat :| Finishes(text, maxChars, overlap, 0, n) && spans == Spans(text, maxChars, overlap, 0, n);
    SpansBreak(text, maxChars, overlap, 0, n);
  }
}
