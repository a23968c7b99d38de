/** Section-aware chunking: page spans, segments, overlapping windows, and halving. */
module Chunking {
  import opened Pages
  import opened Basics

  const TARGET_CHARS: nat := 6000
  const OVERLAP_CHARS: nat := 500
  const MAX_CHUNKS: nat := 60

  datatype Chunk = Chunk(index: nat, heading: string, pageStart: int, pageEnd: int, text: string, subIndex: nat)

  datatype Span = Span(page: int, start: nat, end: nat)

  /** A section heading found at an offset of the page-marked text. */
  datatype Heading = Heading(offset: nat, title: string)

  datatype Segment = Segment(title: string, start: nat, end: nat)

  datatype ChunkResult = Chunks(chunks: seq<Chunk>) | ChunkCapExceeded

  // ------------------------------------------------- page-marked text

  function Digit(d: nat): char
    requires d < 10
  {
    ('0' as int + d) as char
  }

  /** The number that decimal digits stand for. */
  function NumberOf(digits: string): int {
    if digits == [] then 0 else 10 * NumberOf(digits[..|digits| - 1]) + (digits[|digits| - 1] as int - '0' as int)
  }

  /** Digits without leading zeros, that stand for `n`. */
  ghost predicate AreDigitsOf(digits: string, n: nat) {
    && digits != [] && (forall c | c in digits :: '0' <= c <= '9') && (|digits| > 1 ==> digits[0] != '0')
    && NumberOf(digits) == n
  }

  /** The numeral of a page number, with a minus if it is negative. */
  ghost predicate IsNumeral(s: string, n: int) {
    if n < 0 then s != [] && s[0] == '-' && AreDigitsOf(s[1..], -n) else AreDigitsOf(s, n)
  }

  lemma OneMoreDigit(digits: string, d: nat)
    requires d < 10
    ensures NumberOf(digits + [Digit(d)]) == 10 * NumberOf(digits) + d
  {
    assert (digits + [Digit(d)])[..|digits|] == digits;
  }

  function Decimal(n: nat): (s: string)
    ensures AreDigitsOf(s, n) && (n > 0 ==> s[0] != '0')
  {
    if n < 10 then
      OneMoreDigit([], n);
      [Digit(n)]
    else
      OneMoreDigit(Decimal(n / 10), n % 10);
      Decimal(n / 10) + [Digit(n % 10)]
  }

  function Numeral(n: int): (s: string)
    ensures IsNumeral(s, n)
  {
    if n < 0 then "-" + Decimal(-n) else Decimal(n)
  }

  ghost predicate IsNumeralTable(f: int -> string) { forall n :: IsNumeral(f(n), n) }

  type NumeralTable = f: int -> string | IsNumeralTable(f) witness Numeral

  /** `str`: the decimal numerals, given by what they stand for. */
  const NUMERAL: NumeralTable

  /** `f"[[PAGE {page}]]\n{text}\n"`. */
  function Marked(page: Page): string { "[[PAGE " + NUMERAL(page.number) + "]]\n" + page.text + "\n" }

  function FullText(pages: seq<Page>): string {
    if pages == [] then [] else FullText(pages[..|pages| - 1]) + Marked(pages[|pages| - 1])
  }

  function Spans(pages: seq<Page>): seq<Span> {
    if pages == [] then []
    else
      var before := pages[..|pages| - 1];
      Spans(before) + [Span(pages[|pages| - 1].number, |FullText(before)|, |FullText(pages)|)]
  }

  /** `_page_for_offset`: the first span holding the offset, else the last page, else 1. */
  function PageForOffset(spans: seq<Span>, offset: int): int {
    if spans == [] then 1
    else if spans[0].start <= offset < spans[0].end || |spans| == 1 then spans[0].page
    else PageForOffset(spans[1..], offset)
  }

  /** Spans that follow one another without gap from `from` to `to`. */
  ghost predicate Tiles(spans: seq<Span>, from: nat, to: nat) {
    && (forall i | 0 <= i < |spans| :: spans[i].start < spans[i].end)
    && (forall i, j | 0 <= i < |spans| && j == i + 1 < |spans| :: spans[i].end == spans[j].start)
    && if spans == [] then from == to else spans[0].start == from && spans[|spans| - 1].end == to
  }

  lemma TextGrows(pages: seq<Page>)
    requires pages != []
    ensures |FullText(pages[..|pages| - 1])| < |FullText(pages)|
  {
    var m := Marked(pages[|pages| - 1]);
    assert FullText(pages) == FullText(pages[..|pages| - 1]) + m;
  }

  lemma {:induction false} SpansNumbers(pages: seq<Page>)
    ensures |Spans(pages)| == |pages| && forall i | 0 <= i < |pages| :: Spans(pages)[i].page == pages[i].number
  {
    if pages != [] {
      SpansNumbers(pages[..|pages| - 1]);
    }
  }

  lemma {:induction false} SpansTile(pages: seq<Page>)
    ensures Tiles(Spans(pages), 0, |FullText(pages)|) && |Spans(pages)| == |pages|
    ensures forall i | 0 <= i < |pages| :: Spans(pages)[i].page == pages[i].number
  {
    SpansNumbers(pages);
    if pages != [] {
      var before := pages[..|pages| - 1];
      SpansTile(before);
      TextGrows(pages);
      TilesGoOn(Spans(before), pages[|pages| - 1].number, |FullText(before)|, |FullText(pages)|);
    }
  }

  lemma TilesGoOn(spans: seq<Span>, page: int, from: nat, to: nat)
    requires Tiles(spans, 0, from) && from < to
    ensures Tiles(spans + [Span(page, from, to)], 0, to)
  {
  }

  lemma SliceOfPrefix<T>(x: seq<T>, y: seq<T>, i: nat, j: nat)
    requires i <= j <= |x|
    ensures (x + y)[i..j] == x[i..j]
  {
  }

  lemma DropOne<T>(x: seq<T>, n: nat)
    requires n < |x|
    ensures x[n..] == [x[n]] + x[n + 1..]
  {
  }

  lemma SliceOfSlice<T>(x: seq<T>, i: nat, j: nat, p: nat, q: nat)
    requires i <= p <= q <= j <= |x|
    ensures x[i..j][p - i..q - i] == x[p..q]
  {
    forall k | 0 <= k < q - p ensures x[i..j][p - i..q - i][k] == x[p..q][k] {}
  }

  /** Every page's marked text stands at its span. */
  lemma {:induction false} SpanText(pages: seq<Page>, i: nat)
    requires i < |pages|
    ensures |Spans(pages)| == |pages| && Spans(pages)[i].start <= Spans(pages)[i].end <= |FullText(pages)|
    ensures FullText(pages)[Spans(pages)[i].start..Spans(pages)[i].end] == Marked(pages[i])
  {
    var before := pages[..|pages| - 1];
    SpansTile(before);
    if i < |before| {
      SpanText(before, i);
      SliceOfPrefix(FullText(before), Marked(pages[|pages| - 1]), Spans(before)[i].start, Spans(before)[i].end);
    } else {
      assert FullText(pages) == FullText(before) + Marked(pages[i]);
    }
  }

  lemma NumeralOf(n: int)
    ensures IsNumeral(NUMERAL(n), n)
  {
    var f: NumeralTable := NUMERAL;
    assert IsNumeralTable(f);
  }

  /** Where the text of page `i` stands: it ends one character before its span. */
  function PageStart(pages: seq<Page>, i: nat): int
    requires i < |pages| && |Spans(pages)| == |pages|
  {
    Spans(pages)[i].end - 1 - |pages[i].text|
  }

  /** The page-marked text of a page, as the span cuts it out. */
  lemma MarkedParts(s: string, from: nat, to: nat, page: Page) returns (numeral: string, at: nat)
    requires from <= to <= |s| && s[from..to] == Marked(page)
    ensures IsNumeral(numeral, page.number) && from < at == to - 1 - |page.text|
    ensures s[from..at] == "[[PAGE " + numeral + "]]\n" && s[at..to - 1] == page.text && s[to - 1..to] == "\n"
  {
    numeral := NUMERAL(page.number);
    NumeralOf(page.number);
    var marker := "[[PAGE " + numeral + "]]\n";
    at := from + |marker|;
    ThreeParts(s, from, to, marker, page.text, "\n");
  }

  /** The text of every page stands in its span, between a marker with its number and a line end. */
  lemma {:induction false} PageTextStands(pages: seq<Page>, i: nat) returns (numeral: string, at: nat)
    requires i < |pages|
    ensures |Spans(pages)| == |pages| && Spans(pages)[i].page == pages[i].number && IsNumeral(numeral, pages[i].number)
    ensures Spans(pages)[i].start < at == PageStart(pages, i)
    ensures at + |pages[i].text| < Spans(pages)[i].end <= |FullText(pages)|
    ensures FullText(pages)[Spans(pages)[i].start..at] == "[[PAGE " + numeral + "]]\n"
    ensures FullText(pages)[at..at + |pages[i].text|] == pages[i].text
    ensures FullText(pages)[at + |pages[i].text|..Spans(pages)[i].end] == "\n"
  {
    SpansTile(pages);
    SpanText(pages, i);
    numeral, at := MarkedParts(FullText(pages), Spans(pages)[i].start, Spans(pages)[i].end, pages[i]);
  }

  lemma ThreeParts(s: string, from: nat, to: nat, x: string, y: string, z: string)
    requires from <= to <= |s| && s[from..to] == x + y + z
    ensures to - from == |x| + |y| + |z|
    ensures s[from..from + |x|] == x && s[from + |x|..to - |z|] == y && s[to - |z|..to] == z
  {
    var t := x + y + z;
    SliceOfSlice(s, from, to, from, from + |x|);
    SliceOfSlice(s, from, to, from + |x|, to - |z|);
    SliceOfSlice(s, from, to, to - |z|, to);
    assert t[..|x|] == x && t[|x|..|x| + |y|] == y && t[|x| + |y|..] == z;
  }

  /** A passage of the page's text, in its place. */
  lemma {:induction false} PagePassageStands(pages: seq<Page>, i: nat, u: nat, v: nat)
    requires i < |pages| && u <= v <= |pages[i].text|
    ensures |Spans(pages)| == |pages| && 0 <= PageStart(pages, i) && PageStart(pages, i) + v <= |FullText(pages)|
    ensures FullText(pages)[PageStart(pages, i) + u..PageStart(pages, i) + v] == pages[i].text[u..v]
  {
    var _, at := PageTextStands(pages, i);
    SliceOfSlice(FullText(pages), at, at + |pages[i].text|, at + u, at + v);
  }

  /** `page` is the page in whose span the character at `offset` stands. */
  ghost predicate IsPageOf(spans: seq<Span>, offset: int, page: int) {
    exists i | 0 <= i < |spans| :: spans[i].start <= offset < spans[i].end && page == spans[i].page
  }

  lemma {:induction false} SpanOfOffset(spans: seq<Span>, from: nat, to: nat, offset: nat) returns (i: nat)
    requires Tiles(spans, from, to) && from <= offset < to
    ensures i < |spans| && spans[i].start <= offset < spans[i].end && PageForOffset(spans, offset) == spans[i].page
    ensures forall j | 0 <= j < i :: spans[j].end <= offset
  {
    if offset < spans[0].end {
      i := 0;
    } else {
      assert |spans| > 1;
      assert Tiles(spans[1..], spans[0].end, to) by {
        assert spans[1..][0] == spans[1];
      }
      var k := SpanOfOffset(spans[1..], spans[0].end, to, offset);
      i := k + 1;
      forall j | 0 <= j < i ensures spans[j].end <= offset {
        if j > 0 { assert spans[j] == spans[1..][j - 1]; }
      }
    }
  }

  ghost predicate PagesAscend(spans: seq<Span>) {
    forall i, j | 0 <= i < j < |spans| :: spans[i].page < spans[j].page
  }

  lemma PageForOffsetIsPageOf(spans: seq<Span>, length: nat, offset: nat, later: nat)
    requires Tiles(spans, 0, length) && PagesAscend(spans) && offset <= later < length
    ensures IsPageOf(spans, offset, PageForOffset(spans, offset))
    ensures PageForOffset(spans, offset) <= PageForOffset(spans, later)
  {
    var i := SpanOfOffset(spans, 0, length, offset);
    var j := SpanOfOffset(spans, 0, length, later);
    assert i <= j;
  }

  // -------------------------------------------------------- segments

  /** Headings come from one left-to-right scan of text that begins with a page marker. */
  ghost predicate AreHeadings(headings: seq<Heading>, length: nat) {
    && (forall i | 0 <= i < |headings| :: 0 < headings[i].offset < length)
    && (forall i, j | 0 <= i < j < |headings| :: headings[i].offset < headings[j].offset)
  }

  function Boundaries(headings: seq<Heading>): seq<Heading> { [Heading(0, "Document")] + headings }

  function SegmentAt(bounds: seq<Heading>, i: nat, length: nat): Segment
    requires i < |bounds|
  {
    Segment(bounds[i].title, bounds[i].offset, if i + 1 < |bounds| then bounds[i + 1].offset else length)
  }

  function Segments(headings: seq<Heading>, length: nat): seq<Segment> {
    var bounds := Boundaries(headings);
    seq(|bounds|, i requires 0 <= i < |bounds| => SegmentAt(bounds, i, length))
  }

  /** The segments partition the text. */
  lemma SegmentsPartition(headings: seq<Heading>, length: nat)
    requires AreHeadings(headings, length) && length > 0
    ensures var segs := Segments(headings, length);
            && segs[0].start == 0 && segs[|segs| - 1].end == length
            && (forall i, j | 0 <= i < |segs| && j == i + 1 < |segs| :: segs[i].end == segs[j].start)
            && (forall i | 0 <= i < |segs| :: segs[i].start < segs[i].end <= length)
  {
    var bounds := Boundaries(headings);
    assert forall i | 0 < i < |bounds| :: bounds[i] == headings[i - 1];
  }

  /** The first segment is the part before the headings, and each heading begins the next one. */
  lemma SegmentsAreHeaded(headings: seq<Heading>, length: nat)
    ensures var segs := Segments(headings, length);
            && |segs| == |headings| + 1 && segs[0].title == "Document" && segs[0].start == 0
            && (forall h | 0 <= h < |headings| ::
                  segs[h + 1].start == headings[h].offset && segs[h + 1].title == headings[h].title)
  {
    var bounds := Boundaries(headings);
    assert forall h | 0 <= h < |headings| :: bounds[h + 1] == headings[h];
  }

  /** A passage that no heading divides lies in one segment. */
  lemma {:induction false} SegmentOfPassage(headings: seq<Heading>, length: nat, p: nat, q: nat, n: nat)
    returns (i: nat)
    requires AreHeadings(headings, length) && p < q <= length && n <= |headings|
    requires forall h | 0 <= h < |headings| :: !(p < headings[h].offset < q)
    requires n < |headings| ==> q <= headings[n].offset
    ensures i <= n && i < |Segments(headings, length)|
    ensures var seg := Segments(headings, length)[i]; seg.start <= p && q <= seg.end
  {
    SegmentsPartition(headings, length);
    SegmentsAreHeaded(headings, length);
    if n == 0 || headings[n - 1].offset <= p {
      i := n;
    } else {
      i := SegmentOfPassage(headings, length, p, q, n - 1);
    }
  }

  /** No heading divides the passage from `u` to `v` of page `i`. */
  ghost predicate IsUndivided(pages: seq<Page>, headings: seq<Heading>, i: nat, u: nat, v: nat) {
    && i < |pages| && u < v <= |pages[i].text| && |Spans(pages)| == |pages|
    && forall h | 0 <= h < |headings| ::
         !(PageStart(pages, i) + u < headings[h].offset < PageStart(pages, i) + v)
  }

  lemma {:induction false} SegmentOfPage(pages: seq<Page>, headings: seq<Heading>, i: nat, u: nat, v: nat)
    returns (s: nat, p: nat, q: nat)
    requires AreHeadings(headings, |FullText(pages)|) && IsUndivided(pages, headings, i, u, v)
    ensures s < |Segments(headings, |FullText(pages)|)|
    ensures var seg := Segments(headings, |FullText(pages)|)[s]; seg.start <= p < q <= seg.end
    ensures q - p == v - u && q <= |FullText(pages)| && FullText(pages)[p..q] == pages[i].text[u..v]
  {
    PagePassageStands(pages, i, u, v);
    p, q := PageStart(pages, i) + u, PageStart(pages, i) + v;
    s := SegmentOfPassage(headings, |FullText(pages)|, p, q, |headings|);
  }

  // --------------------------------------------------------- windows

  function Step(target: nat, overlap: nat): nat { Max(1, target - overlap) }

  /** Start positions of the windows of a segment of `length` characters, from `pos` on. */
  function WindowStarts(length: nat, target: nat, step: nat, pos: nat): seq<nat>
    requires step > 0
    decreases length - pos
  {
    if pos >= length then []
    else [pos] + if pos + target >= length then [] else WindowStarts(length, target, step, pos + step)
  }

  /** The windows cover the segment: consecutive starts are one step apart, every window but the
      last is full and stops short of the end, and the last one reaches it. */
  ghost predicate Cover(ws: seq<nat>, length: nat, target: nat, step: nat, pos: nat) {
    && ws != [] && ws[0] == pos
    && (forall j, k | 0 <= j < |ws| && k == j + 1 < |ws| :: ws[k] == ws[j] + step && ws[j] + target < length)
    && ws[|ws| - 1] < length <= ws[|ws| - 1] + target
  }

  lemma OneWindowCovers(length: nat, target: nat, step: nat, pos: nat)
    requires pos < length <= pos + target
    ensures Cover([pos], length, target, step, pos)
  {
  }

  lemma CoverGoesOn(ws: seq<nat>, length: nat, target: nat, step: nat, pos: nat)
    requires Cover(ws, length, target, step, pos + step) && pos + target < length
    ensures Cover([pos] + ws, length, target, step, pos)
  {
  }

  lemma {:induction false} WindowsCover(length: nat, target: nat, step: nat, pos: nat)
    requires 0 < step <= target && pos < length
    ensures Cover(WindowStarts(length, target, step, pos), length, target, step, pos)
    decreases length - pos
  {
    if pos + target < length {
      WindowsCover(length, target, step, pos + step);
      CoverGoesOn(WindowStarts(length, target, step, pos + step), length, target, step, pos);
    } else {
      OneWindowCovers(length, target, step, pos);
    }
  }

  /** Consecutive windows share exactly `overlap` characters. */
  lemma WindowsOverlap(length: nat, target: nat, overlap: nat, k: nat)
    requires overlap < target && k + 1 < |WindowStarts(length, target, Step(target, overlap), 0)|
    ensures var ws := WindowStarts(length, target, Step(target, overlap), 0);
            var end, nextEnd := Min(ws[k] + target, length), Min(ws[k + 1] + target, length);
            ws[k] < ws[k + 1] < end + 1 && end <= nextEnd && end - ws[k + 1] == overlap
  {
    WindowsCover(length, target, Step(target, overlap), 0);
    var ws := WindowStarts(length, target, Step(target, overlap), 0);
    assert ws[k + 1] == ws[k] + Step(target, overlap);
  }

  /** A passage no longer than the overlap plus one lies whole in some window. */
  lemma {:induction false} WindowHoldsPassage(length: nat, target: nat, step: nat, pos: nat, p: nat, q: nat)
    returns (k: nat)
    requires 0 < step <= target && pos <= p <= q <= length && p < length
    requires q - p <= target - step + 1
    ensures var ws := WindowStarts(length, target, step, pos);
            k < |ws| && ws[k] <= p && q <= Min(ws[k] + target, length)
    decreases length - pos
  {
    if pos + target >= length || p < pos + step {
      k := 0;
    } else {
      var k' := WindowHoldsPassage(length, target, step, pos + step, p, q);
      k := k' + 1;
    }
  }

  // ---------------------------------------------------------- chunks

  function ChunkAt(full: string, spans: seq<Span>, seg: Segment, target: nat, pos: nat, index: nat): Chunk
    requires seg.start + pos <= seg.end <= |full|
  {
    var absStart := seg.start + pos;
    var absEnd := Min(absStart + target, seg.end);
    Chunk(index, seg.title, PageForOffset(spans, absStart), PageForOffset(spans, Max(absStart, absEnd - 1)),
          full[absStart..absEnd], 0)
  }

  /** The chunks of one segment, for the given window starts, numbered from `index`. */
  function SegmentChunks(full: string, spans: seq<Span>, seg: Segment, target: nat, starts: seq<nat>,
                         index: nat): (r: seq<Chunk>)
    requires seg.end <= |full| && forall k | 0 <= k < |starts| :: seg.start + starts[k] <= seg.end
    ensures |r| == |starts|
  {
    seq(|starts|, k requires 0 <= k < |starts| => ChunkAt(full, spans, seg, target, starts[k], index + k))
  }

  ghost predicate SegmentsFit(segs: seq<Segment>, length: nat) {
    forall i | 0 <= i < |segs| :: segs[i].start <= segs[i].end <= length
  }

  lemma {:induction false} WindowStartsFit(length: nat, target: nat, step: nat, pos: nat)
    requires step > 0
    ensures forall k | 0 <= k < |WindowStarts(length, target, step, pos)| ::
              WindowStarts(length, target, step, pos)[k] < length
    decreases length - pos
  {
    if pos < length && pos + target < length {
      WindowStartsFit(length, target, step, pos + step);
    }
  }

  function StartsIn(seg: Segment, target: nat, step: nat): (r: seq<nat>)
    requires step > 0 && seg.start <= seg.end
    ensures forall k | 0 <= k < |r| :: seg.start + r[k] < seg.end
  {
    WindowStartsFit(seg.end - seg.start, target, step, 0);
    WindowStarts(seg.end - seg.start, target, step, 0)
  }

  function AllChunks(full: string, spans: seq<Span>, segs: seq<Segment>, target: nat, step: nat): seq<Chunk>
    requires step > 0 && SegmentsFit(segs, |full|)
  {
    if segs == [] then []
    else
      var before := AllChunks(full, spans, segs[..|segs| - 1], target, step);
      var seg := segs[|segs| - 1];
      before + SegmentChunks(full, spans, seg, target, StartsIn(seg, target, step), |before|)
  }

  /** The chunks of a document before the cap is applied. */
  ghost function DocumentChunks(pages: PageMap, headings: seq<Heading>, target: nat, overlap: nat): seq<Chunk>
    requires AreHeadings(headings, |FullText(pages)|)
  {
    var full := FullText(pages);
    if full == [] then []
    else
      SegmentsPartition(headings, |full|);
      AllChunks(full, Spans(pages), Segments(headings, |full|), target, Step(target, overlap))
  }

  /** What a chunk of a document is: a non-empty window of at most `target` characters inside one
      segment, whose page range names the pages of its first and last characters. */
  ghost predicate IsWindowOf(c: Chunk, full: string, spans: seq<Span>, seg: Segment, target: nat, start: nat) {
    var end := start + |c.text|;
    && seg.start <= start < end <= seg.end <= |full|
    && |c.text| <= target
    && c.text == full[start..end]
    && c.heading == seg.title && c.subIndex == 0
    && IsPageOf(spans, start, c.pageStart) && IsPageOf(spans, end - 1, c.pageEnd) && c.pageStart <= c.pageEnd
  }

  lemma {:induction false} ChunkAtIsWindow(full: string, spans: seq<Span>, seg: Segment, target: nat, pos: nat,
                                           index: nat)
    requires target > 0 && seg.start + pos < seg.end <= |full|
    requires Tiles(spans, 0, |full|) && PagesAscend(spans)
    ensures IsWindowOf(ChunkAt(full, spans, seg, target, pos, index), full, spans, seg, target, seg.start + pos)
  {
    var absStart := seg.start + pos;
    var absEnd := Min(absStart + target, seg.end);
    PageForOffsetIsPageOf(spans, |full|, absStart, absEnd - 1);
    PageForOffsetIsPageOf(spans, |full|, absEnd - 1, absEnd - 1);
    StretchIsWindow(full, spans, seg, target, ChunkAt(full, spans, seg, target, pos, index), absStart, absEnd);
  }

  lemma StretchIsWindow(full: string, spans: seq<Span>, seg: Segment, target: nat, c: Chunk, start: nat, end: nat)
    requires seg.start <= start < end <= seg.end <= |full| && end - start <= target && c.text == full[start..end]
    requires c.heading == seg.title && c.subIndex == 0 && c.pageStart <= c.pageEnd
    requires IsPageOf(spans, start, c.pageStart) && IsPageOf(spans, end - 1, c.pageEnd)
    ensures IsWindowOf(c, full, spans, seg, target, start)
  {
  }

  lemma SegmentChunkIsWindow(full: string, spans: seq<Span>, seg: Segment, target: nat, starts: seq<nat>, index: nat,
                             k: nat)
    requires target > 0 && seg.end <= |full| && k < |starts|
    requires forall k | 0 <= k < |starts| :: seg.start + starts[k] < seg.end
    requires Tiles(spans, 0, |full|) && PagesAscend(spans)
    ensures var c := SegmentChunks(full, spans, seg, target, starts, index)[k];
            c.index == index + k && IsWindowOf(c, full, spans, seg, target, seg.start + starts[k])
  {
    SegmentChunkAt(full, spans, seg, target, starts, index, k);
    ChunkAtIsWindow(full, spans, seg, target, starts[k], index + k);
  }

  /** Chunk `n` of the list is a window of one of the segments and is numbered `n`. */
  lemma {:induction false} AllChunksAreWindows(full: string, spans: seq<Span>, segs: seq<Segment>, target: nat,
                                               step: nat, n: nat)
    returns (i: nat, start: nat)
    requires target > 0 && step > 0 && SegmentsFit(segs, |full|)
    requires Tiles(spans, 0, |full|) && PagesAscend(spans)
    requires n < |AllChunks(full, spans, segs, target, step)|
    ensures i < |segs|
    ensures var c := AllChunks(full, spans, segs, target, step)[n];
            c.index == n && IsWindowOf(c, full, spans, segs[i], target, start)
  {
    var before := AllChunks(full, spans, segs[..|segs| - 1], target, step);
    if n < |before| {
      i, start := AllChunksAreWindows(full, spans, segs[..|segs| - 1], target, step, n);
    } else {
      i := |segs| - 1;
      var starts := StartsIn(segs[i], target, step);
      start := segs[i].start + starts[n - |before|];
      SegmentChunkIsWindow(full, spans, segs[i], target, starts, |before|, n - |before|);
    }
  }

  lemma PassageInSegment(full: string, spans: seq<Span>, seg: Segment, target: nat, step: nat, index: nat, p: nat,
                         q: nat)
    returns (k: nat, at: nat)
    requires 0 < step <= target && seg.start <= p < seg.end <= |full|
    requires p <= q <= seg.end && q - p <= target - step + 1
    ensures k < |StartsIn(seg, target, step)|
    ensures var text := ChunkAt(full, spans, seg, target, StartsIn(seg, target, step)[k], index).text;
            at + (q - p) <= |text| && text[at..at + (q - p)] == full[p..q]
  {
    k := WindowHoldsPassage(seg.end - seg.start, target, step, 0, p - seg.start, q - seg.start);
    var absStart := seg.start + StartsIn(seg, target, step)[k];
    at := p - absStart;
    SliceOfSlice(full, absStart, Min(absStart + target, seg.end), p, q);
  }

  /** A passage of a segment no longer than the overlap plus one is whole in some chunk. */
  lemma {:induction false} PassageInChunk(full: string, spans: seq<Span>, segs: seq<Segment>, target: nat, step: nat,
                                          i: nat, p: nat, q: nat)
    returns (n: nat, at: nat)
    requires 0 < step <= target && SegmentsFit(segs, |full|)
    requires i < |segs| && segs[i].start <= p < segs[i].end && p <= q <= segs[i].end && q - p <= target - step + 1
    ensures var chunks := AllChunks(full, spans, segs, target, step);
            n < |chunks| && at + (q - p) <= |chunks[n].text| && chunks[n].text[at..at + (q - p)] == full[p..q]
  {
    var before := AllChunks(full, spans, segs[..|segs| - 1], target, step);
    if i < |segs| - 1 {
      n, at := PassageInChunk(full, spans, segs[..|segs| - 1], target, step, i, p, q);
    } else {
      var k;
      var starts := StartsIn(segs[i], target, step);
      k, at := PassageInSegment(full, spans, segs[i], target, step, 0, p, q);
      n := |before| + k;
      var last := SegmentChunks(full, spans, segs[i], target, starts, |before|);
      assert AllChunks(full, spans, segs, target, step) == before + last;
      SegmentChunkAt(full, spans, segs[i], target, starts, |before|, k);
    }
  }

  /** Every document chunk is a window of a segment ... */
  lemma DocumentChunksAreWindows(pages: PageMap, headings: seq<Heading>, target: nat, overlap: nat, n: nat)
    returns (i: nat, start: nat)
    requires AreHeadings(headings, |FullText(pages)|) && target > 0
    requires n < |DocumentChunks(pages, headings, target, overlap)|
    ensures i < |Segments(headings, |FullText(pages)|)|
    ensures var c := DocumentChunks(pages, headings, target, overlap)[n];
            c.index == n && IsWindowOf(c, FullText(pages), Spans(pages), Segments(headings, |FullText(pages)|)[i],
                target, start)
  {
    SegmentsPartition(headings, |FullText(pages)|);
    SpansTile(pages);
    i, start := AllChunksAreWindows(FullText(pages), Spans(pages), Segments(headings, |FullText(pages)|), target,
        Step(target, overlap), n);
  }

  lemma EmptyTextHasEmptySegments(headings: seq<Heading>, i: nat)
    requires AreHeadings(headings, 0) && i < |Segments(headings, 0)|
    ensures Segments(headings, 0)[i].end == 0
  {
    assert headings == [];
  }

  /** ... and every short passage of a segment is whole in one. */
  lemma DocumentPassageInChunk(pages: PageMap, headings: seq<Heading>, target: nat, overlap: nat, i: nat, p: nat,
                               q: nat)
    returns (n: nat, at: nat)
    requires AreHeadings(headings, |FullText(pages)|) && overlap < target && p < q
    requires i < |Segments(headings, |FullText(pages)|)|
    requires var seg := Segments(headings, |FullText(pages)|)[i]; seg.start <= p && q <= seg.end && q - p <= overlap + 1
    ensures q <= |FullText(pages)|
    ensures var chunks := DocumentChunks(pages, headings, target, overlap);
            && n < |chunks| && at + (q - p) <= |chunks[n].text|
            && chunks[n].text[at..at + (q - p)] == FullText(pages)[p..q]
  {
    var full := FullText(pages);
    if full == [] {
      EmptyTextHasEmptySegments(headings, i);
    } else {
      SegmentsPartition(headings, |full|);
    }
    n, at := PassageInChunk(full, Spans(pages), Segments(headings, |full|), target, Step(target, overlap), i, p, q);
  }

  method MarkPages(pages: seq<Page>) returns (full: string, spans: seq<Span>)
    ensures full == FullText(pages) && spans == Spans(pages)
  {
    full, spans := "", [];
    for k := 0 to |pages|
      invariant full == FullText(pages[..k]) && spans == Spans(pages[..k])
    {
      assert pages[..k + 1][..k] == pages[..k];
      var start := |full|;
      full := full + Marked(pages[k]);
      spans := spans + [Span(pages[k].number, start, |full|)];
    }
    assert pages[..|pages|] == pages;
  }

  method SplitSegments(headings: seq<Heading>, length: nat) returns (segs: seq<Segment>)
    ensures segs == Segments(headings, length)
  {
    var bounds := Boundaries(headings);
    segs := [];
    for i := 0 to |bounds|
      invariant segs == Segments(headings, length)[..i]
    {
      var end := if i + 1 < |bounds| then bounds[i + 1].offset else length;
      segs := segs + [Segment(bounds[i].title, bounds[i].offset, end)];
    }
  }

  /** One window of a segment. */
  method CutPiece(full: string, spans: seq<Span>, seg: Segment, segText: string, target: nat, pos: nat, index: nat)
    returns (chunk: Chunk, absEnd: nat)
    requires seg.start <= seg.end <= |full| && segText == full[seg.start..seg.end] && pos < |segText|
    ensures chunk == ChunkAt(full, spans, seg, target, pos, index)
    ensures absEnd >= seg.end <==> pos + target >= |segText|
  {
    var piece := segText[pos..Min(pos + target, |segText|)];
    var absStart := seg.start + pos;
    absEnd := absStart + |piece|;
    SliceOfSlice(full, seg.start, seg.end, absStart, absEnd);
    chunk := Chunk(index, seg.title, PageForOffset(spans, absStart), PageForOffset(spans, Max(absStart, absEnd - 1)),
        piece, 0);
  }

  /** After `n` windows the loop stands at `pos`. */
  ghost predicate StandsAt(starts: seq<nat>, n: nat, length: nat, target: nat, step: nat, pos: nat)
    requires step > 0
  {
    n <= |starts| && starts[n..] == WindowStarts(length, target, step, pos)
  }

  lemma NextStart(starts: seq<nat>, n: nat, length: nat, target: nat, step: nat, pos: nat)
    requires step > 0 && StandsAt(starts, n, length, target, step, pos) && pos < length
    ensures n < |starts| && starts[n] == pos
    ensures if pos + target >= length then n + 1 == |starts|
              else StandsAt(starts, n + 1, length, target, step, pos + step)
  {
    assert starts[n..][0] == pos;
    DropOne(starts, n);
  }

  lemma SegmentChunkAt(full: string, spans: seq<Span>, seg: Segment, target: nat, starts: seq<nat>, index: nat, k: nat)
    requires seg.end <= |full| && k < |starts| && forall k | 0 <= k < |starts| :: seg.start + starts[k] <= seg.end
    ensures SegmentChunks(full, spans, seg, target, starts, index)[k] ==
              ChunkAt(full, spans, seg, target, starts[k], index + k)
  {
  }

  /** The window loop over one segment. */
  method CutSegment(full: string, spans: seq<Span>, seg: Segment, target: nat, step: nat, index: nat)
    returns (chunks: seq<Chunk>)
    requires step > 0 && seg.start <= seg.end <= |full|
    ensures chunks == SegmentChunks(full, spans, seg, target, StartsIn(seg, target, step), index)
  {
    var segText := full[seg.start..seg.end];
    var pos := 0;
    chunks := [];
    ghost var starts := StartsIn(seg, target, step);
    ghost var want := SegmentChunks(full, spans, seg, target, starts, index);
    ghost var n := 0;
    while pos < |segText|
      invariant n == |chunks| && StandsAt(starts, n, |segText|, target, step, pos)
      invariant chunks == want[..n]
      decreases |segText| - pos
    {
      NextStart(starts, n, |segText|, target, step, pos);
      var chunk, absEnd := CutPiece(full, spans, seg, segText, target, pos, index + |chunks|);
      SegmentChunkAt(full, spans, seg, target, starts, index, n);
      assert want[..n + 1] == want[..n] + [chunk];
      chunks, n := chunks + [chunk], n + 1;
      if absEnd >= seg.end {
        break;
      }
      pos := pos + step;
    }
    assert n == |starts| && want[..n] == want;
  }

  method BuildChunks(pages: PageMap, headings: seq<Heading>, target: nat, overlap: nat, maxChunks: nat)
    returns (r: ChunkResult)
    requires AreHeadings(headings, |FullText(pages)|)
    ensures !HasText(pages) ==> r == Chunks([])
    ensures HasText(pages) ==>
              var all := DocumentChunks(pages, headings, target, overlap);
              r == if |all| > maxChunks then ChunkCapExceeded else Chunks(all)
  {
    if !HasText(pages) { return Chunks([]); }
    var full, spans := MarkPages(pages);
    assert full != [];
    SegmentsPartition(headings, |full|);
    var segs := SplitSegments(headings, |full|);
    var step := Step(target, overlap);
    var chunks: seq<Chunk> := [];
    for i := 0 to |segs|
      invariant chunks == AllChunks(full, spans, segs[..i], target, step)
    {
      assert segs[..i + 1][..i] == segs[..i];
      var pieces := CutSegment(full, spans, segs[i], target, step, |chunks|);
      chunks := chunks + pieces;
    }
    assert segs[..|segs|] == segs;
    if |chunks| > maxChunks { return ChunkCapExceeded; }
    return Chunks(chunks);
  }

  // --------------------------------------------------------- halving

  function Halve(c: Chunk): (Chunk, Chunk) {
    var mid := |c.text| / 2;
    var overlap := Min(OVERLAP_CHARS / 2, mid);
    var midPage := c.pageStart + (c.pageEnd - c.pageStart) / 2;
    (c.(pageEnd := Max(c.pageStart, midPage), text := c.text[..mid + overlap], subIndex := c.subIndex + 1),
     c.(pageStart := Max(c.pageStart, midPage), text := c.text[Max(0, mid - overlap)..], subIndex := c.subIndex + 1))
  }

  /** The text of `c` reads `t` from `at` on. */
  ghost predicate Reads(c: Chunk, at: nat, t: string) {
    at + |t| <= |c.text| && c.text[at..at + |t|] == t
  }

  ghost predicate Holds(c: Chunk, t: string) { exists at: nat :: Reads(c, at, t) }

  /** Either half of a chunk lies within it, and together they hold every passage of up to
      `OVERLAP_CHARS + 1` characters whole. */
  lemma HalvesHoldPassage(c: Chunk, t: string)
    requires Holds(c, t) && |t| <= OVERLAP_CHARS + 1
    ensures Holds(Halve(c).0, t) || Holds(Halve(c).1, t)
  {
    var at: nat :| Reads(c, at, t);
    var (first, second) := Halve(c);
    if at + |t| <= |first.text| {
      assert Reads(first, at, t);
    } else {
      var skipped := |c.text| - |second.text|;
      assert second.text[at - skipped..at - skipped + |t|] == c.text[at..at + |t|];
      assert Reads(second, at - skipped, t);
    }
  }

  /** One character more is too much: the middle of a full window is in neither half. */
  lemma HalvesMayCutLongerPassage(c: Chunk, at: nat)
    requires |c.text| == TARGET_CHARS && at == TARGET_CHARS / 2 - OVERLAP_CHARS / 2 - 1
    ensures at + OVERLAP_CHARS + 2 <= |c.text|
    ensures |Halve(c).0.text| < at + OVERLAP_CHARS + 2 && at < |c.text| - |Halve(c).1.text|
  {
  }

  /** The halves keep the chunk's number, heading and outer pages, and meet at its middle page. */
  lemma HalvesPages(c: Chunk)
    ensures var (first, second) := Halve(c);
            && first.index == second.index == c.index && first.heading == second.heading == c.heading
            && first.subIndex == second.subIndex == c.subIndex + 1
            && first.pageStart == c.pageStart && second.pageEnd == c.pageEnd
            && (c.pageStart <= c.pageEnd ==>
                  first.pageEnd == second.pageStart
                  && 0 <= (c.pageEnd - first.pageEnd) - (first.pageEnd - c.pageStart) <= 1)
  {
  }

  ghost predicate SubSpan(sub: Chunk, c: Chunk) {
    c.pageStart <= sub.pageStart && Max(sub.pageStart, sub.pageEnd) <= Max(c.pageStart, c.pageEnd)
  }

  /** The halves tile the chunk with one overlap, inside its page range. */
  lemma HalvesTile(c: Chunk)
    ensures var (first, second) := Halve(c);
            var shared := |first.text| + |second.text| - |c.text|;
            && shared == 2 * Min(OVERLAP_CHARS / 2, |c.text| / 2)
            && first.text == c.text[..|first.text|] && second.text == c.text[|first.text| - shared..]
  {
  }

  lemma HalvesSubSpan(c: Chunk)
    ensures SubSpan(Halve(c).0, c) && SubSpan(Halve(c).1, c)
  {
  }
}
