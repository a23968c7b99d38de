/** `fuzzy_contains`: anchored window search with a cut-off distance, and why the anchors and
    the cutoff are sound. */
module FuzzyMatch {
  import opened Basics
  import opened EditDistance

  /** A fraction: the model's reading of `max_ratio`. */
  datatype Fraction = Fraction(num: nat, den: nat)

  type Ratio = f: Fraction | f.den > 0 witness Fraction(1, 10)

  /** `MAX_RATIO`, the ten per cent budget of the audit. */
  const MAX_RATIO: Ratio := Fraction(1, 10)

  /** A block reported by the sequence matcher: `a` and `b` are offsets in excerpt and page. */
  datatype Block = Block(a: nat, b: nat, size: nat)

  /** `SequenceMatcher.get_matching_blocks`: any function at all of the two texts. */
  type Matcher = (string, string) -> seq<Block>

  const BLOCKS_TRIED := 8
  const OFFSET := 4

  function MinAnchor(length: nat): nat { Max(2, Min(6, length / 2)) }

  function Cutoff(length: nat, ratio: Ratio): nat { Max(1, length * ratio.num / ratio.den) }

  /** `dist / max(1, length) <= ratio`. */
  predicate Within(dist: int, length: nat, ratio: Ratio) {
    dist * ratio.den <= ratio.num * Max(1, length)
  }

  /** The page window compared with an excerpt of length `n`, cut short at the end of the page. */
  function Window(page: string, start: nat, n: nat): string
    requires start <= |page|
  {
    page[start..Min(start + n, |page|)]
  }

  predicate OccursAt(page: string, excerpt: string, i: int) {
    0 <= i <= |page| - |excerpt| && page[i..i + |excerpt|] == excerpt
  }

  predicate Contains(page: string, excerpt: string) {
    exists i | 0 <= i <= |page| - |excerpt| :: OccursAt(page, excerpt, i)
  }

  /** The window at `start` is within the budget, by the uncut distance. */
  predicate CloseAt(excerpt: string, page: string, start: int, ratio: Ratio) {
    0 <= start < |page| && Within(Distance(excerpt, Window(page, start, |excerpt|)), |excerpt|, ratio)
  }

  /** What a reader of the matrix is promised about a quotation. */
  ghost predicate QuotedOn(excerpt: string, page: string, ratio: Ratio) {
    Contains(page, excerpt) || exists start :: CloseAt(excerpt, page, start, ratio)
  }

  // -------------------------------------------------------- the search

  /** Stable sort, largest block first. */
  function InsertBlock(b: Block, blocks: seq<Block>): seq<Block> {
    if blocks == [] || b.size >= blocks[0].size then [b] + blocks
    else [blocks[0]] + InsertBlock(b, blocks[1..])
  }

  function LargestFirst(blocks: seq<Block>): seq<Block> {
    if blocks == [] then [] else InsertBlock(blocks[0], LargestFirst(blocks[1..]))
  }

  ghost predicate Descending(blocks: seq<Block>) {
    forall i, j | 0 <= i < j < |blocks| :: blocks[i].size >= blocks[j].size
  }

  lemma {:induction false} InsertBlockKeeps(b: Block, blocks: seq<Block>)
    ensures multiset(InsertBlock(b, blocks)) == multiset(blocks) + multiset{b}
  {
    if blocks != [] && b.size < blocks[0].size {
      InsertBlockKeeps(b, blocks[1..]);
      assert blocks == [blocks[0]] + blocks[1..];
    }
  }

  lemma {:induction false} InsertBlockSorts(b: Block, blocks: seq<Block>)
    requires Descending(blocks)
    ensures Descending(InsertBlock(b, blocks))
    ensures InsertBlock(b, blocks)[0].size <= if blocks == [] then b.size else Max(b.size, blocks[0].size)
  {
    if blocks != [] && b.size < blocks[0].size {
      InsertBlockSorts(b, blocks[1..]);
    }
  }

  lemma {:induction false} LargestFirstSorts(blocks: seq<Block>)
    ensures Descending(LargestFirst(blocks))
    ensures multiset(LargestFirst(blocks)) == multiset(blocks)
  {
    if blocks != [] {
      LargestFirstSorts(blocks[1..]);
      InsertBlockSorts(blocks[0], LargestFirst(blocks[1..]));
      InsertBlockKeeps(blocks[0], LargestFirst(blocks[1..]));
      assert blocks == [blocks[0]] + blocks[1..];
    }
  }

  /** How many blocks are larger than `size`, or as large and among the first `n`. */
  function CountAhead(blocks: seq<Block>, size: nat, n: nat): nat {
    if blocks == [] then 0
    else
      (if blocks[0].size > size || (blocks[0].size == size && n > 0) then 1 else 0)
      + CountAhead(blocks[1..], size, if n > 0 then n - 1 else 0)
  }

  /** The rank of block `k`: how many blocks are larger, or as large and listed earlier. */
  function Rank(blocks: seq<Block>, k: nat): nat
    requires k < |blocks|
  {
    CountAhead(blocks, blocks[k].size, k)
  }

  lemma {:induction false} CountAheadInserted(b: Block, blocks: seq<Block>, size: nat)
    ensures CountAhead(InsertBlock(b, blocks), size, 0) ==
            CountAhead(blocks, size, 0) + if b.size > size then 1 else 0
  {
    if blocks != [] && b.size < blocks[0].size {
      CountAheadInserted(b, blocks[1..], size);
    }
  }

  lemma {:induction false} CountAheadSorted(blocks: seq<Block>, size: nat)
    ensures CountAhead(LargestFirst(blocks), size, 0) == CountAhead(blocks, size, 0)
  {
    if blocks != [] {
      CountAheadSorted(blocks[1..], size);
      CountAheadInserted(blocks[0], LargestFirst(blocks[1..]), size);
    }
  }

  /** A block goes behind the larger ones, and all from there on move up by one. */
  lemma {:induction false} InsertBlockPlaces(b: Block, blocks: seq<Block>)
    requires Descending(blocks)
    ensures var r, p := InsertBlock(b, blocks), CountAhead(blocks, b.size, 0);
            && |r| == |blocks| + 1 && p <= |blocks| && r[p] == b
            && (forall i | 0 <= i < p :: blocks[i].size > b.size && r[i] == blocks[i])
            && (forall i | p <= i < |blocks| :: blocks[i].size <= b.size && r[i + 1] == blocks[i])
  {
    if blocks != [] {
      InsertBlockPlaces(b, blocks[1..]);
      if b.size >= blocks[0].size {
        NoneAhead(blocks, b.size);
      }
    }
  }

  lemma {:induction false} NoneAhead(blocks: seq<Block>, size: nat)
    requires forall i | 0 <= i < |blocks| :: blocks[i].size <= size
    ensures CountAhead(blocks, size, 0) == 0
  {
    if blocks != [] {
      NoneAhead(blocks[1..], size);
    }
  }

  /** Sorting puts every block at its rank. */
  lemma {:induction false} BlockAtItsRank(blocks: seq<Block>, k: nat)
    requires k < |blocks|
    ensures Rank(blocks, k) < |LargestFirst(blocks)| == |blocks|
    ensures LargestFirst(blocks)[Rank(blocks, k)] == blocks[k]
  {
    var b, rest := blocks[0], blocks[1..];
    LargestFirstSorts(rest);
    InsertBlockPlaces(b, LargestFirst(rest));
    CountAheadSorted(rest, b.size);
    SortKeepsLength(rest);
    if k > 0 {
      BlockAtItsRank(rest, k - 1);
    }
  }

  lemma SortKeepsLength(blocks: seq<Block>)
    ensures |LargestFirst(blocks)| == |blocks|
  {
    LargestFirstSorts(blocks);
    assert |multiset(LargestFirst(blocks))| == |multiset(blocks)|;
  }

  ghost predicate HasRank(blocks: seq<Block>, k: nat, i: nat) { k < |blocks| && Rank(blocks, k) == i }

  /** Every rank is some block's. */
  lemma {:induction false} BlockOfRank(blocks: seq<Block>, i: nat) returns (k: nat)
    requires i < |blocks|
    ensures HasRank(blocks, k, i)
  {
    var b, rest := blocks[0], blocks[1..];
    LargestFirstSorts(rest);
    InsertBlockPlaces(b, LargestFirst(rest));
    CountAheadSorted(rest, b.size);
    SortKeepsLength(rest);
    var p := CountAhead(rest, b.size, 0);
    if i == p {
      k := 0;
    } else {
      var k' := BlockOfRank(rest, if i < p then i else i - 1);
      BlockAtItsRank(rest, k');
      k := k' + 1;
    }
  }

  /** The blocks tried are those of rank below eight: a block is among them exactly if fewer than eight
      others go before it, ... */
  lemma BlockIsTriedIff(excerpt: string, page: string, matcher: Matcher, k: nat)
    requires k < |matcher(excerpt, page)|
    ensures var blocks, anchors := matcher(excerpt, page), Anchors(excerpt, page, matcher);
            && |anchors| == Min(8, |blocks|)
            && (Rank(blocks, k) < |anchors| <==> Rank(blocks, k) < 8)
            && (Rank(blocks, k) < |anchors| ==> anchors[Rank(blocks, k)] == blocks[k])
  {
    SortKeepsLength(matcher(excerpt, page));
    BlockAtItsRank(matcher(excerpt, page), k);
  }

  /** ... and no other block is. */
  lemma TriedBlockHasRank(excerpt: string, page: string, matcher: Matcher, i: nat) returns (k: nat)
    requires i < |Anchors(excerpt, page, matcher)|
    ensures var blocks, anchors := matcher(excerpt, page), Anchors(excerpt, page, matcher);
            HasRank(blocks, k, i) && i < 8 && anchors[i] == blocks[k]
  {
    var blocks := matcher(excerpt, page);
    SortKeepsLength(blocks);
    k := BlockOfRank(blocks, i);
    BlockAtItsRank(blocks, k);
  }

  /** No block that is left out is larger than one that is tried. */
  lemma LowerRankIsLarger(blocks: seq<Block>, j: nat, k: nat)
    requires j < |blocks| && k < |blocks| && Rank(blocks, j) <= Rank(blocks, k)
    ensures blocks[j].size >= blocks[k].size
  {
    LargestFirstSorts(blocks);
    BlockAtItsRank(blocks, j);
    BlockAtItsRank(blocks, k);
    assert Descending(LargestFirst(blocks));
  }

  function Anchors(excerpt: string, page: string, matcher: Matcher): seq<Block> {
    var blocks := LargestFirst(matcher(excerpt, page));
    blocks[..Min(BLOCKS_TRIED, |blocks|)]
  }

  predicate AnchorsStart(anchor: Block, start: int, minAnchor: nat) {
    anchor.size >= minAnchor && -OFFSET <= start - (anchor.b - anchor.a) <= OFFSET
  }

  /** The start positions the search tries. */
  ghost predicate IsTried(start: int, excerpt: string, page: string, anchors: seq<Block>) {
    0 <= start < |page| && exists k | 0 <= k < |anchors| :: AnchorsStart(anchors[k], start, MinAnchor(|excerpt|))
  }

  ghost predicate FuzzyAccepts(excerpt: string, page: string, ratio: Ratio, matcher: Matcher) {
    excerpt != [] && page != [] &&
    (Contains(page, excerpt)
     || exists start :: IsTried(start, excerpt, page, Anchors(excerpt, page, matcher))
         && CloseAt(excerpt, page, start, ratio))
  }

  datatype Reason = EmptyExcerpt | NoPageText | Substring | FuzzyRatio(dist: int) | BestRatio(dist: int) | NoAnchor

  lemma DivisionBound(x: nat, den: nat, d: int)
    requires den > 0 && d > x / den
    ensures d * den > x
  {
    var q := x / den;
    assert x < q * den + den;
    assert d * den - (q + 1) * den == (d - (q + 1)) * den;
  }

  /** The fast path gives the verdict of the uncut distance, window by window. */
  lemma CutoffTransparent(r: int, excerpt: string, window: string, ratio: Ratio)
    requires excerpt != []
    requires Bounds(r, excerpt, window, Some(Cutoff(|excerpt|, ratio)))
    ensures Within(r, |excerpt|, ratio) <==> Within(Distance(excerpt, window), |excerpt|, ratio)
    ensures Within(r, |excerpt|, ratio) ==> r == Distance(excerpt, window)
  {
    CutoffArithmetic(r, Distance(excerpt, window), |excerpt|, ratio);
  }

  lemma CutoffArithmetic(r: int, d: int, n: nat, ratio: Ratio)
    requires n > 0
    requires r == d || (r > Cutoff(n, ratio) && d > Cutoff(n, ratio))
    ensures Within(r, n, ratio) <==> Within(d, n, ratio)
    ensures Within(r, n, ratio) ==> r == d
  {
    if r != d {
      assert n * ratio.num == ratio.num * n;
      DivisionBound(n * ratio.num, ratio.den, r);
      DivisionBound(n * ratio.num, ratio.den, d);
    }
  }

  lemma HasMember(s: set<int>)
    ensures s == {} || exists x :: x in s
  {
    if forall x :: x !in s {
      assert s == {};
    }
  }

  method FuzzyContains(excerpt: string, page: string, ratio: Ratio, matcher: Matcher)
    returns (passed: bool, reason: Reason)
    ensures passed <==> FuzzyAccepts(excerpt, page, ratio, matcher)
    ensures passed <==> reason.Substring? || reason.FuzzyRatio?
    ensures reason.EmptyExcerpt? <==> excerpt == []
    ensures reason.NoPageText? <==> excerpt != [] && page == []
    ensures reason.Substring? <==> excerpt != [] && page != [] && Contains(page, excerpt)
    ensures reason.FuzzyRatio? ==> Within(reason.dist, |excerpt|, ratio) && exists start ::
              IsTried(start, excerpt, page, Anchors(excerpt, page, matcher))
              && reason.dist == Distance(excerpt, Window(page, start, |excerpt|))
    ensures reason.BestRatio? ==> forall start | IsTried(start, excerpt, page, Anchors(excerpt, page, matcher)) ::
              reason.dist <= Distance(excerpt, Window(page, start, |excerpt|))
    ensures reason.NoAnchor? ==> forall start :: !IsTried(start, excerpt, page, Anchors(excerpt, page, matcher))
  {
    if excerpt == [] { return false, EmptyExcerpt; }
    if page == [] { return false, NoPageText; }
    if Contains(page, excerpt) { return true, Substring; }
    var cutoff := Cutoff(|excerpt|, ratio);
    var anchors := Anchors(excerpt, page, matcher);
    var starts := StartsOf(excerpt, page, anchors);
    var pending := starts;
    var best: Option<int> := None;
    while pending != {}
      invariant pending <= starts
      invariant forall start | start in starts - pending :: !CloseAt(excerpt, page, start, ratio)
      invariant best.None? ==> pending == starts
      invariant best.Some? ==> forall start | start in starts - pending ::
          best.value <= Distance(excerpt, Window(page, start, |excerpt|))
      decreases pending
    {
      HasMember(pending);
      var start :| start in pending;
      var window := Window(page, start, |excerpt|);
      var dist := LevenshteinDistance(excerpt, window, Some(cutoff));
      CutoffTransparent(dist, excerpt, window, ratio);
      if Within(dist, |excerpt|, ratio) { return true, FuzzyRatio(dist); }
      if best.None? || dist < best.value { best := Some(dist); }
      pending := pending - {start};
    }
    if best.Some? { return false, BestRatio(best.value); }
    return false, NoAnchor;
  }

  /** The set of starts, collected block by block and offset by offset. */
  method StartsOf(excerpt: string, page: string, anchors: seq<Block>) returns (starts: set<int>)
    ensures forall start :: start in starts <==> IsTried(start, excerpt, page, anchors)
  {
    var minAnchor := MinAnchor(|excerpt|);
    starts := {};
    for k := 0 to |anchors|
      invariant forall start :: start in starts <==> IsTried(start, excerpt, page, anchors[..k])
    {
      assert forall start :: IsTried(start, excerpt, page, anchors[..k + 1]) <==>
          (IsTried(start, excerpt, page, anchors[..k])
              || (0 <= start < |page| && AnchorsStart(anchors[k], start, minAnchor))) by {
        assert anchors[..k + 1] == anchors[..k] + [anchors[k]];
      }
      if anchors[k].size >= minAnchor {
        var anchor := anchors[k].b - anchors[k].a;
        for offset := -OFFSET to OFFSET + 1
          invariant forall start ::
              start in starts <==>
              (IsTried(start, excerpt, page, anchors[..k])
                  || (0 <= start < |page| && -OFFSET <= start - anchor < offset))
        {
          var start := anchor + offset;
          if 0 <= start < |page| { starts := starts + {start}; }
        }
      }
    }
    assert anchors[..|anchors|] == anchors;
  }

  lemma AcceptedIsQuoted(excerpt: string, page: string, ratio: Ratio, matcher: Matcher)
    requires FuzzyAccepts(excerpt, page, ratio, matcher)
    ensures excerpt != [] && QuotedOn(excerpt, page, ratio)
  {
  }

  // ------------------------------------------------ the anchor pigeonhole

  ghost predicate AllKeep(script: Script) { forall k | 0 <= k < |script| :: script[k].Keep? }

  function Keeps(script: Script): nat {
    if script == [] then 0 else Keeps(script[..|script| - 1]) + if script[|script| - 1].Keep? then 1 else 0
  }

  /** Length of the run of kept characters that ends the script. */
  function Tail(script: Script): nat {
    if script == [] || !script[|script| - 1].Keep? then 0 else Tail(script[..|script| - 1]) + 1
  }

  lemma {:induction false} TailIsKept(script: Script)
    ensures Tail(script) <= |script| && AllKeep(script[|script| - Tail(script)..])
  {
    if Tail(script) > 0 {
      TailIsKept(script[..|script| - 1]);
    }
  }

  lemma LongTail(script: Script, m: nat)
    requires Tail(script) >= m
    ensures m <= |script| && AllKeep(script[|script| - m..|script|])
  {
    TailIsKept(script);
    var all := script[|script| - Tail(script)..];
    forall k | |script| - m <= k < |script| ensures script[k].Keep? {
      assert script[k] == all[k - (|script| - Tail(script))];
    }
  }

  lemma OneMoreTimes(x: int, y: int)
    ensures x * (y + 1) == x * y + x
  {
  }

  /** Either some run of `m` characters is kept, or there are few kept characters: every edit
      and the end of the script close a run of fewer than `m`. */
  lemma {:induction false} LongRunOrFewKeeps(script: Script, m: nat) returns (run: Option<nat>)
    requires m > 0
    ensures run.Some? ==> run.value + m <= |script| && AllKeep(script[run.value..run.value + m])
    ensures run.None? ==> Keeps(script) <= (m - 1) * Cost(script) + Tail(script) && Tail(script) < m
  {
    run := None;
    if script != [] {
      var rest := script[..|script| - 1];
      run := LongRunOrFewKeeps(rest, m);
      if run.Some? {
        assert script[run.value..run.value + m] == rest[run.value..run.value + m];
      } else if Tail(script) >= m {
        LongTail(script, m);
        run := Some(|script| - m);
      } else if !script[|script| - 1].Keep? {
        OneMoreTimes(m - 1, Cost(rest));
      }
    }
  }

  lemma {:induction false} SourceLength(script: Script)
    ensures |Source(script)| <= Keeps(script) + Cost(script)
    ensures -(Cost(script) as int) <= |Target(script)| - |Source(script)| <= Cost(script)
  {
    if script != [] {
      SourceLength(script[..|script| - 1]);
    }
  }

  lemma LastOfConcat(s: Script, t: Script)
    requires t != []
    ensures (s + t)[..|s + t| - 1] == s + t[..|t| - 1] && (s + t)[|s + t| - 1] == t[|t| - 1]
  {
  }

  lemma {:induction false} ScriptConcat(s: Script, t: Script)
    ensures Source(s + t) == Source(s) + Source(t)
    ensures Target(s + t) == Target(s) + Target(t)
    ensures Cost(s + t) == Cost(s) + Cost(t)
  {
    if t == [] {
      assert s + t == s;
    } else {
      var e := t[|t| - 1];
      ScriptConcat(s, t[..|t| - 1]);
      LastOfConcat(s, t);
      AppendAssociates(Source(s), Source(t[..|t| - 1]), if e.Insert? then [] else [e.c]);
      AppendAssociates(Target(s), Target(t[..|t| - 1]), if e.Delete? then [] else if e.Keep? then [e.c] else [e.d]);
    }
  }

  lemma {:induction false} KeptText(script: Script)
    requires AllKeep(script)
    ensures Source(script) == Target(script) && |Source(script)| == |script| && Cost(script) == 0
  {
    if script != [] {
      KeptText(script[..|script| - 1]);
    }
  }

  /** A genuine common block of the two texts. */
  ghost predicate IsCommonBlock(b: Block, excerpt: string, page: string) {
    b.a + b.size <= |excerpt| && b.b + b.size <= |page| && excerpt[b.a..b.a + b.size] == page[b.b..b.b + b.size]
  }

  lemma SliceInMiddle<T>(x: seq<T>, y: seq<T>, z: seq<T>)
    ensures (x + y + z)[|x|..|x| + |y|] == y
  {
  }

  /** A run of `m` kept columns is a common block, displaced by at most the cost of the script. */
  lemma RunIsBlock(script: Script, p: nat, m: nat) returns (block: Block)
    requires p + m <= |script| && AllKeep(script[p..p + m])
    ensures IsCommonBlock(block, Source(script), Target(script)) && block.size == m
    ensures -(Cost(script) as int) <= block.b - block.a <= Cost(script)
  {
    var x, y, z := script[..p], script[p..p + m], script[p + m..];
    assert script == x + y + z;
    ScriptConcat(x + y, z);
    ScriptConcat(x, y);
    KeptText(y);
    SourceLength(x);
    block := Block(|Source(x)|, |Target(x)|, m);
    SliceInMiddle(Source(x), Source(y), Source(z));
    SliceInMiddle(Target(x), Target(y), Target(z));
  }

  /** With at most `d` edits, ten times fewer than the excerpt has characters, more characters
      are kept than runs shorter than the least anchor could hold. */
  lemma AnchorArithmetic(n: nat, d: nat)
    requires 10 * d <= n && n >= 2
    ensures n - d > (MinAnchor(n) - 1) * d + MinAnchor(n) - 1
  {
    if d == 0 {
      assert MinAnchor(n) <= n;
    } else if n < 12 {
      assert d == 1 && MinAnchor(n) == 5;
    } else {
      assert MinAnchor(n) == 6;
    }
  }

  lemma ShortWindowIsExact(excerpt: string, page: string, start: nat)
    requires |excerpt| == 1 && CloseAt(excerpt, page, start, MAX_RATIO)
    ensures Contains(page, excerpt)
  {
    DistanceZero(excerpt, Window(page, start, |excerpt|));
    assert OccursAt(page, excerpt, start);
  }

  lemma BlockOfWindow(inWindow: Block, excerpt: string, page: string, start: nat)
    requires start <= |page| && IsCommonBlock(inWindow, excerpt, Window(page, start, |excerpt|))
    ensures IsCommonBlock(Block(inWindow.a, start + inWindow.b, inWindow.size), excerpt, page)
  {
    var window, m := Window(page, start, |excerpt|), inWindow.size;
    assert page[start + inWindow.b..start + inWindow.b + m] == window[inWindow.b..inWindow.b + m];
  }

  /** The claim behind anchored alignment: a window within ten per cent of an excerpt that is not
      itself on the page shares with it a block of at least `min_anchor` characters, on a diagonal
      no further from the window's start than the number of edits. */
  lemma CloseWindowHasAnchor(excerpt: string, page: string, start: nat) returns (block: Block)
    requires excerpt != [] && !Contains(page, excerpt) && CloseAt(excerpt, page, start, MAX_RATIO)
    ensures IsCommonBlock(block, excerpt, page) && block.size == MinAnchor(|excerpt|)
    ensures var d := Distance(excerpt, Window(page, start, |excerpt|));
            start - d <= block.b - block.a <= start + d
  {
    var window := Window(page, start, |excerpt|);
    var m := MinAnchor(|excerpt|);
    var d := Distance(excerpt, window);
    if |excerpt| < 2 {
      ShortWindowIsExact(excerpt, page, start);
    }
    var script := CheapestScript(excerpt, window);
    var run := LongRunOrFewKeeps(script, m);
    assert run.Some? by {
      SourceLength(script);
      AnchorArithmetic(|excerpt|, d);
    }
    var inWindow := RunIsBlock(script, run.value, m);
    BlockOfWindow(inWindow, excerpt, page, start);
    block := Block(inWindow.a, start + inWindow.b, m);
  }

  /** Block `k` of the matcher's list puts a window of the page at `start` to the test, and the window
      is within a tenth of the excerpt's length in edits. */
  ghost predicate IsFoundBy(blocks: seq<Block>, k: nat, start: int, excerpt: string, page: string) {
    && k < |blocks| && Rank(blocks, k) < 8 && blocks[k].size >= Max(2, Min(6, |excerpt| / 2))
    && -4 <= start - (blocks[k].b - blocks[k].a) <= 4
    && 0 <= start < |page| && 10 * Distance(excerpt, page[start..Min(start + |excerpt|, |page|)]) <= |excerpt|
  }

  ghost predicate StandsOn(excerpt: string, page: string) { exists before, after :: page == before + excerpt + after }

  lemma ContainsIsStandsOn(excerpt: string, page: string)
    ensures Contains(page, excerpt) <==> StandsOn(excerpt, page)
  {
    if i :| 0 <= i <= |page| - |excerpt| && OccursAt(page, excerpt, i) {
      assert page == page[..i] + excerpt + page[i + |excerpt|..];
    }
    if before, after :| page == before + excerpt + after {
      assert OccursAt(page, excerpt, |before|);
    }
  }

  /** The search by itself, on the matcher's own list: an excerpt is accepted exactly if it stands on
      the page or one of the eight largest blocks, if large enough, leads within four characters of
      a close window. */
  lemma AcceptsIff(excerpt: string, page: string, matcher: Matcher)
    ensures FuzzyAccepts(excerpt, page, MAX_RATIO, matcher) <==>
            && excerpt != [] && page != []
            && (StandsOn(excerpt, page)
                || exists k: nat, start :: IsFoundBy(matcher(excerpt, page), k, start, excerpt, page))
  {
    var blocks, anchors := matcher(excerpt, page), Anchors(excerpt, page, matcher);
    ContainsIsStandsOn(excerpt, page);
    if excerpt != [] && FuzzyAccepts(excerpt, page, MAX_RATIO, matcher) && !Contains(page, excerpt) {
      var start :| IsTried(start, excerpt, page, anchors) && CloseAt(excerpt, page, start, MAX_RATIO);
      var k := BlockThatLeads(excerpt, page, matcher, start);
    }
    if k: nat, start :| excerpt != [] && IsFoundBy(blocks, k, start, excerpt, page) {
      FoundIsAccepted(excerpt, page, matcher, k, start);
    }
  }

  lemma BlockThatLeads(excerpt: string, page: string, matcher: Matcher, start: int) returns (k: nat)
    requires excerpt != [] && CloseAt(excerpt, page, start, MAX_RATIO)
    requires IsTried(start, excerpt, page, Anchors(excerpt, page, matcher))
    ensures IsFoundBy(matcher(excerpt, page), k, start, excerpt, page)
  {
    var blocks, anchors := matcher(excerpt, page), Anchors(excerpt, page, matcher);
    var i: nat :| i < |anchors| && AnchorsStart(anchors[i], start, MinAnchor(|excerpt|));
    k := TriedBlockHasRank(excerpt, page, matcher, i);
  }

  lemma FoundIsAccepted(excerpt: string, page: string, matcher: Matcher, k: nat, start: int)
    requires excerpt != [] && IsFoundBy(matcher(excerpt, page), k, start, excerpt, page)
    ensures FuzzyAccepts(excerpt, page, MAX_RATIO, matcher)
  {
    var blocks, anchors := matcher(excerpt, page), Anchors(excerpt, page, matcher);
    BlockIsTriedIff(excerpt, page, matcher, k);
    assert AnchorsStart(anchors[Rank(blocks, k)], start, MinAnchor(|excerpt|));
    assert CloseAt(excerpt, page, start, MAX_RATIO);
  }

  /** Among the eight largest, block `k` is on the diagonal of `block` and as large. */
  predicate IsAnchorFor(blocks: seq<Block>, k: nat, block: Block) {
    && k < |blocks| && Rank(blocks, k) < 8
    && blocks[k].size >= block.size && blocks[k].b - blocks[k].a == block.b - block.a
  }

  /** When the search is complete: a window that needs at most four edits shares a block with the
      excerpt, and if the matcher has a block as large on its diagonal, of rank below eight, the
      excerpt is accepted. */
  lemma AnchoredWindowIsFound(excerpt: string, page: string, start: nat, matcher: Matcher) returns (block: Block)
    requires excerpt != [] && start < |page| && !StandsOn(excerpt, page)
    requires var d := Distance(excerpt, page[start..Min(start + |excerpt|, |page|)]); d <= 4 && 10 * d <= |excerpt|
    ensures IsCommonBlock(block, excerpt, page) && block.size == Max(2, Min(6, |excerpt| / 2))
    ensures var blocks := matcher(excerpt, page);
            (exists k: nat :: IsAnchorFor(blocks, k, block)) ==> FuzzyAccepts(excerpt, page, MAX_RATIO, matcher)
  {
    ContainsIsStandsOn(excerpt, page);
    assert CloseAt(excerpt, page, start, MAX_RATIO);
    block := CloseWindowHasAnchor(excerpt, page, start);
    var blocks := matcher(excerpt, page);
    if k: nat :| IsAnchorFor(blocks, k, block) {
      assert IsFoundBy(blocks, k, start, excerpt, page);
      AcceptsIff(excerpt, page, matcher);
    }
  }
}
