/** Requirement mining: provider retries, the re-chunking recursion, and its bookkeeping. */
module Mining {
  import opened Basics
  import opened Text
  import opened Pages
  import opened Chunking

  const MAX_REQUIREMENTS_PER_CHUNK: nat := 25
  const MAX_RECHUNK_DEPTH: nat := 2
  const TRUNCATION_TOKEN_MARGIN := 100
  const PROVIDER_RETRIES: nat := 3
  const MALFORMED_TRIES: nat := 2

  datatype ChunkItem = ChunkItem(clauseId: string, section: string, page: int, text: string, excerpt: string,
      isRequirement: bool)

  /** The reply's payload after JSON decoding and schema validation. */
  datatype Payload = Malformed | Parsed(items: seq<ChunkItem>)

  datatype Response = Response(finishReason: string, tokensIn: int, tokensOut: int, payload: Payload)

  /** What one provider request comes back with. */
  datatype ProviderEvent = Reply(response: Response) | ClientError | RateLimited | Unavailable | OtherError

  datatype CallRecord =
      CallRecord(chunkIndex: nat, items: seq<ChunkItem>, tokensIn: int, tokensOut: int, finishReason: string)

  datatype MinedItem = MinedItem(clauseId: string, section: string, page: int, text: string, excerpt: string,
                                 isRequirement: bool, chunkIndex: int, docOrder: nat)

  // ------------------------------------------------ what a run should do

  /** The provider's future behaviour: event `n` answers request `n`. Arbitrary. */
  type Provider = nat -> ProviderEvent

  datatype Answer = Answered(response: Response) | Truncated | NeverParsed | Raised

  /** Up to `tries` requests; only rate limits and outages are retried. */
  function Call(provider: Provider, at: nat, tries: nat): (Option<Response>, nat)
    decreases tries
  {
    if tries == 0 then (None, at)
    else
      match provider(at)
      case Reply(response) => (Some(response), at + 1)
      case ClientError => (None, at + 1)
      case OtherError => (None, at + 1)
      case RateLimited => Call(provider, at + 1, tries - 1)
      case Unavailable => Call(provider, at + 1, tries - 1)
  }

  predicate IsTruncated(r: Response, maxTokens: int) {
    r.finishReason == "length" || r.tokensOut >= maxTokens - TRUNCATION_TOKEN_MARGIN
  }

  /** Up to `tries` calls, until one is truncated or parses. */
  function Ask(provider: Provider, at: nat, maxTokens: int, tries: nat): (Answer, nat)
    decreases tries
  {
    if tries == 0 then (NeverParsed, at)
    else
      var (reply, next) := Call(provider, at, PROVIDER_RETRIES);
      if reply.None? then (Raised, next)
      else if IsTruncated(reply.value, maxTokens) then (Truncated, next)
      else if reply.value.payload.Parsed? then (Answered(reply.value), next)
      else Ask(provider, next, maxTokens, tries - 1)
  }

  /** `s.count(word)`: non-overlapping occurrences from the left. */
  function CountOf(s: string, word: string): nat
    requires word != []
  {
    if |s| < |word| then 0
    else if s[..|word|] == word then 1 + CountOf(s[|word|..], word)
    else CountOf(s[1..], word)
  }

  function EstimateRequirements(text: string): nat {
    var lowered := Lower(text);
    Max(1, CountOf(lowered, "shall") + CountOf(lowered, "must") + CountOf(lowered, "required"))
  }

  predicate EstimatedTooLong(text: string, maxTokens: int) { EstimateRequirements(text) * 500 > maxTokens }

  /** A chunk that is not divided further, and what became of it. */
  datatype Leaf = Called(chunk: Chunk, response: Response) | LeafFailed(chunk: Chunk)

  datatype Mined = Mined(leaves: seq<Leaf>, next: nat, aborted: bool)

  /** The leaves of one chunk, left to right, up to the first exception. */
  function Process(provider: Provider, at: nat, chunk: Chunk, maxTokens: int, depth: nat): Mined
    decreases MAX_RECHUNK_DEPTH - depth, 0
  {
    if EstimatedTooLong(chunk.text, maxTokens) && depth < MAX_RECHUNK_DEPTH then
      ProcessHalves(provider, at, chunk, maxTokens, depth)
    else
      var (answer, next) := Ask(provider, at, maxTokens, MALFORMED_TRIES);
      match answer
      case Raised => Mined([], next, true)
      case NeverParsed => Mined([LeafFailed(chunk)], next, false)
      case Truncated =>
        if depth < MAX_RECHUNK_DEPTH then ProcessHalves(provider, next, chunk, maxTokens, depth)
        else Mined([LeafFailed(chunk)], next, false)
      case Answered(response) =>
        if response.payload.Parsed? && |response.payload.items| > MAX_REQUIREMENTS_PER_CHUNK
            && depth < MAX_RECHUNK_DEPTH
        then ProcessHalves(provider, next, chunk, maxTokens, depth)
        else Mined([Called(chunk, response)], next, false)
  }

  function ProcessHalves(provider: Provider, at: nat, chunk: Chunk, maxTokens: int, depth: nat): Mined
    requires depth < MAX_RECHUNK_DEPTH
    decreases MAX_RECHUNK_DEPTH - depth - 1, 1
  {
    var m := Process(provider, at, Halve(chunk).0, maxTokens, depth + 1);
    if m.aborted then m
    else
      var m' := Process(provider, m.next, Halve(chunk).1, maxTokens, depth + 1);
      Mined(m.leaves + m'.leaves, m'.next, m'.aborted)
  }

  function ProcessAll(provider: Provider, at: nat, chunks: seq<Chunk>, maxTokens: int): Mined {
    if chunks == [] then Mined([], at, false)
    else
      var m := ProcessAll(provider, at, chunks[..|chunks| - 1], maxTokens);
      if m.aborted then m
      else
        var m' := Process(provider, m.next, chunks[|chunks| - 1], maxTokens, 0);
        Mined(m.leaves + m'.leaves, m'.next, m'.aborted)
  }

  // ---------------------------------------------------- what is recorded

  /** The item's page if it is one of the chunk's pages, else the nearest of those. */
  function CitedPage(page: int, chunk: Chunk): int {
    var p := if page >= 1 then page else chunk.pageStart;
    var last := Max(chunk.pageEnd, chunk.pageStart);
    if p < chunk.pageStart || p > last then Min(Max(p, chunk.pageStart), last) else p
  }

  function Place(item: ChunkItem, chunk: Chunk, order: nat): MinedItem {
    MinedItem(item.clauseId, item.section, CitedPage(item.page, chunk), item.text, item.excerpt,
              item.isRequirement, chunk.index, order)
  }

  function LeafItems(leaf: Leaf): seq<ChunkItem> {
    if leaf.Called? && leaf.response.payload.Parsed? then leaf.response.payload.items else []
  }

  function PlaceAll(items: seq<ChunkItem>, chunk: Chunk, base: nat): seq<MinedItem> {
    if items == [] then []
    else PlaceAll(items[..|items| - 1], chunk, base) + [Place(items[|items| - 1], chunk, base + |items| - 1)]
  }

  lemma {:induction false} PlaceAllAt(items: seq<ChunkItem>, chunk: Chunk, base: nat)
    ensures |PlaceAll(items, chunk, base)| == |items|
    ensures forall k | 0 <= k < |items| :: PlaceAll(items, chunk, base)[k] == Place(items[k], chunk, base + k)
  {
    if items != [] {
      PlaceAllAt(items[..|items| - 1], chunk, base);
    }
  }

  function RecordOf(chunk: Chunk, r: Response): CallRecord {
    CallRecord(chunk.index, if r.payload.Parsed? then r.payload.items else [], r.tokensIn, r.tokensOut, r.finishReason)
  }

  /** What a mining run has recorded so far. */
  datatype Ledger = Ledger(items: seq<MinedItem>, calls: seq<CallRecord>, failed: nat)

  const EMPTY := Ledger([], [], 0)

  /** A leaf adds one call record and its items, or one failure. */
  function Entered(l: Ledger, leaf: Leaf): Ledger {
    match leaf
    case LeafFailed(_) => l.(failed := l.failed + 1)
    case Called(chunk, response) =>
      Ledger(l.items + PlaceAll(LeafItems(leaf), chunk, |l.items|), l.calls + [RecordOf(chunk, response)], l.failed)
  }

  function After(leaves: seq<Leaf>, l: Ledger): Ledger {
    if leaves == [] then l else Entered(After(leaves[..|leaves| - 1], l), leaves[|leaves| - 1])
  }

  lemma {:induction false} AfterConcat(xs: seq<Leaf>, ys: seq<Leaf>, l: Ledger)
    ensures After(xs + ys, l) == After(ys, After(xs, l))
  {
    if ys == [] {
      assert xs + ys == xs;
    } else {
      AfterConcat(xs, ys[..|ys| - 1], l);
      assert (xs + ys)[..|xs + ys| - 1] == xs + ys[..|ys| - 1];
    }
  }

  lemma AfterLeaf(leaf: Leaf, l: Ledger)
    ensures After([leaf], l) == Entered(l, leaf)
  {
    assert After([leaf][..0], l) == l;
  }

  // ------------------------------------------------------ the tree's size

  /** Sub-chunks still possible below a node at this depth. */
  function MaxLeaves(depth: nat): nat {
    if depth >= MAX_RECHUNK_DEPTH then 1 else if depth == 1 then 2 else 4
  }

  /** Six requests for each node of the full tree below: two tries of three requests. */
  function MaxRequests(depth: nat): nat {
    if depth >= MAX_RECHUNK_DEPTH then 6 else if depth == 1 then 18 else 42
  }

  lemma {:induction false} CallRequests(provider: Provider, at: nat, tries: nat)
    ensures at <= Call(provider, at, tries).1 <= at + tries
    decreases tries
  {
    if tries > 0 {
      CallRequests(provider, at + 1, tries - 1);
    }
  }

  lemma {:induction false} AskRequests(provider: Provider, at: nat, maxTokens: int, tries: nat)
    ensures at <= Ask(provider, at, maxTokens, tries).1 <= at + 3 * tries
    ensures Ask(provider, at, maxTokens, tries).0.Answered? ==>
              Ask(provider, at, maxTokens, tries).0.response.payload.Parsed?
    decreases tries
  {
    if tries > 0 {
      CallRequests(provider, at, PROVIDER_RETRIES);
      AskRequests(provider, Call(provider, at, PROVIDER_RETRIES).1, maxTokens, tries - 1);
    }
  }

  ghost predicate TreeBounds(m: Mined, at: nat, depth: nat) {
    && at <= m.next <= at + MaxRequests(depth)
    && |m.leaves| <= MaxLeaves(depth)
    && (!m.aborted ==> 1 <= |m.leaves|)
  }

  /** At most 42 requests and between one and four leaves for a chunk of the document. */
  lemma {:induction false} ProcessBounds(provider: Provider, at: nat, chunk: Chunk, maxTokens: int, depth: nat)
    ensures TreeBounds(Process(provider, at, chunk, maxTokens, depth), at, depth)
    decreases MAX_RECHUNK_DEPTH - depth, 0
  {
    AskRequests(provider, at, maxTokens, MALFORMED_TRIES);
    if depth < MAX_RECHUNK_DEPTH {
      HalvesBounds(provider, at, chunk, maxTokens, depth);
      HalvesBounds(provider, Ask(provider, at, maxTokens, MALFORMED_TRIES).1, chunk, maxTokens, depth);
    }
  }

  lemma {:induction false} HalvesBounds(provider: Provider, at: nat, chunk: Chunk, maxTokens: int, depth: nat)
    requires depth < MAX_RECHUNK_DEPTH
    ensures var m := ProcessHalves(provider, at, chunk, maxTokens, depth);
            at <= m.next <= at + 2 * MaxRequests(depth + 1) && |m.leaves| <= MaxLeaves(depth)
                && (!m.aborted ==> 1 <= |m.leaves|)
    decreases MAX_RECHUNK_DEPTH - depth - 1, 1
  {
    var m := Process(provider, at, Halve(chunk).0, maxTokens, depth + 1);
    ProcessBounds(provider, at, Halve(chunk).0, maxTokens, depth + 1);
    ProcessBounds(provider, m.next, Halve(chunk).1, maxTokens, depth + 1);
  }

  // ---------------------------------------------- what one node does

  predicate IsTransient(event: ProviderEvent) { event == RateLimited || event == Unavailable }

  /** A call goes on only after rate limits and outages, three requests in all; the first other event,
      at `k`, decides it. */
  lemma CallOutcome(provider: Provider, at: nat) returns (k: nat)
    ensures at <= k <= at + 3 && forall j: nat | at <= j < k :: IsTransient(provider(j))
    ensures k == at + 3 ==> Call(provider, at, PROVIDER_RETRIES) == (None, k)
    ensures k < at + 3 ==>
              !IsTransient(provider(k)) && Call(provider, at, PROVIDER_RETRIES) == (ReplyOf(provider(k)), k + 1)
  {
    k := CallStops(provider, at, 3);
  }

  function ReplyOf(event: ProviderEvent): Option<Response> { if event.Reply? then Some(event.response) else None }

  lemma {:induction false} CallStops(provider: Provider, at: nat, tries: nat) returns (k: nat)
    ensures at <= k <= at + tries && forall j: nat | at <= j < k :: IsTransient(provider(j))
    ensures k == at + tries ==> Call(provider, at, tries) == (None, k)
    ensures k < at + tries ==>
              !IsTransient(provider(k)) && Call(provider, at, tries) == (ReplyOf(provider(k)), k + 1)
    decreases tries
  {
    if tries == 0 || !IsTransient(provider(at)) {
      k := at;
    } else {
      k := CallStops(provider, at + 1, tries - 1);
    }
  }

  /** The output was cut off. */
  predicate IsCut(r: Response, maxTokens: int) { r.finishReason == "length" || r.tokensOut >= maxTokens - 100 }

  /** `r` decides what becomes of the chunk: it is cut off or parses, or is the second try. */
  ghost predicate Decides(provider: Provider, at: nat, maxTokens: int, r: Response, next: nat) {
    || (Call(provider, at, 3) == (Some(r), next) && (IsCut(r, maxTokens) || r.payload.Parsed?))
    || (var (first, mid) := Call(provider, at, 3);
        && first.Some? && !IsCut(first.value, maxTokens) && first.value.payload.Malformed?
        && Call(provider, mid, 3) == (Some(r), next))
  }

  /** A chunk that is not estimated too long, or cannot be halved any more, is settled by the deciding
      reply: cut off, it is halved or has failed; malformed, it has failed; with more than 25 items it
      is halved, if that is still possible; otherwise it is recorded. */
  lemma ReplyDecides(provider: Provider, at: nat, chunk: Chunk, maxTokens: int, depth: nat, r: Response, next: nat)
    requires Decides(provider, at, maxTokens, r, next)
    requires depth >= 2 || 500 * EstimateRequirements(chunk.text) <= maxTokens
    ensures var m := Process(provider, at, chunk, maxTokens, depth);
            if depth < 2 && (IsCut(r, maxTokens) || (r.payload.Parsed? && |r.payload.items| > 25)) then
              m == ProcessHalves(provider, next, chunk, maxTokens, depth)
            else if IsCut(r, maxTokens) || r.payload.Malformed? then m == Mined([LeafFailed(chunk)], next, false)
            else m == Mined([Called(chunk, r)], next, false)
  {
    var (first, mid) := Call(provider, at, 3);
    if first.Some? && !IsCut(first.value, maxTokens) && first.value.payload.Malformed? {
      SecondAsk(provider, at, maxTokens, mid);
    }
  }

  function LastAnswer(r: Response, maxTokens: int): Answer {
    if IsCut(r, maxTokens) then Truncated else if r.payload.Parsed? then Answered(r) else NeverParsed
  }

  lemma SecondAsk(provider: Provider, at: nat, maxTokens: int, mid: nat)
    requires var (first, next) := Call(provider, at, 3);
             next == mid && first.Some? && !IsCut(first.value, maxTokens) && first.value.payload.Malformed?
    ensures Ask(provider, at, maxTokens, MALFORMED_TRIES) == Ask(provider, mid, maxTokens, 1)
    ensures var (second, next) := Call(provider, mid, 3);
            second.Some? ==> Ask(provider, mid, maxTokens, 1) == (LastAnswer(second.value, maxTokens), next)
  {
    assert forall p: nat :: Ask(provider, p, maxTokens, 0) == (NeverParsed, p);
  }

  /** A chunk that is estimated too long is halved without asking, if that is still possible. */
  lemma TooLongIsHalved(provider: Provider, at: nat, chunk: Chunk, maxTokens: int, depth: nat)
    requires depth < 2 && 500 * EstimateRequirements(chunk.text) > maxTokens
    ensures var m := Process(provider, at, Halve(chunk).0, maxTokens, depth + 1);
            Process(provider, at, chunk, maxTokens, depth) ==
            if m.aborted then m
            else
              var m' := Process(provider, m.next, Halve(chunk).1, maxTokens, depth + 1);
              Mined(m.leaves + m'.leaves, m'.next, m'.aborted)
  {
    assert Process(provider, at, chunk, maxTokens, depth) == ProcessHalves(provider, at, chunk, maxTokens, depth);
  }

  /** A stretch of events from `at` to `next` ended in an error exactly if its last one is no reply: an
      error, or a third rate limit or outage in a row. */
  ghost predicate EndsRight(provider: Provider, at: nat, next: nat, aborted: bool) {
    at < next && (aborted <==> !provider(next - 1).Reply?)
  }

  lemma CallEnds(provider: Provider, at: nat)
    ensures var (reply, next) := Call(provider, at, PROVIDER_RETRIES); EndsRight(provider, at, next, reply.None?)
  {
    var k := CallOutcome(provider, at);
    assert k == at + 3 ==> IsTransient(provider(k - 1));
  }

  lemma {:induction false} AskEnds(provider: Provider, at: nat, maxTokens: int, tries: nat)
    requires tries > 0
    ensures var (answer, next) := Ask(provider, at, maxTokens, tries);
            EndsRight(provider, at, next, answer.Raised?)
    decreases tries
  {
    CallEnds(provider, at);
    var (reply, next) := Call(provider, at, PROVIDER_RETRIES);
    if tries > 1 {
      AskEnds(provider, next, maxTokens, tries - 1);
    } else {
      assert Ask(provider, next, maxTokens, 0) == (NeverParsed, next);
    }
  }

  ghost predicate MinedEndsRight(provider: Provider, at: nat, m: Mined) { EndsRight(provider, at, m.next, m.aborted) }

  /** A node is halved, before or after asking, or else ends with its questions. */
  lemma HalvedOrAsked(provider: Provider, at: nat, chunk: Chunk, maxTokens: int, depth: nat)
    returns (halved: Option<nat>)
    ensures var m := Process(provider, at, chunk, maxTokens, depth);
            match halved
            case Some(from) =>
              at <= from && depth < MAX_RECHUNK_DEPTH && m == ProcessHalves(provider, from, chunk, maxTokens, depth)
            case None => MinedEndsRight(provider, at, m)
  {
    AskEnds(provider, at, maxTokens, MALFORMED_TRIES);
    var (answer, next) := Ask(provider, at, maxTokens, MALFORMED_TRIES);
    if EstimatedTooLong(chunk.text, maxTokens) && depth < MAX_RECHUNK_DEPTH {
      halved := Some(at);
    } else if depth < MAX_RECHUNK_DEPTH
              && (answer.Truncated? || (answer.Answered? && answer.response.payload.Parsed?
                                        && |answer.response.payload.items| > MAX_REQUIREMENTS_PER_CHUNK))
    {
      halved := Some(next);
    } else {
      halved := None;
    }
  }

  /** Mining is given up exactly if the last event was no reply. */
  lemma {:induction false} AbortedIff(provider: Provider, at: nat, chunk: Chunk, maxTokens: int, depth: nat)
    ensures MinedEndsRight(provider, at, Process(provider, at, chunk, maxTokens, depth))
    decreases MAX_RECHUNK_DEPTH - depth, 0
  {
    var halved := HalvedOrAsked(provider, at, chunk, maxTokens, depth);
    if halved.Some? {
      HalvesAbortedIff(provider, halved.value, chunk, maxTokens, depth);
    }
  }

  lemma {:induction false} HalvesAbortedIff(provider: Provider, at: nat, chunk: Chunk, maxTokens: int, depth: nat)
    requires depth < MAX_RECHUNK_DEPTH
    ensures MinedEndsRight(provider, at, ProcessHalves(provider, at, chunk, maxTokens, depth))
    decreases MAX_RECHUNK_DEPTH - depth - 1, 1
  {
    var (first, second) := Halve(chunk);
    var m := Process(provider, at, first, maxTokens, depth + 1);
    AbortedIff(provider, at, first, maxTokens, depth + 1);
    AbortedIff(provider, m.next, second, maxTokens, depth + 1);
  }

  /** The same for a run: it goes on to the next chunk as long as each ends with a reply. */
  lemma {:induction false} RunAbortedIff(provider: Provider, at: nat, chunks: seq<Chunk>, maxTokens: int)
    ensures chunks == [] ==> ProcessAll(provider, at, chunks, maxTokens) == Mined([], at, false)
    ensures chunks != [] ==> MinedEndsRight(provider, at, ProcessAll(provider, at, chunks, maxTokens))
  {
    if chunks != [] {
      var rest, last := chunks[..|chunks| - 1], chunks[|chunks| - 1];
      RunAbortedIff(provider, at, rest, maxTokens);
      AbortedIff(provider, ProcessAll(provider, at, rest, maxTokens).next, last, maxTokens, 0);
    }
  }

  // ---------------------------------------------------- the estimate

  /** The number of places at which the word stands. */
  function Places(s: string, word: string): nat {
    if |s| < |word| || s == [] then 0 else (if s[..|word|] == word then 1 else 0) + Places(s[1..], word)
  }

  /** No end of the word is a beginning of it, so its places do not overlap. */
  ghost predicate HasNoBorder(word: string) {
    word != [] && forall k | 0 < k < |word| :: word[k] != word[0] || word[k..] != word[..|word| - k]
  }

  lemma NoOverlap(s: string, word: string, k: nat)
    requires HasNoBorder(word) && 0 < k < |word| && k + |word| <= |s| && s[..|word|] == word
    ensures s[k..][..|word|] != word
  {
    var again := s[k..][..|word|];
    assert word[k..] == s[k..|word|] && word[k] == s[k];
    assert again[0] == s[k] && again[..|word| - k] == s[k..|word|];
  }

  lemma {:induction false} NoPlaceInside(s: string, word: string, k: nat)
    requires HasNoBorder(word) && |s| >= |word| && s[..|word|] == word && 0 < k <= |word|
    ensures Places(s[k..], word) == Places(s[|word|..], word)
    decreases |word| - k
  {
    if k < |word| {
      NoPlaceInside(s, word, k + 1);
      assert s[k..][1..] == s[k + 1..];
      if k + |word| <= |s| {
        NoOverlap(s, word, k);
      } else {
        FewPlaces(s[k..], word);
        FewPlaces(s[k + 1..], word);
      }
    }
  }

  lemma FewPlaces(s: string, word: string)
    requires |s| < |word|
    ensures Places(s, word) == 0
  {
  }

  /** Counting from the left without overlap finds every place. */
  lemma {:induction false} CountIsPlaces(s: string, word: string)
    requires HasNoBorder(word)
    ensures CountOf(s, word) == Places(s, word)
    decreases |s|
  {
    if |s| >= |word| {
      if s[..|word|] == word {
        CountIsPlaces(s[|word|..], word);
        NoPlaceInside(s, word, 1);
      } else {
        CountIsPlaces(s[1..], word);
      }
    }
  }

  lemma WordsHaveNoBorder()
    ensures HasNoBorder("shall") && HasNoBorder("must") && HasNoBorder("required")
  {
    var shall, must, required := "shall", "must", "required";
    assert shall[1] == 'h' && shall[2] == 'a' && shall[3] == 'l' && shall[4] == 'l';
    assert must[1] == 'u' && must[2] == 's' && must[3] == 't';
    assert required[1] == 'e' && required[2] == 'q' && required[3] == 'u' && required[4] == 'i';
    assert required[6] == 'e' && required[7] == 'd';
    assert required[5..][2] == 'd' && required[..3][2] == 'q';
  }

  /** The estimate is the number of places of the three words in the lower-cased text, at least one. */
  lemma EstimateIsPlaces(text: string)
    ensures EstimateRequirements(text) ==
            Max(1, Places(Lower(text), "shall") + Places(Lower(text), "must") + Places(Lower(text), "required"))
  {
    WordsHaveNoBorder();
    CountIsPlaces(Lower(text), "shall");
    CountIsPlaces(Lower(text), "must");
    CountIsPlaces(Lower(text), "required");
  }

  // ------------------------------------------- the bound is reached

  /** A provider that is rate-limited twice before every reply, and whose replies are malformed and
      truncated in turn. */
  function WorstProvider(n: nat): ProviderEvent {
    if n % 6 == 2 then Reply(Response("stop", 0, 0, Malformed))
    else if n % 6 == 5 then Reply(Response("length", 0, 0, Malformed))
    else RateLimited
  }

  lemma ThirdTry(provider: Provider, at: nat, r: Response)
    requires provider(at) == RateLimited && provider(at + 1) == RateLimited && provider(at + 2) == Reply(r)
    ensures Call(provider, at, PROVIDER_RETRIES) == (Some(r), at + 3)
  {
    assert Call(provider, at + 2, 1) == (Some(r), at + 3);
    assert Call(provider, at + 1, 2) == (Some(r), at + 3);
  }

  lemma SecondTry(provider: Provider, at: nat, maxTokens: int, malformed: Response, cut: Response)
    requires Call(provider, at, PROVIDER_RETRIES) == (Some(malformed), at + 3)
    requires Call(provider, at + 3, PROVIDER_RETRIES) == (Some(cut), at + 6)
    requires malformed.payload.Malformed? && !IsTruncated(malformed, maxTokens) && IsTruncated(cut, maxTokens)
    ensures Ask(provider, at, maxTokens, MALFORMED_TRIES) == (Truncated, at + 6)
  {
    assert Ask(provider, at + 3, maxTokens, 1) == (Truncated, at + 6);
  }

  /** The `k`-th question takes six requests and ends truncated. */
  ghost predicate TakesSix(provider: Provider, maxTokens: int, k: nat) {
    Ask(provider, 6 * k, maxTokens, MALFORMED_TRIES) == (Truncated, 6 * k + 6)
  }

  lemma Remainder(k: nat, r: nat)
    requires r < 6
    ensures (6 * k + r) % 6 == r
  {
  }

  lemma WorstAsk(k: nat, maxTokens: int)
    requires maxTokens > TRUNCATION_TOKEN_MARGIN
    ensures TakesSix(WorstProvider, maxTokens, k)
  {
    Remainder(k, 0); Remainder(k, 1); Remainder(k, 2); Remainder(k, 3); Remainder(k, 4); Remainder(k, 5);
    var malformed, cut := Response("stop", 0, 0, Malformed), Response("length", 0, 0, Malformed);
    assert WorstProvider(6 * k + 0) == WorstProvider(6 * k + 1) == RateLimited;
    assert WorstProvider(6 * k + 2) == Reply(malformed);
    assert WorstProvider(6 * k + 3) == WorstProvider(6 * k + 4) == RateLimited;
    assert WorstProvider(6 * k + 5) == Reply(cut);
    assert "stop" != "length" by { assert |"stop"| != |"length"|; }
    SixRequests(WorstProvider, 6 * k, maxTokens, malformed, cut);
  }

  lemma SixRequests(provider: Provider, at: nat, maxTokens: int, malformed: Response, cut: Response)
    requires provider(at) == provider(at + 1) == RateLimited && provider(at + 2) == Reply(malformed)
    requires provider(at + 3) == provider(at + 4) == RateLimited && provider(at + 5) == Reply(cut)
    requires malformed.payload.Malformed? && !IsTruncated(malformed, maxTokens) && IsTruncated(cut, maxTokens)
    ensures Ask(provider, at, maxTokens, MALFORMED_TRIES) == (Truncated, at + 6)
  {
    ThirdTry(provider, at, malformed);
    ThirdTry(provider, at + 3, cut);
    SecondTry(provider, at, maxTokens, malformed, cut);
  }

  lemma TruncatedNode(provider: Provider, at: nat, c: Chunk, maxTokens: int, depth: nat, next: nat)
    requires !EstimatedTooLong(c.text, maxTokens)
    requires Ask(provider, at, maxTokens, MALFORMED_TRIES) == (Truncated, next)
    ensures depth < MAX_RECHUNK_DEPTH ==>
              Process(provider, at, c, maxTokens, depth) == ProcessHalves(provider, next, c, maxTokens, depth)
    ensures depth >= MAX_RECHUNK_DEPTH ==>
              Process(provider, at, c, maxTokens, depth) == Mined([LeafFailed(c)], next, false)
  {
  }

  /** A node of the recursion tree, starting with its `k`-th question of six requests. */
  type Node = (nat, Chunk, nat) -> Mined

  /** Even if every third character began a word that is counted, the estimate is within the limit. */
  predicate IsBrief(c: Chunk, maxTokens: int) { 500 * (1 + 3 * |Lower(c.text)|) <= maxTokens }

  lemma {:induction false} CountAtMostLength(s: string, word: string)
    requires word != []
    ensures CountOf(s, word) <= |s|
    decreases |s|
  {
    if |s| >= |word| {
      if s[..|word|] == word { CountAtMostLength(s[|word|..], word); } else { CountAtMostLength(s[1..], word); }
    }
  }

  lemma BriefIsNotTooLong(c: Chunk, maxTokens: int)
    requires IsBrief(c, maxTokens)
    ensures !EstimatedTooLong(c.text, maxTokens)
  {
    var lowered := Lower(c.text);
    CountAtMostLength(lowered, "shall");
    CountAtMostLength(lowered, "must");
    CountAtMostLength(lowered, "required");
  }

  lemma {:induction false} LowerOfParts(s: string, t: string)
    ensures |Lower(s + t)| == |Lower(s)| + |Lower(t)|
  {
    if s == [] {
      assert s + t == t;
    } else {
      LowerOfParts(s[1..], t);
      assert (s + t)[0] == s[0] && (s + t)[1..] == s[1..] + t;
    }
  }

  lemma LowerOfMiddle(s: string, t: string, u: string)
    ensures |Lower(t)| <= |Lower(s + t + u)|
  {
    LowerOfParts(s + t, u);
    LowerOfParts(s, t);
  }

  lemma LowerOfSlice(s: string, i: nat, j: nat)
    requires i <= j <= |s|
    ensures |Lower(s[i..j])| <= |Lower(s)|
  {
    LowerOfMiddle(s[..i], s[i..j], s[j..]);
    assert s == s[..i] + s[i..j] + s[j..];
  }

  lemma HalvesAreBrief(c: Chunk, maxTokens: int)
    requires IsBrief(c, maxTokens)
    ensures IsBrief(Halve(c).0, maxTokens) && IsBrief(Halve(c).1, maxTokens)
  {
    HalvesTile(c);
    var (first, second) := Halve(c);
    var n := |c.text|;
    LowerOfSlice(c.text, 0, |first.text|);
    LowerOfSlice(c.text, n - |second.text|, n);
    assert c.text[0..|first.text|] == first.text && c.text[n - |second.text|..n] == second.text;
  }

  /** Every node of the tree spends six requests before its children do. */
  ghost predicate SpendsSix(node: Node, maxTokens: int) {
    forall k: nat, c: Chunk, depth: nat | IsBrief(c, maxTokens) && depth <= MAX_RECHUNK_DEPTH ::
        SpendsSixAt(node, k, c, depth)
  }

  ghost predicate SpendsSixAt(node: Node, k: nat, c: Chunk, depth: nat) {
    if depth == MAX_RECHUNK_DEPTH then !node(k, c, depth).aborted && node(k, c, depth).next == 6 * (k + 1)
    else
      forall k' | !node(k + 1, Halve(c).0, depth + 1).aborted && node(k + 1, Halve(c).0, depth + 1).next == 6 * k' ::
        SameEnd(node(k, c, depth), node(k', Halve(c).1, depth + 1))
  }

  predicate SameEnd(m: Mined, m': Mined) { m.next == m'.next && m.aborted == m'.aborted }

  /** Nodes of the full tree below a node. */
  function Nodes(depth: nat): nat {
    if depth >= MAX_RECHUNK_DEPTH then 1 else if depth == 1 then 3 else 7
  }

  lemma {:induction false} EveryNodeIsAsked(node: Node, maxTokens: int, k: nat, c: Chunk, depth: nat)
    requires SpendsSix(node, maxTokens) && IsBrief(c, maxTokens) && depth <= MAX_RECHUNK_DEPTH
    ensures !node(k, c, depth).aborted && node(k, c, depth).next == 6 * (k + Nodes(depth))
    decreases MAX_RECHUNK_DEPTH - depth
  {
    assert SpendsSixAt(node, k, c, depth);
    if depth < MAX_RECHUNK_DEPTH {
      HalvesAreBrief(c, maxTokens);
      EveryNodeIsAsked(node, maxTokens, k + 1, Halve(c).0, depth + 1);
      var k' := k + 1 + Nodes(depth + 1);
      EveryNodeIsAsked(node, maxTokens, k', Halve(c).1, depth + 1);
      assert SameEnd(node(k, c, depth), node(k', Halve(c).1, depth + 1));
    }
  }

  function NodeOf(provider: Provider, maxTokens: int): Node {
    (k: nat, c: Chunk, depth: nat) => Process(provider, 6 * k, c, maxTokens, depth)
  }

  lemma NodeAt(provider: Provider, k: nat, c: Chunk, maxTokens: int, depth: nat, m: Mined)
    requires Process(provider, 6 * k, c, maxTokens, depth) == m
    ensures NodeOf(provider, maxTokens)(k, c, depth) == m
  {
  }

  lemma NodeStep(provider: Provider, k: nat, c: Chunk, maxTokens: int, depth: nat)
    requires TakesSix(provider, maxTokens, k) && IsBrief(c, maxTokens) && depth <= MAX_RECHUNK_DEPTH
    ensures depth < MAX_RECHUNK_DEPTH ==>
              NodeOf(provider, maxTokens)(k, c, depth) == ProcessHalves(provider, 6 * (k + 1), c, maxTokens, depth)
    ensures depth == MAX_RECHUNK_DEPTH ==>
              NodeOf(provider, maxTokens)(k, c, depth) == Mined([LeafFailed(c)], 6 * (k + 1), false)
  {
    BriefIsNotTooLong(c, maxTokens);
    var next := 6 * (k + 1);
    TruncatedNode(provider, 6 * k, c, maxTokens, depth, next);
    if depth < MAX_RECHUNK_DEPTH {
      NodeAt(provider, k, c, maxTokens, depth, ProcessHalves(provider, next, c, maxTokens, depth));
    } else {
      NodeAt(provider, k, c, maxTokens, depth, Mined([LeafFailed(c)], next, false));
    }
  }

  lemma HalvesEnd(provider: Provider, at: nat, c: Chunk, maxTokens: int, depth: nat, mid: nat)
    requires depth < MAX_RECHUNK_DEPTH
    requires var m := Process(provider, at, Halve(c).0, maxTokens, depth + 1); !m.aborted && m.next == mid
    ensures SameEnd(ProcessHalves(provider, at, c, maxTokens, depth),
              Process(provider, mid, Halve(c).1, maxTokens, depth + 1))
  {
  }

  lemma NodesSpendSix(provider: Provider, maxTokens: int)
    requires forall k :: TakesSix(provider, maxTokens, k)
    ensures SpendsSix(NodeOf(provider, maxTokens), maxTokens)
  {
    var node := NodeOf(provider, maxTokens);
    forall k: nat, c: Chunk, depth: nat | IsBrief(c, maxTokens) && depth <= MAX_RECHUNK_DEPTH
      ensures SpendsSixAt(node, k, c, depth)
    {
      assert TakesSix(provider, maxTokens, k);
      NodeStep(provider, k, c, maxTokens, depth);
      if depth < MAX_RECHUNK_DEPTH {
        forall k' | !node(k + 1, Halve(c).0, depth + 1).aborted && node(k + 1, Halve(c).0, depth + 1).next == 6 * k'
          ensures SameEnd(node(k, c, depth), node(k', Halve(c).1, depth + 1))
        {
          HalvesEnd(provider, 6 * (k + 1), c, maxTokens, depth, 6 * k');
        }
      }
    }
  }

  /** The bound of 42 requests is reached, for every chunk and every large enough token limit. */
  lemma RequestBoundIsReached(c: Chunk, maxTokens: int)
    requires IsBrief(c, maxTokens)
    ensures Process(WorstProvider, 0, c, maxTokens, 0).next == MaxRequests(0) == 42
  {
    forall k: nat ensures TakesSix(WorstProvider, maxTokens, k) { WorstAsk(k, maxTokens); }
    FortyTwoRequests(WorstProvider, c, maxTokens);
  }

  lemma FortyTwoRequests(provider: Provider, c: Chunk, maxTokens: int)
    requires IsBrief(c, maxTokens) && forall k :: TakesSix(provider, maxTokens, k)
    ensures Process(provider, 0, c, maxTokens, 0).next == 42
  {
    NodesSpendSix(provider, maxTokens);
    EveryNodeIsAsked(NodeOf(provider, maxTokens), maxTokens, 0, c, 0);
    assert NodeOf(provider, maxTokens)(0, c, 0) == Process(provider, 6 * 0, c, maxTokens, 0);
  }

  // ------------------------------------------- where the leaves come from

  /** Each leaf is a stretch of the chunk, with its index, inside its page range. */
  ghost predicate IsPieceOf(piece: Chunk, c: Chunk) {
    && piece.index == c.index
    && SubSpan(piece, c)
    && exists at: nat :: Reads(c, at, piece.text)
  }

  lemma ReadsThroughHalf(half: Chunk, c: Chunk, skipped: nat, at: nat, t: string)
    requires skipped + |half.text| <= |c.text| && half.text == c.text[skipped..skipped + |half.text|]
    requires Reads(half, at, t)
    ensures Reads(c, skipped + at, t)
  {
    SliceOfSlice(c.text, skipped, skipped + |half.text|, skipped + at, skipped + at + |t|);
  }

  lemma PieceOfHalf(piece: Chunk, half: Chunk, c: Chunk)
    requires IsPieceOf(piece, half) && (half == Halve(c).0 || half == Halve(c).1)
    ensures IsPieceOf(piece, c)
  {
    HalvesSubSpan(c);
    var at: nat :| Reads(half, at, piece.text);
    var skipped := if half == Halve(c).0 then 0 else |c.text| - |Halve(c).1.text|;
    ReadsThroughHalf(half, c, skipped, at, piece.text);
  }

  lemma {:induction false} LeavesArePieces(provider: Provider, at: nat, chunk: Chunk, maxTokens: int, depth: nat)
    ensures forall leaf | leaf in Process(provider, at, chunk, maxTokens, depth).leaves :: IsPieceOf(leaf.chunk, chunk)
    decreases MAX_RECHUNK_DEPTH - depth, 0
  {
    assert IsPieceOf(chunk, chunk) by { assert Reads(chunk, 0, chunk.text); }
    if depth < MAX_RECHUNK_DEPTH {
      HalfLeavesArePieces(provider, at, chunk, maxTokens, depth);
      HalfLeavesArePieces(provider, Ask(provider, at, maxTokens, MALFORMED_TRIES).1, chunk, maxTokens, depth);
    }
  }

  lemma {:induction false} HalfLeavesArePieces(provider: Provider, at: nat, chunk: Chunk, maxTokens: int, depth: nat)
    requires depth < MAX_RECHUNK_DEPTH
    ensures forall leaf | leaf in ProcessHalves(provider, at, chunk, maxTokens, depth).leaves ::
              IsPieceOf(leaf.chunk, chunk)
    decreases MAX_RECHUNK_DEPTH - depth - 1, 1
  {
    var (first, second) := Halve(chunk);
    var m := Process(provider, at, first, maxTokens, depth + 1);
    LeavesArePieces(provider, at, first, maxTokens, depth + 1);
    LeavesArePieces(provider, m.next, second, maxTokens, depth + 1);
    forall leaf | leaf in ProcessHalves(provider, at, chunk, maxTokens, depth).leaves
      ensures IsPieceOf(leaf.chunk, chunk)
    {
      PieceOfHalf(leaf.chunk, if leaf in m.leaves then first else second, chunk);
    }
  }

  /** A passage of at most 501 characters of a chunk is whole in one of its leaves, whatever the
      pattern of halvings, unless an exception cut the recursion short. */
  lemma {:induction false} PassageReachesLeaf(provider: Provider, at: nat, chunk: Chunk, maxTokens: int, depth: nat,
                                              t: string)
    requires Holds(chunk, t) && |t| <= OVERLAP_CHARS + 1
    requires !Process(provider, at, chunk, maxTokens, depth).aborted
    ensures exists leaf :: leaf in Process(provider, at, chunk, maxTokens, depth).leaves && Holds(leaf.chunk, t)
    decreases MAX_RECHUNK_DEPTH - depth, 0
  {
    var m := Process(provider, at, chunk, maxTokens, depth);
    var next := Ask(provider, at, maxTokens, MALFORMED_TRIES).1;
    if depth < MAX_RECHUNK_DEPTH && m == ProcessHalves(provider, at, chunk, maxTokens, depth) {
      PassageReachesHalf(provider, at, chunk, maxTokens, depth, t);
    } else if depth < MAX_RECHUNK_DEPTH && m == ProcessHalves(provider, next, chunk, maxTokens, depth) {
      PassageReachesHalf(provider, next, chunk, maxTokens, depth, t);
    } else {
      assert m.leaves[0] in m.leaves && m.leaves[0].chunk == chunk;
    }
  }

  lemma {:induction false} PassageReachesHalf(provider: Provider, at: nat, chunk: Chunk, maxTokens: int, depth: nat,
                                              t: string)
    requires depth < MAX_RECHUNK_DEPTH && Holds(chunk, t) && |t| <= OVERLAP_CHARS + 1
    requires !ProcessHalves(provider, at, chunk, maxTokens, depth).aborted
    ensures exists leaf :: leaf in ProcessHalves(provider, at, chunk, maxTokens, depth).leaves && Holds(leaf.chunk, t)
    decreases MAX_RECHUNK_DEPTH - depth - 1, 1
  {
    var (first, second) := Halve(chunk);
    var m := Process(provider, at, first, maxTokens, depth + 1);
    HalvesHoldPassage(chunk, t);
    if Holds(first, t) {
      PassageReachesLeaf(provider, at, first, maxTokens, depth + 1, t);
    } else {
      PassageReachesLeaf(provider, m.next, second, maxTokens, depth + 1, t);
    }
  }

  // ------------------------------------------------------ the whole run

  /** The part of a run that belongs to chunk `n`. */
  lemma {:induction false} RunOfChunk(provider: Provider, at: nat, chunks: seq<Chunk>, maxTokens: int, n: nat)
    returns (from: nat)
    requires n < |chunks| && !ProcessAll(provider, at, chunks, maxTokens).aborted
    ensures !Process(provider, from, chunks[n], maxTokens, 0).aborted
    ensures forall leaf | leaf in Process(provider, from, chunks[n], maxTokens, 0).leaves ::
              leaf in ProcessAll(provider, at, chunks, maxTokens).leaves
  {
    var rest, last := chunks[..|chunks| - 1], chunks[|chunks| - 1];
    var m := ProcessAll(provider, at, rest, maxTokens);
    var m' := Process(provider, m.next, last, maxTokens, 0);
    assert ProcessAll(provider, at, chunks, maxTokens).leaves == m.leaves + m'.leaves;
    if n == |rest| {
      from := m.next;
    } else {
      from := RunOfChunk(provider, at, rest, maxTokens, n);
      assert chunks[n] == rest[n];
    }
  }

  lemma {:induction false} AllLeavesArePieces(provider: Provider, at: nat, chunks: seq<Chunk>, maxTokens: int,
                                              leaf: Leaf)
    requires leaf in ProcessAll(provider, at, chunks, maxTokens).leaves
    ensures exists n | 0 <= n < |chunks| :: IsPieceOf(leaf.chunk, chunks[n])
  {
    var rest, last := chunks[..|chunks| - 1], chunks[|chunks| - 1];
    var m := ProcessAll(provider, at, rest, maxTokens);
    if leaf in m.leaves {
      AllLeavesArePieces(provider, at, rest, maxTokens, leaf);
      var n :| 0 <= n < |rest| && IsPieceOf(leaf.chunk, rest[n]);
      assert chunks[n] == rest[n];
    } else {
      LeavesArePieces(provider, m.next, last, maxTokens, 0);
      assert IsPieceOf(leaf.chunk, chunks[|chunks| - 1]);
    }
  }

  lemma {:induction false} AllBounds(provider: Provider, at: nat, chunks: seq<Chunk>, maxTokens: int)
    ensures var m := ProcessAll(provider, at, chunks, maxTokens);
            && at <= m.next <= at + 42 * |chunks|
            && |m.leaves| <= 4 * |chunks|
            && (!m.aborted ==> |chunks| <= |m.leaves|)
  {
    if chunks != [] {
      var rest := chunks[..|chunks| - 1];
      AllBounds(provider, at, rest, maxTokens);
      ProcessBounds(provider, ProcessAll(provider, at, rest, maxTokens).next, chunks[|chunks| - 1], maxTokens, 0);
    }
  }

  /** Every leaf is either a recorded call or a counted failure. */
  lemma {:induction false} LeavesAccounted(leaves: seq<Leaf>, l: Ledger)
    ensures var l' := After(leaves, l);
            |l'.calls| + l'.failed == |l.calls| + l.failed + |leaves| && l.failed <= l'.failed
    ensures After(leaves, l).failed == l.failed <==> forall leaf | leaf in leaves :: leaf.Called?
  {
    if leaves != [] {
      var rest := leaves[..|leaves| - 1];
      LeavesAccounted(rest, l);
      assert leaves == rest + [leaves[|leaves| - 1]];
    }
  }

  /** The calls' items one after another. */
  function CalledItems(calls: seq<CallRecord>): seq<ChunkItem> {
    if calls == [] then [] else CalledItems(calls[..|calls| - 1]) + calls[|calls| - 1].items
  }

  ghost predicate SameButPage(mined: MinedItem, item: ChunkItem) {
    && mined.clauseId == item.clauseId && mined.section == item.section && mined.text == item.text
    && mined.excerpt == item.excerpt && mined.isRequirement == item.isRequirement
  }

  /** The mined items are the recorded calls' items, in order, numbered consecutively. */
  ghost predicate ItemsFollowCalls(l: Ledger) {
    && |l.items| == |CalledItems(l.calls)|
    && forall k | 0 <= k < |l.items| :: l.items[k].docOrder == k && SameButPage(l.items[k], CalledItems(l.calls)[k])
  }

  lemma {:induction false} RunKeepsItemsInStep(leaves: seq<Leaf>, l: Ledger)
    requires ItemsFollowCalls(l)
    ensures ItemsFollowCalls(After(leaves, l))
  {
    if leaves != [] {
      var l1, leaf := After(leaves[..|leaves| - 1], l), leaves[|leaves| - 1];
      RunKeepsItemsInStep(leaves[..|leaves| - 1], l);
      if leaf.Called? {
        PlaceAllAt(LeafItems(leaf), leaf.chunk, |l1.items|);
        var calls := l1.calls + [RecordOf(leaf.chunk, leaf.response)];
        assert calls[..|calls| - 1] == l1.calls;
      }
    }
  }

  ghost predicate CitesWithin(item: MinedItem, c: Chunk) {
    item.chunkIndex == c.index && c.pageStart <= item.page <= Max(c.pageStart, c.pageEnd)
  }

  /** Every item cites a page of the document chunk it was mined from, however often halved. */
  lemma {:induction false} CitedPagesInChunk(leaves: seq<Leaf>, chunks: seq<Chunk>, k: nat) returns (n: nat)
    requires forall leaf | leaf in leaves :: exists n | 0 <= n < |chunks| :: IsPieceOf(leaf.chunk, chunks[n])
    requires k < |After(leaves, EMPTY).items|
    ensures n < |chunks| && CitesWithin(After(leaves, EMPTY).items[k], chunks[n])
  {
    var rest, leaf := leaves[..|leaves| - 1], leaves[|leaves| - 1];
    var l := After(rest, EMPTY);
    if k < |l.items| {
      n := CitedPagesInChunk(rest, chunks, k);
    } else {
      PlaceAllAt(LeafItems(leaf), leaf.chunk, |l.items|);
      assert leaf in leaves;
      n :| 0 <= n < |chunks| && IsPieceOf(leaf.chunk, chunks[n]);
    }
  }

  function Gap(p: int, q: int): int { if p <= q then q - p else p - q }

  /** A page below 1 becomes the first one of the chunk; any other becomes the nearest of its pages, so
      that a page of the chunk stays as it is. */
  ghost predicate IsNearestPage(page: int, claimed: int, first: int, last: int) {
    && first <= page <= Max(first, last)
    && if claimed < 1 then page == first
       else forall p | first <= p <= Max(first, last) :: Gap(page, claimed) <= Gap(p, claimed)
  }

  /** What was mined of a leaf's item at `pos` of its reply. */
  ghost predicate IsMinedFrom(mined: MinedItem, leaf: Leaf, pos: nat) {
    && leaf.Called? && leaf.response.payload.Parsed? && pos < |leaf.response.payload.items|
    && var item := leaf.response.payload.items[pos];
       && mined == MinedItem(item.clauseId, item.section, mined.page, item.text, item.excerpt, item.isRequirement,
                             leaf.chunk.index, mined.docOrder)
       && IsNearestPage(mined.page, item.page, leaf.chunk.pageStart, leaf.chunk.pageEnd)
  }

  lemma PlacedIsMined(leaf: Leaf, pos: nat, order: nat)
    requires leaf.Called? && leaf.response.payload.Parsed? && pos < |leaf.response.payload.items|
    ensures IsMinedFrom(Place(leaf.response.payload.items[pos], leaf.chunk, order), leaf, pos)
  {
  }

  /** Every mined item comes from a recorded leaf, and cites the claimed page or the nearest one of the
      leaf. */
  lemma {:induction false} ItemSource(leaves: seq<Leaf>, k: nat) returns (leaf: Leaf, pos: nat)
    requires k < |After(leaves, EMPTY).items|
    ensures leaf in leaves && IsMinedFrom(After(leaves, EMPTY).items[k], leaf, pos)
  {
    var rest, last := leaves[..|leaves| - 1], leaves[|leaves| - 1];
    var l := After(rest, EMPTY);
    if k < |l.items| {
      leaf, pos := ItemSource(rest, k);
    } else {
      PlaceAllAt(LeafItems(last), last.chunk, |l.items|);
      leaf, pos := last, k - |l.items|;
      PlacedIsMined(leaf, pos, k);
    }
  }

  /** The leaves that were recorded, in order. */
  function CalledLeaves(leaves: seq<Leaf>): seq<Leaf> {
    if leaves == [] then []
    else CalledLeaves(leaves[..|leaves| - 1]) + if leaves[|leaves| - 1].Called? then [leaves[|leaves| - 1]] else []
  }

  /** The record of a reply. */
  predicate IsRecordOf(call: CallRecord, leaf: Leaf) {
    && leaf.Called? && call.chunkIndex == leaf.chunk.index
    && call.tokensIn == leaf.response.tokensIn && call.tokensOut == leaf.response.tokensOut
    && call.finishReason == leaf.response.finishReason
    && (leaf.response.payload.Parsed? ==> call.items == leaf.response.payload.items)
  }

  /** The call records are those of the recorded leaves, in order. */
  lemma {:induction false} CallsFollowLeaves(leaves: seq<Leaf>)
    ensures |After(leaves, EMPTY).calls| == |CalledLeaves(leaves)|
    ensures forall k | 0 <= k < |CalledLeaves(leaves)| ::
              IsRecordOf(After(leaves, EMPTY).calls[k], CalledLeaves(leaves)[k])
  {
    if leaves != [] {
      CallsFollowLeaves(leaves[..|leaves| - 1]);
    }
  }

  /** The ledger of a whole run: item `k` follows the calls and was read from a leaf, a stretch of chunk
      `n`. */
  lemma RunLedger(provider: Provider, at: nat, chunks: seq<Chunk>, maxTokens: int, k: nat)
    returns (n: nat, leaf: Leaf, pos: nat)
    requires k < |After(ProcessAll(provider, at, chunks, maxTokens).leaves, EMPTY).items|
    ensures ItemsFollowCalls(After(ProcessAll(provider, at, chunks, maxTokens).leaves, EMPTY))
    ensures n < |chunks| && leaf in ProcessAll(provider, at, chunks, maxTokens).leaves
    ensures CitesWithin(After(ProcessAll(provider, at, chunks, maxTokens).leaves, EMPTY).items[k], chunks[n])
    ensures IsMinedFrom(After(ProcessAll(provider, at, chunks, maxTokens).leaves, EMPTY).items[k], leaf, pos)
    ensures IsPieceOf(leaf.chunk, chunks[n])
  {
    var leaves := ProcessAll(provider, at, chunks, maxTokens).leaves;
    RunKeepsItemsInStep(leaves, EMPTY);
    leaf, pos := ItemSource(leaves, k);
    AllLeavesArePieces(provider, at, chunks, maxTokens, leaf);
    n :| 0 <= n < |chunks| && IsPieceOf(leaf.chunk, chunks[n]);
  }

  /** The reply is neither cut off nor malformed, came before event `next`, and has at most 25 items
      unless the chunk was halved twice. */
  ghost predicate IsComplete(r: Response, provider: Provider, next: nat, maxTokens: int, halvings: int) {
    && r.payload.Parsed? && r.finishReason != "length" && r.tokensOut < maxTokens - 100
    && (|r.payload.items| <= 25 || halvings == 2)
    && exists e: nat :: e < next && provider(e) == Reply(r)
  }

  lemma StaysComplete(r: Response, provider: Provider, next: nat, later: nat, maxTokens: int, halvings: int)
    requires IsComplete(r, provider, next, maxTokens, halvings) && next <= later
    ensures IsComplete(r, provider, later, maxTokens, halvings)
  {
  }

  lemma {:induction false} AnswerIsComplete(provider: Provider, at: nat, maxTokens: int, tries: nat)
    requires Ask(provider, at, maxTokens, tries).0.Answered?
    ensures var (answer, next) := Ask(provider, at, maxTokens, tries);
            IsComplete(answer.response, provider, next, maxTokens, 2)
    decreases tries
  {
    var k := CallOutcome(provider, at);
    var (reply, next) := Call(provider, at, PROVIDER_RETRIES);
    if IsTruncated(reply.value, maxTokens) || reply.value.payload.Malformed? {
      AnswerIsComplete(provider, next, maxTokens, tries - 1);
    }
  }

  /** Whatever is recorded is a complete reply of the provider. */
  lemma {:induction false} RecordedIsComplete(provider: Provider, at: nat, chunk: Chunk, maxTokens: int, depth: nat,
                                              leaf: Leaf)
    requires leaf in Process(provider, at, chunk, maxTokens, depth).leaves && leaf.Called? && depth <= 2
    ensures IsComplete(leaf.response, provider, Process(provider, at, chunk, maxTokens, depth).next, maxTokens,
                       depth + leaf.chunk.subIndex - chunk.subIndex)
    decreases MAX_RECHUNK_DEPTH - depth, 0
  {
    var (answer, next) := Ask(provider, at, maxTokens, MALFORMED_TRIES);
    if EstimatedTooLong(chunk.text, maxTokens) && depth < 2 {
      RecordedHalf(provider, at, chunk, maxTokens, depth, leaf);
    } else if answer.Answered? && (depth == 2 || |answer.response.payload.items| <= 25) {
      AnswerIsComplete(provider, at, maxTokens, MALFORMED_TRIES);
    } else if depth < 2 {
      RecordedHalf(provider, next, chunk, maxTokens, depth, leaf);
    }
  }

  lemma {:induction false} RecordedHalf(provider: Provider, at: nat, chunk: Chunk, maxTokens: int, depth: nat,
                                        leaf: Leaf)
    requires depth < MAX_RECHUNK_DEPTH
    requires leaf in ProcessHalves(provider, at, chunk, maxTokens, depth).leaves && leaf.Called?
    ensures IsComplete(leaf.response, provider, ProcessHalves(provider, at, chunk, maxTokens, depth).next, maxTokens,
                       depth + leaf.chunk.subIndex - chunk.subIndex)
    decreases MAX_RECHUNK_DEPTH - depth - 1, 1
  {
    var half, from := HalfOfLeaf(provider, at, chunk, maxTokens, depth, leaf);
    RecordedIsComplete(provider, from, half, maxTokens, depth + 1, leaf);
    var next := Process(provider, from, half, maxTokens, depth + 1).next;
    var later := ProcessHalves(provider, at, chunk, maxTokens, depth).next;
    StaysComplete(leaf.response, provider, next, later, maxTokens, depth + leaf.chunk.subIndex - chunk.subIndex);
  }

  lemma HalfOfLeaf(provider: Provider, at: nat, chunk: Chunk, maxTokens: int, depth: nat, leaf: Leaf)
    returns (half: Chunk, from: nat)
    requires depth < MAX_RECHUNK_DEPTH && leaf in ProcessHalves(provider, at, chunk, maxTokens, depth).leaves
    ensures half.subIndex == chunk.subIndex + 1
    ensures leaf in Process(provider, from, half, maxTokens, depth + 1).leaves
    ensures Process(provider, from, half, maxTokens, depth + 1).next <=
            ProcessHalves(provider, at, chunk, maxTokens, depth).next
  {
    var halves := Halve(chunk);
    var m := Process(provider, at, halves.0, maxTokens, depth + 1);
    AbortedIff(provider, m.next, halves.1, maxTokens, depth + 1);
    half, from := if leaf in m.leaves then halves.0 else halves.1, if leaf in m.leaves then at else m.next;
  }

  /** The same over a run of document chunks. */
  lemma {:induction false} RunRecordsAreComplete(provider: Provider, at: nat, chunks: seq<Chunk>, maxTokens: int,
                                                 leaf: Leaf)
    requires forall n | 0 <= n < |chunks| :: chunks[n].subIndex == 0
    requires leaf in ProcessAll(provider, at, chunks, maxTokens).leaves && leaf.Called?
    ensures IsComplete(leaf.response, provider, ProcessAll(provider, at, chunks, maxTokens).next, maxTokens,
                       leaf.chunk.subIndex)
  {
    var rest, last := chunks[..|chunks| - 1], chunks[|chunks| - 1];
    var m := ProcessAll(provider, at, rest, maxTokens);
    AbortedIff(provider, m.next, last, maxTokens, 0);
    if leaf in m.leaves {
      RunRecordsAreComplete(provider, at, rest, maxTokens, leaf);
      var next := ProcessAll(provider, at, chunks, maxTokens).next;
      StaysComplete(leaf.response, provider, m.next, next, maxTokens, leaf.chunk.subIndex);
    } else {
      RecordedIsComplete(provider, m.next, last, maxTokens, 0, leaf);
    }
  }

  lemma ChunkPassageSurvives(provider: Provider, at: nat, chunks: seq<Chunk>, maxTokens: int, n: nat, t: string)
    returns (leaf: Leaf)
    requires n < |chunks| && Holds(chunks[n], t) && |t| <= OVERLAP_CHARS + 1
    requires var m := ProcessAll(provider, at, chunks, maxTokens); !m.aborted && After(m.leaves, EMPTY).failed == 0
    ensures leaf in ProcessAll(provider, at, chunks, maxTokens).leaves && leaf.Called? && Holds(leaf.chunk, t)
  {
    var from := RunOfChunk(provider, at, chunks, maxTokens, n);
    PassageReachesLeaf(provider, from, chunks[n], maxTokens, 0, t);
    leaf :| leaf in Process(provider, from, chunks[n], maxTokens, 0).leaves && Holds(leaf.chunk, t);
    LeavesAccounted(ProcessAll(provider, at, chunks, maxTokens).leaves, EMPTY);
  }

  /** No requirement is lost at a window or halving boundary: in a run without failures, every
      passage of at most 501 characters inside one section was read whole by a recorded call. */
  lemma PassageSurvives(pages: PageMap, headings: seq<Heading>, chunks: seq<Chunk>, provider: Provider, at: nat,
                        maxTokens: int, i: nat, p: nat, q: nat)
    returns (leaf: Leaf)
    requires AreHeadings(headings, |FullText(pages)|) && i < |Segments(headings, |FullText(pages)|)|
    requires var seg := Segments(headings, |FullText(pages)|)[i]; seg.start <= p < q <= seg.end
    requires q - p <= 501
    requires chunks == DocumentChunks(pages, headings, TARGET_CHARS, OVERLAP_CHARS)
    requires var m := ProcessAll(provider, at, chunks, maxTokens); !m.aborted && After(m.leaves, EMPTY).failed == 0
    ensures q <= |FullText(pages)|
    ensures leaf in ProcessAll(provider, at, chunks, maxTokens).leaves
    ensures leaf.Called? && Holds(leaf.chunk, FullText(pages)[p..q])
  {
    var n := DocumentChunkHolds(pages, headings, i, p, q);
    leaf := ChunkPassageSurvives(provider, at, chunks, maxTokens, n, FullText(pages)[p..q]);
  }

  lemma DocumentChunkHolds(pages: PageMap, headings: seq<Heading>, i: nat, p: nat, q: nat) returns (n: nat)
    requires AreHeadings(headings, |FullText(pages)|) && i < |Segments(headings, |FullText(pages)|)|
    requires var seg := Segments(headings, |FullText(pages)|)[i]; seg.start <= p < q <= seg.end
    requires q - p <= 501
    ensures q <= |FullText(pages)|
    ensures var chunks := DocumentChunks(pages, headings, TARGET_CHARS, OVERLAP_CHARS);
            n < |chunks| && Holds(chunks[n], FullText(pages)[p..q])
  {
    var chunks := DocumentChunks(pages, headings, TARGET_CHARS, OVERLAP_CHARS);
    var offset;
    n, offset := DocumentPassageInChunk(pages, headings, TARGET_CHARS, OVERLAP_CHARS, i, p, q);
    assert Reads(chunks[n], offset, FullText(pages)[p..q]);
  }

  // ------------------------------------------------- the imperative miner

  class ModelClient {
    const provider: Provider
    var served: nat

    constructor (provider: Provider)
      ensures this.provider == provider && served == 0
    {
      this.provider := provider;
      served := 0;
    }

    method Complete() returns (event: ProviderEvent)
      modifies this
      ensures event == provider(old(served)) && served == old(served) + 1
    {
      event := provider(served);
      served := served + 1;
    }

    /** `_call_with_retries`; `None` stands for the exception that leaves it. */
    method CallWithRetries() returns (reply: Option<Response>)
      modifies this
      ensures (reply, served) == Call(provider, old(served), PROVIDER_RETRIES)
    {
      for attempt := 0 to PROVIDER_RETRIES
        invariant Call(provider, served, PROVIDER_RETRIES - attempt) == Call(provider, old(served), PROVIDER_RETRIES)
      {
        var event := Complete();
        match event
        case Reply(response) => return Some(response);
        case ClientError => return None;
        case OtherError => return None;
        case RateLimited =>
        case Unavailable =>
      }
      return None;
    }

    /** The two tries for output that parses. */
    method AskTwice(maxTokens: int) returns (answer: Answer)
      modifies this
      ensures (answer, served) == Ask(provider, old(served), maxTokens, MALFORMED_TRIES)
    {
      for attempt := 0 to MALFORMED_TRIES
        invariant Ask(provider, served, maxTokens, MALFORMED_TRIES - attempt) ==
                  Ask(provider, old(served), maxTokens, MALFORMED_TRIES)
      {
        var reply := CallWithRetries();
        if reply.None? { return Raised; }
        if IsTruncated(reply.value, maxTokens) { return Truncated; }
        if reply.value.payload.Parsed? { return Answered(reply.value); }
      }
      return NeverParsed;
    }
  }

  class MineResult {
    var items: seq<MinedItem>
    var calls: seq<CallRecord>
    var failedChunks: nat

    constructor ()
      ensures State() == EMPTY
    {
      items, calls, failedChunks := [], [], 0;
    }

    function State(): Ledger
      reads this
    {
      Ledger(items, calls, failedChunks)
    }

    /** `_process_chunk`; `aborted` stands for the provider exception that leaves it. */
    method ProcessChunk(client: ModelClient, chunk: Chunk, maxTokens: int, depth: nat) returns (aborted: bool)
      modifies this, client
      ensures var m := Process(client.provider, old(client.served), chunk, maxTokens, depth);
              aborted == m.aborted && client.served == m.next && State() == After(m.leaves, old(State()))
      decreases MAX_RECHUNK_DEPTH - depth, 0
    {
      if EstimatedTooLong(chunk.text, maxTokens) && depth < MAX_RECHUNK_DEPTH {
        aborted := ProcessSubChunks(client, chunk, maxTokens, depth);
        return;
      }
      var answer := client.AskTwice(maxTokens);
      match answer
      case Raised => return true;
      case NeverParsed =>
        AfterLeaf(LeafFailed(chunk), State());
        failedChunks := failedChunks + 1;
        return false;
      case Truncated =>
        if depth < MAX_RECHUNK_DEPTH {
          aborted := ProcessSubChunks(client, chunk, maxTokens, depth);
          return;
        }
        AfterLeaf(LeafFailed(chunk), State());
        failedChunks := failedChunks + 1;
        return false;
      case Answered(response) =>
        if response.payload.Parsed? && |response.payload.items| > MAX_REQUIREMENTS_PER_CHUNK
           && depth < MAX_RECHUNK_DEPTH
        {
          aborted := ProcessSubChunks(client, chunk, maxTokens, depth);
          return;
        }
        Record(chunk, response);
        return false;
    }

    /** Appends the call record and its items. */
    method Record(chunk: Chunk, response: Response)
      modifies this
      ensures State() == After([Called(chunk, response)], old(State()))
    {
      AfterLeaf(Called(chunk, response), State());
      calls := calls + [RecordOf(chunk, response)];
      var requirements := LeafItems(Called(chunk, response));
      ghost var base := |items|;
      for pos := 0 to |requirements|
        invariant items == old(items) + PlaceAll(requirements[..pos], chunk, base) && |items| == base + pos
        invariant calls == old(calls) + [RecordOf(chunk, response)] && failedChunks == old(failedChunks)
      {
        assert requirements[..pos + 1][..pos] == requirements[..pos];
        var item := requirements[pos];
        items := items + [MinedItem(item.clauseId, item.section, CitedPage(item.page, chunk), item.text, item.excerpt,
                                    item.isRequirement, chunk.index, |items|)];
      }
      assert requirements[..|requirements|] == requirements;
    }

    /** The loop over the two halves. */
    method ProcessSubChunks(client: ModelClient, chunk: Chunk, maxTokens: int, depth: nat) returns (aborted: bool)
      requires depth < MAX_RECHUNK_DEPTH
      modifies this, client
      ensures var m := ProcessHalves(client.provider, old(client.served), chunk, maxTokens, depth);
              aborted == m.aborted && client.served == m.next && State() == After(m.leaves, old(State()))
      decreases MAX_RECHUNK_DEPTH - depth - 1, 1
    {
      var (first, second) := Halve(chunk);
      ghost var m := Process(client.provider, client.served, first, maxTokens, depth + 1);
      ghost var m' := Process(client.provider, m.next, second, maxTokens, depth + 1);
      AfterConcat(m.leaves, m'.leaves, State());
      aborted := ProcessChunk(client, first, maxTokens, depth + 1);
      if !aborted {
        aborted := ProcessChunk(client, second, maxTokens, depth + 1);
      }
    }
  }

  /** `mine_chunks`; on an exception the result is discarded by the caller. */
  method MineChunks(client: ModelClient, chunks: seq<Chunk>, maxTokens: int) returns (result: MineResult, aborted: bool)
    modifies client
    ensures fresh(result)
    ensures var m := ProcessAll(client.provider, old(client.served), chunks, maxTokens);
            aborted == m.aborted && client.served == m.next && result.State() == After(m.leaves, EMPTY)
  {
    result := new MineResult();
    aborted := false;
    ghost var start := client.served;
    for n := 0 to |chunks|
      invariant fresh(result)
      invariant var m := ProcessAll(client.provider, start, chunks[..n], maxTokens);
                !m.aborted && client.served == m.next && result.State() == After(m.leaves, EMPTY)
    {
      ghost var m := ProcessAll(client.provider, start, chunks[..n], maxTokens);
      ghost var m' := Process(client.provider, m.next, chunks[n], maxTokens, 0);
      ProcessAllStep(client.provider, start, chunks, maxTokens, n);
      AfterConcat(m.leaves, m'.leaves, EMPTY);
      aborted := result.ProcessChunk(client, chunks[n], maxTokens, 0);
      if aborted {
        AbortEndsRun(client.provider, start, chunks, maxTokens, n + 1);
        return;
      }
    }
    assert chunks[..|chunks|] == chunks;
  }

  lemma ProcessAllStep(provider: Provider, at: nat, chunks: seq<Chunk>, maxTokens: int, n: nat)
    requires n < |chunks| && !ProcessAll(provider, at, chunks[..n], maxTokens).aborted
    ensures var m := ProcessAll(provider, at, chunks[..n], maxTokens);
            var m' := Process(provider, m.next, chunks[n], maxTokens, 0);
            ProcessAll(provider, at, chunks[..n + 1], maxTokens) == Mined(m.leaves + m'.leaves, m'.next, m'.aborted)
  {
    assert chunks[..n + 1][..n] == chunks[..n];
  }

  /** Nothing after an exception is processed. */
  lemma {:induction false} AbortEndsRun(provider: Provider, at: nat, chunks: seq<Chunk>, maxTokens: int, n: nat)
    requires n <= |chunks| && ProcessAll(provider, at, chunks[..n], maxTokens).aborted
    ensures ProcessAll(provider, at, chunks, maxTokens) == ProcessAll(provider, at, chunks[..n], maxTokens)
  {
    if n == |chunks| {
      assert chunks[..n] == chunks;
    } else {
      var rest := chunks[..|chunks| - 1];
      assert rest[..n] == chunks[..n];
      AbortEndsRun(provider, at, rest, maxTokens, n);
    }
  }
}
