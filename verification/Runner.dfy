/** One extraction run: read, mine, filter, locate, audit, persist; refuse partial results. */
module Runner {
  import opened Basics
  import opened Pages
  import opened FuzzyMatch
  import opened Chunking
  import opened Mining
  import opened Audit
  import opened Matrix

  datatype Stage = Reading | Extracting | Auditing | Ready

  datatype Cause = Unreadable | TooManyChunks | ProviderError | Incomplete(failedChunks: nat)

  datatype RunResult = Finished(count: nat) | Stopped(cause: Cause)

  datatype Session = Session(provider: Provider, at: nat, maxTokens: int)

  datatype MiningResult = Complete(ledger: Ledger) | Refused(cause: Cause)

  /** The mining stage's result; only a complete one goes on. */
  ghost function MiningOf(pages: PageMap, headings: seq<Heading>, session: Session): MiningResult
    requires AreHeadings(headings, |FullText(pages)|)
  {
    MiningOfChunks(DocumentChunks(pages, headings, 6000, 500), session)
  }

  ghost function MiningOfChunks(chunks: seq<Chunk>, session: Session): MiningResult {
    Judged(|chunks|, ProcessAll(session.provider, session.at, chunks, session.maxTokens))
  }

  ghost function Judged(chunkCount: nat, m: Mined): MiningResult {
    if chunkCount > MAX_CHUNKS then Refused(TooManyChunks)
    else if m.aborted then Refused(ProviderError)
    else if After(m.leaves, EMPTY).failed > 0 then Refused(Incomplete(After(m.leaves, EMPTY).failed))
    else Complete(After(m.leaves, EMPTY))
  }

  ghost function AuditOf(items: seq<MinedItem>, pages: PageMap, matcher: Matcher): AuditOutcome {
    Audited(LocatedAll(Select(items, IsRequirement), NormalizePages(pages), MAX_RATIO, matcher),
            Auditor(NormalizePages(pages), MAX_RATIO, matcher))
  }

  /** What a complete run leaves: the passed items merged into the stored rows, the others on the
      lists of dropped lines. */
  ghost predicate IsPublished(ledger: Ledger, pages: PageMap, matcher: Matcher, n: Normalizers,
                              pre: map<Id, Requirement>, order: seq<Id>, base: Id, rows: map<Id, Requirement>,
                              ids: seq<Id>, kept: seq<Id>)
  {
    IsMerged(pre, order, Survivors(SortByOrder(AuditOf(ledger.items, pages, matcher).passed, Itself), n),
             OutputIds(ledger.calls, base), n, rows, ids, kept)
  }

  ghost predicate AreDropped(ledger: Ledger, pages: PageMap, matcher: Matcher, lines: seq<FilteredLine>,
                             drops: seq<AuditDrop>)
  {
    && drops == DropsOf(SortByOrder(AuditOf(ledger.items, pages, matcher).failures, FailedItem))
    && lines == LinesOf(SortByOrder(Select(ledger.items, IsNoise), Itself))
  }

  class Extraction {
    const matrix: Matrix
    /** The key normalisers; the program's are `Reprocess.SOURCE`. */
    const n: Normalizers
    const run: nat
    var runStage: Stage
    var rfpState: Stage
    /** The stages entered, in order. */
    ghost var trail: seq<Stage>

    constructor (matrix: Matrix, n: Normalizers, run: nat)
      ensures this.matrix == matrix && this.n == n && this.run == run && trail == []
    {
      this.matrix, this.n, this.run := matrix, n, run;
      runStage, rfpState, trail := Reading, Reading, [];
    }

    ghost predicate MatrixIsAsIn(rows: map<Id, Requirement>, lines: seq<FilteredLine>, drops: seq<AuditDrop>,
                                 raw: map<Id, RawOutput>)
      reads this, matrix
    {
      matrix.rows == rows && matrix.lines == lines && matrix.drops == drops && matrix.rawOutputs == raw
    }

    method Enter(stage: Stage)
      modifies this
      ensures runStage == stage && rfpState == stage && trail == old(trail) + [stage]
    {
      runStage, rfpState, trail := stage, stage, trail + [stage];
    }

    /** Chunk and mine. */
    method Mine(pages: PageMap, headings: seq<Heading>, client: ModelClient, maxTokens: int) returns (r: MiningResult)
      requires AreHeadings(headings, |FullText(pages)|) && HasText(pages)
      modifies client
      ensures r == MiningOf(pages, headings, Session(client.provider, old(client.served), maxTokens))
    {
      var chunked := BuildChunks(pages, headings, TARGET_CHARS, OVERLAP_CHARS, MAX_CHUNKS);
      if chunked.ChunkCapExceeded? { return Refused(TooManyChunks); }
      var result, aborted := MineChunks(client, chunked.chunks, maxTokens);
      if aborted { return Refused(ProviderError); }
      if result.failedChunks > 0 { return Refused(Incomplete(result.failedChunks)); }
      return Complete(result.State());
    }

    /** Filter, locate and audit. */
    method Verify(items: seq<MinedItem>, pages: PageMap, matcher: Matcher)
      returns (audit: AuditOutcome, filtered: seq<MinedItem>)
      ensures audit == AuditOf(items, pages, matcher) && filtered == Select(items, IsNoise)
    {
      var split := SplitRequirements(items);
      var n := |split.requirements|;
      var binding := new MinedItem[n](k requires 0 <= k < n => split.requirements[k]);
      assert binding[..] == split.requirements;
      LocateSourcePages(binding, pages, MAX_RATIO, matcher);
      audit := AuditItems(binding[..], pages, MAX_RATIO, matcher);
      filtered := split.filtered;
    }

    method Publish(ledger: Ledger, pages: PageMap, matcher: Matcher, order: seq<Id>)
      returns (count: nat, ids: seq<Id>, kept: seq<Id>)
      requires matrix.Valid() && Enumerates(order, matrix.rows)
      modifies matrix
      ensures matrix.Valid() && count == |matrix.rows|
      ensures IsPublished(ledger, pages, matcher, n, old(matrix.rows), order, old(matrix.nextOutput), matrix.rows, ids,
                kept)
      ensures AreDropped(ledger, pages, matcher, matrix.lines, matrix.drops)
    {
      var audit, filtered := Verify(ledger.items, pages, matcher);
      count, ids, kept := matrix.Persist(run, ledger.calls, audit, filtered, n, order);
    }

    /** The stages after reading, for a document with text. */
    method ExtractAndAudit(pages: PageMap, headings: seq<Heading>, client: ModelClient, maxTokens: int,
                           matcher: Matcher, order: seq<Id>)
      returns (r: RunResult, ids: seq<Id>, kept: seq<Id>)
      requires HasText(pages) && AreHeadings(headings, |FullText(pages)|)
      requires matrix.Valid() && Enumerates(order, matrix.rows)
      modifies this, matrix, client
      ensures matrix.Valid()
      ensures match MiningOf(pages, headings, Session(client.provider, old(client.served), maxTokens))
              case Refused(cause) =>
                && r == Stopped(cause) && trail == old(trail) + [Extracting]
                && MatrixIsAsIn(old(matrix.rows), old(matrix.lines), old(matrix.drops), old(matrix.rawOutputs))
              case Complete(ledger) =>
                && r == Finished(|matrix.rows|) && trail == old(trail) + [Extracting] + [Auditing] + [Ready]
                && runStage == rfpState == Ready
                && IsPublished(ledger, pages, matcher, n, old(matrix.rows), order, old(matrix.nextOutput), matrix.rows,
                    ids, kept)
                && AreDropped(ledger, pages, matcher, matrix.lines, matrix.drops)
    {
      ids, kept := [], [];
      Enter(Extracting);
      var mined := Mine(pages, headings, client, maxTokens);
      if mined.Refused? { return Stopped(mined.cause), [], []; }
      Enter(Auditing);
      var count;
      count, ids, kept := Publish(mined.ledger, pages, matcher, order);
      Enter(Ready);
      r := Finished(count);
    }

    /** `run_extraction`. `read` is the page map, unless reading the file failed. */
    method Run(read: Option<PageMap>, headings: seq<Heading>, client: ModelClient, maxTokens: int, matcher: Matcher,
               order: seq<Id>)
      returns (r: RunResult, ids: seq<Id>, kept: seq<Id>)
      requires read.Some? ==> AreHeadings(headings, |FullText(read.value)|)
      requires matrix.Valid() && Enumerates(order, matrix.rows)
      modifies this, matrix, client
      ensures matrix.Valid()
      ensures r.Finished? ==> runStage == rfpState == Ready
      ensures read.None? ==> r == Stopped(Unreadable) && trail == old(trail) + [Reading]
      ensures read.Some? && !HasText(read.value) ==> r == Finished(0) && trail == old(trail) + [Reading] + [Ready]
      ensures r.Stopped? || !HasText(read.value) ==>
                MatrixIsAsIn(old(matrix.rows), old(matrix.lines), old(matrix.drops), old(matrix.rawOutputs))
      ensures read.Some? && HasText(read.value) ==>
                match MiningOf(read.value, headings, Session(client.provider, old(client.served), maxTokens))
                case Refused(cause) => r == Stopped(cause) && trail == old(trail) + [Reading] + [Extracting]
                case Complete(ledger) =>
                  && r == Finished(|matrix.rows|)
                  && trail == old(trail) + [Reading] + [Extracting] + [Auditing] + [Ready]
                  && IsPublished(ledger, read.value, matcher, n, old(matrix.rows), order, old(matrix.nextOutput),
                      matrix.rows, ids, kept)
                  && AreDropped(ledger, read.value, matcher, matrix.lines, matrix.drops)
    {
      Enter(Reading);
      if read.None? { return Stopped(Unreadable), [], []; }
      if !HasText(read.value) {
        Enter(Ready);
        return Finished(0), [], [];
      }
      r, ids, kept := ExtractAndAudit(read.value, headings, client, maxTokens, matcher, order);
    }
  }

  // ------------------------------------------------- what a published run guarantees

  /** Every generated row quotes, with its excerpt and with its body, the page it cites. */
  lemma EveryRowQuotesItsPage(ledger: Ledger, pages: PageMap, matcher: Matcher, n: Normalizers,
                              pre: map<Id, Requirement>, order: seq<Id>, base: Id, rows: map<Id, Requirement>,
                              ids: seq<Id>, kept: seq<Id>, id: Id)
    requires IsPublished(ledger, pages, matcher, n, pre, order, base, rows, ids, kept) && id in ids
    ensures id in rows && CitationHolds(rows[id].excerpt, rows[id].body, rows[id].page, pages, MAX_RATIO)
  {
    var passed := AuditOf(ledger.items, pages, matcher).passed;
    var item := RowOfItem(passed, n, pre, order, OutputIds(ledger.calls, base), rows, ids, kept, id);
    PassedItemIsCited(ledger.items, pages, matcher, item);
  }

  lemma RowOfItem(passed: seq<MinedItem>, n: Normalizers, pre: map<Id, Requirement>, order: seq<Id>,
                  outputs: map<int, Id>, rows: map<Id, Requirement>, ids: seq<Id>, kept: seq<Id>,
                  id: Id)
    returns (item: MinedItem)
    requires IsMerged(pre, order, Survivors(SortByOrder(passed, Itself), n), outputs, n, rows, ids, kept) && id in ids
    ensures item in passed && id in rows
    ensures rows[id].excerpt == item.excerpt && rows[id].body == item.text && rows[id].page == item.page
  {
    var sorted := SortByOrder(passed, Itself);
    var items := Survivors(sorted, n);
    var i :| 0 <= i < |ids| && ids[i] == id;
    item := items[i];
    SortOrders(passed, Itself);
    SurvivorsOrder(sorted, n);
    assert item in Survivors(sorted, n) && item in sorted;
    assert item in multiset(sorted);
  }

  lemma PassedItemIsCited(items: seq<MinedItem>, pages: PageMap, matcher: Matcher, item: MinedItem)
    requires item in AuditOf(items, pages, matcher).passed
    ensures CitationHolds(item.excerpt, item.text, item.page, pages, MAX_RATIO)
  {
    var verdict := Auditor(NormalizePages(pages), MAX_RATIO, matcher);
    AuditConserves(LocatedAll(Select(items, IsRequirement), NormalizePages(pages), MAX_RATIO, matcher), verdict);
    assert verdict(item).None?;
    PassedCitationHolds(item, pages, MAX_RATIO, matcher);
  }

  /** Nothing that was mined disappears: each item is a filtered line, or, after its page was
      located, a passed item or a dropped one. */
  lemma MinedItemsAreConserved(items: seq<MinedItem>, pages: PageMap, matcher: Matcher)
    ensures var binding := Select(items, IsRequirement);
            var located := LocatedAll(binding, NormalizePages(pages), MAX_RATIO, matcher);
            var audit := AuditOf(items, pages, matcher);
            && multiset(binding) + multiset(Select(items, IsNoise)) == multiset(items)
            && multiset(audit.passed) + multiset(Audit.FailedItems(audit.failures)) == multiset(located)
            && (forall item | item in binding :: item.isRequirement)
            && (forall item | item in Select(items, IsNoise) :: !item.isRequirement)
            && |located| == |binding|
            && forall k | 0 <= k < |binding| :: located[k] == binding[k].(page := located[k].page)
  {
    SelectConserves(items, IsRequirement, IsNoise);
    SelectConserves(items, IsNoise, IsRequirement);
    AuditConserves(LocatedAll(Select(items, IsRequirement), NormalizePages(pages), MAX_RATIO, matcher),
                   Auditor(NormalizePages(pages), MAX_RATIO, matcher));
  }

  /** The counts of a published run add up to what was mined, duplicates aside. */
  lemma CountsAddUp(ledger: Ledger, pages: PageMap, matcher: Matcher, lines: seq<FilteredLine>, drops: seq<AuditDrop>)
    requires AreDropped(ledger, pages, matcher, lines, drops)
    ensures |lines| + |drops| + |AuditOf(ledger.items, pages, matcher).passed| == |ledger.items|
  {
    var audit := AuditOf(ledger.items, pages, matcher);
    MinedItemsAreConserved(ledger.items, pages, matcher);
    SortOrders(audit.failures, FailedItem);
    SortOrders(Select(ledger.items, IsNoise), Itself);
    FailedItemsCount(audit.failures);
    var located := LocatedAll(Select(ledger.items, IsRequirement), NormalizePages(pages), MAX_RATIO, matcher);
    assert |multiset(located)| == |multiset(audit.passed)| + |multiset(Audit.FailedItems(audit.failures))|;
    assert |multiset(ledger.items)| == |multiset(Select(ledger.items, IsRequirement))|
        + |multiset(Select(ledger.items, IsNoise))|;
  }

  lemma {:induction false} FailedItemsCount(failures: seq<AuditFailure>)
    ensures |Audit.FailedItems(failures)| == |failures|
  {
    if failures != [] {
      FailedItemsCount(failures[..|failures| - 1]);
    }
  }

  /** A published run read the whole document: each passage of at most 501 characters inside one
      section was whole in the text of a recorded call. */
  lemma PublishedRunReadEverything(pages: PageMap, headings: seq<Heading>, session: Session, i: nat, p: nat, q: nat)
    returns (leaf: Leaf)
    requires AreHeadings(headings, |FullText(pages)|) && i < |Segments(headings, |FullText(pages)|)|
    requires MiningOf(pages, headings, session).Complete?
    requires var seg := Segments(headings, |FullText(pages)|)[i]; seg.start <= p < q <= seg.end
    requires q - p <= 501
    ensures q <= |FullText(pages)|
    ensures leaf.Called? && Holds(leaf.chunk, FullText(pages)[p..q])
    ensures RecordOf(leaf.chunk, leaf.response) in MiningOf(pages, headings, session).ledger.calls
  {
    var chunks := DocumentChunks(pages, headings, TARGET_CHARS, OVERLAP_CHARS);
    var m := ProcessAll(session.provider, session.at, chunks, session.maxTokens);
    leaf := PassageSurvives(pages, headings, chunks, session.provider, session.at, session.maxTokens, i, p, q);
    CalledLeafIsRecorded(m.leaves, leaf);
  }

  /** In terms of the document: every passage of at most 501 characters of a page that no heading
      divides was whole in the text of a recorded call. */
  lemma {:induction false} PublishedRunReadEveryPage(pages: PageMap, headings: seq<Heading>, session: Session, i: nat,
                                                     u: nat, v: nat)
    returns (leaf: Leaf)
    requires AreHeadings(headings, |FullText(pages)|) && MiningOf(pages, headings, session).Complete?
    requires IsUndivided(pages, headings, i, u, v) && v - u <= 501
    ensures leaf.Called? && Holds(leaf.chunk, pages[i].text[u..v])
    ensures RecordOf(leaf.chunk, leaf.response) in MiningOf(pages, headings, session).ledger.calls
  {
    var s, p, q := SegmentOfPage(pages, headings, i, u, v);
    leaf := PublishedRunReadEverything(pages, headings, session, s, p, q);
  }

  lemma JudgedIff(chunkCount: nat, m: Mined)
    ensures Judged(chunkCount, m).Complete? <==>
              chunkCount <= 60 && !m.aborted && forall leaf | leaf in m.leaves :: leaf.Called?
  {
    LeavesAccounted(m.leaves, EMPTY);
  }

  /** The last request of a run got a reply, if there was any. */
  ghost predicate EndsWithReply(provider: Provider, chunks: seq<Chunk>, m: Mined) {
    chunks == [] || (m.next > 0 && provider(m.next - 1).Reply?)
  }

  lemma NotAbortedIff(provider: Provider, at: nat, chunks: seq<Chunk>, m: Mined)
    requires if chunks == [] then !m.aborted else MinedEndsRight(provider, at, m)
    ensures !m.aborted <==> EndsWithReply(provider, chunks, m)
  {
  }

  /** Mining is complete exactly with at most 60 chunks, a reply to the last request, and no failed
      leaf. */
  lemma {:induction false} MiningIsCompleteIff(chunks: seq<Chunk>, session: Session)
    ensures var m := ProcessAll(session.provider, session.at, chunks, session.maxTokens);
            MiningOfChunks(chunks, session).Complete? <==>
            && |chunks| <= 60 && EndsWithReply(session.provider, chunks, m)
            && forall leaf | leaf in m.leaves :: leaf.Called?
  {
    var m := ProcessAll(session.provider, session.at, chunks, session.maxTokens);
    RunAbortedIff(session.provider, session.at, chunks, session.maxTokens);
    NotAbortedIff(session.provider, session.at, chunks, m);
    JudgedIff(|chunks|, m);
  }

  lemma {:induction false} CalledLeafIsRecorded(leaves: seq<Leaf>, leaf: Leaf)
    requires leaf in leaves && leaf.Called?
    ensures RecordOf(leaf.chunk, leaf.response) in After(leaves, EMPTY).calls
  {
    var rest, last := leaves[..|leaves| - 1], leaves[|leaves| - 1];
    assert leaves == rest + [last];
    if leaf in rest {
      CalledLeafIsRecorded(rest, leaf);
    }
  }
}
