/** The noise filter, the page locator and the citation audit. */
module Audit {
  import opened Basics
  import opened Text
  import opened Pages
  import opened FuzzyMatch
  import opened Mining

  datatype AuditReason =
    | ExcerptEmpty
    | ExcerptNotVerified(page: int)
    | BodyEmpty
    | BodyNotVerified(page: int)
    | PageOutsideDocument(page: int)

  datatype AuditFailure = AuditFailure(item: MinedItem, reason: AuditReason)

  datatype AuditOutcome = AuditOutcome(passed: seq<MinedItem>, failures: seq<AuditFailure>)

  datatype FilterOutcome = FilterOutcome(requirements: seq<MinedItem>, filtered: seq<MinedItem>)

  /** What the audit promises for a row: excerpt and body, normalised, are both quoted on the
      normalised text of the cited page. */
  ghost predicate CitationHolds(excerpt: string, body: string, page: int, pages: PageMap, ratio: Ratio) {
    match TextOf(pages, page)
    case None => false
    case Some(text) =>
      && NormalizeText(excerpt) != [] && QuotedOn(NormalizeText(excerpt), NormalizeText(text), ratio)
      && NormalizeText(body) != [] && QuotedOn(NormalizeText(body), NormalizeText(text), ratio)
  }

  // ------------------------------------------------------- noise filter

  /** The items for which `keep` holds, in order. */
  function Select(items: seq<MinedItem>, keep: MinedItem -> bool): seq<MinedItem> {
    if items == [] then []
    else Select(items[..|items| - 1], keep) + if keep(items[|items| - 1]) then [items[|items| - 1]] else []
  }

  predicate IsRequirement(item: MinedItem) { item.isRequirement }

  predicate IsNoise(item: MinedItem) { !item.isRequirement }

  /** Two complementary selections lose and duplicate nothing. */
  lemma {:induction false} SelectConserves(items: seq<MinedItem>, keep: MinedItem -> bool, drop: MinedItem -> bool)
    requires forall item | item in items :: keep(item) != drop(item)
    ensures multiset(Select(items, keep)) + multiset(Select(items, drop)) == multiset(items)
    ensures forall item | item in Select(items, keep) :: item in items && keep(item)
  {
    if items != [] {
      var rest, last := items[..|items| - 1], items[|items| - 1];
      assert items == rest + [last];
      SelectConserves(rest, keep, drop);
    }
  }

  method SplitRequirements(items: seq<MinedItem>) returns (r: FilterOutcome)
    ensures r.requirements == Select(items, IsRequirement) && r.filtered == Select(items, IsNoise)
    ensures multiset(r.requirements) + multiset(r.filtered) == multiset(items)
    ensures forall item | item in r.requirements :: item.isRequirement
    ensures forall item | item in r.filtered :: !item.isRequirement
  {
    var requirements, filtered: seq<MinedItem> := [], [];
    for k := 0 to |items|
      invariant requirements == Select(items[..k], IsRequirement) && filtered == Select(items[..k], IsNoise)
    {
      assert items[..k + 1][..k] == items[..k];
      if items[k].isRequirement {
        requirements := requirements + [items[k]];
      } else {
        filtered := filtered + [items[k]];
      }
    }
    assert items[..|items|] == items;
    SelectConserves(items, IsRequirement, IsNoise);
    SelectConserves(items, IsNoise, IsRequirement);
    return FilterOutcome(requirements, filtered);
  }

  // ------------------------------------------------------- verification

  /** `_verification_failure` against a normalised page text; the fuzzy detail is left out. */
  ghost function VerificationFailure(item: MinedItem, pageText: string, ratio: Ratio,
                                     matcher: Matcher): Option<AuditReason>
  {
    var excerpt, body := NormalizeText(item.excerpt), NormalizeText(item.text);
    if excerpt == [] then Some(ExcerptEmpty)
    else if !FuzzyAccepts(excerpt, pageText, ratio, matcher) then Some(ExcerptNotVerified(item.page))
    else if body == [] then Some(BodyEmpty)
    else if !FuzzyAccepts(body, pageText, ratio, matcher) then Some(BodyNotVerified(item.page))
    else None
  }

  method CheckItem(item: MinedItem, pageText: string, ratio: Ratio, matcher: Matcher)
    returns (failure: Option<AuditReason>)
    ensures failure == VerificationFailure(item, pageText, ratio, matcher)
  {
    var excerpt := NormalizeText(item.excerpt);
    if excerpt == [] { return Some(ExcerptEmpty); }
    var ok, _ := FuzzyContains(excerpt, pageText, ratio, matcher);
    if !ok { return Some(ExcerptNotVerified(item.page)); }
    var body := NormalizeText(item.text);
    if body == [] { return Some(BodyEmpty); }
    var bodyOk, _ := FuzzyContains(body, pageText, ratio, matcher);
    if !bodyOk { return Some(BodyNotVerified(item.page)); }
    return None;
  }

  function NormalizePages(pages: PageMap): (r: PageMap)
    ensures |r| == |pages|
    ensures forall i | 0 <= i < |pages| :: r[i] == Page(pages[i].number, NormalizeText(pages[i].text))
  {
    seq(|pages|, i requires 0 <= i < |pages| => Page(pages[i].number, NormalizeText(pages[i].text)))
  }

  /** The item verifies on page `i` of the normalised document. */
  ghost predicate VerifiesOn(item: MinedItem, norm: seq<Page>, i: int, ratio: Ratio, matcher: Matcher) {
    0 <= i < |norm| && VerificationFailure(item, norm[i].text, ratio, matcher).None?
  }

  // --------------------------------------------------------- the locator

  /** The indices below `n` for which `p` holds, in order. */
  function Where(p: int -> bool, n: nat): seq<nat> {
    if n == 0 then [] else Where(p, n - 1) + if p(n - 1) then [n - 1] else []
  }

  ghost predicate OnlyAt(p: int -> bool, n: nat, i: int) {
    0 <= i < n && p(i) && forall j | 0 <= j < n && j != i :: !p(j)
  }

  lemma {:induction false} WhereFacts(p: int -> bool, n: nat)
    ensures Where(p, n) == [] <==> forall j | 0 <= j < n :: !p(j)
    ensures |Where(p, n)| == 1 ==> OnlyAt(p, n, Where(p, n)[0])
    ensures |Where(p, n)| != 1 ==> forall i :: !OnlyAt(p, n, i)
  {
    if n > 0 {
      WhereFacts(p, n - 1);
      forall i | OnlyAt(p, n, i) && !p(n - 1) ensures OnlyAt(p, n - 1, i) {}
    }
  }

  ghost function Verifier(item: MinedItem, norm: seq<Page>, ratio: Ratio, matcher: Matcher): int -> bool {
    i => VerifiesOn(item, norm, i, ratio, matcher)
  }

  /** The item, moved to the one page that verifies it if there is exactly one. */
  ghost function Located(item: MinedItem, norm: seq<Page>, ratio: Ratio, matcher: Matcher): MinedItem {
    var m := Where(Verifier(item, norm, ratio, matcher), |norm|);
    if |m| == 1 && m[0] < |norm| then item.(page := norm[m[0]].number) else item
  }

  ghost function LocatedAll(items: seq<MinedItem>, norm: seq<Page>, ratio: Ratio, matcher: Matcher): (r: seq<MinedItem>)
    ensures |r| == |items|
  {
    seq(|items|, k requires 0 <= k < |items| => Located(items[k], norm, ratio, matcher))
  }

  lemma LocatedAllAt(items: seq<MinedItem>, norm: seq<Page>, ratio: Ratio, matcher: Matcher, k: nat)
    requires k < |items|
    ensures LocatedAll(items, norm, ratio, matcher)[k] == Located(items[k], norm, ratio, matcher)
  {
  }

  /** Rewrites the page of each item in place. */
  method LocateSourcePages(items: array<MinedItem>, pages: PageMap, ratio: Ratio, matcher: Matcher)
    modifies items
    ensures items[..] == LocatedAll(old(items[..]), NormalizePages(pages), ratio, matcher)
  {
    var norm: seq<Page> := NormalizePages(pages);
    ghost var target := LocatedAll(items[..], norm, ratio, matcher);
    for k := 0 to items.Length
      invariant forall m | 0 <= m < k :: items[m] == target[m]
      invariant forall m | k <= m < items.Length :: items[m] == old(items[m])
    {
      LocatedAllAt(old(items[..]), norm, ratio, matcher, k);
      LocateOne(items, k, norm, ratio, matcher);
    }
  }

  method LocateOne(items: array<MinedItem>, k: nat, norm: seq<Page>, ratio: Ratio, matcher: Matcher)
    requires k < items.Length
    modifies items
    ensures items[k] == Located(old(items[k]), norm, ratio, matcher)
    ensures forall m | 0 <= m < items.Length && m != k :: items[m] == old(items[m])
  {
    var matches := MatchingPages(items[k], norm, ratio, matcher);
    WhereFacts(Verifier(items[k], norm, ratio, matcher), |norm|);
    if |matches| == 1 {
      items[k] := items[k].(page := norm[matches[0]].number);
    }
  }

  method CheckPage(item: MinedItem, norm: seq<Page>, n: nat, ratio: Ratio, matcher: Matcher, ghost p: int -> bool)
    returns (verifies: bool)
    requires n < |norm| && p == Verifier(item, norm, ratio, matcher)
    ensures verifies == p(n)
  {
    var failure := CheckItem(item, norm[n].text, ratio, matcher);
    verifies := failure.None?;
  }

  method MatchingPages(item: MinedItem, norm: seq<Page>, ratio: Ratio, matcher: Matcher) returns (matches: seq<nat>)
    ensures matches == Where(Verifier(item, norm, ratio, matcher), |norm|)
  {
    matches := [];
    ghost var p := Verifier(item, norm, ratio, matcher);
    for n := 0 to |norm|
      invariant matches == Where(p, n)
    {
      var verifies := CheckPage(item, norm, n, ratio, matcher, p);
      if verifies {
        matches := matches + [n];
      }
    }
  }

  // ----------------------------------------------------------- the audit

  /** The reason the item is dropped, if it is. */
  ghost function AuditVerdict(item: MinedItem, norm: seq<Page>, ratio: Ratio, matcher: Matcher): Option<AuditReason> {
    match TextOf(norm, item.page)
    case None => Some(PageOutsideDocument(item.page))
    case Some(text) => VerificationFailure(item, text, ratio, matcher)
  }

  type Verdict = MinedItem -> Option<AuditReason>

  ghost function Auditor(norm: seq<Page>, ratio: Ratio, matcher: Matcher): Verdict {
    item => AuditVerdict(item, norm, ratio, matcher)
  }

  ghost function Audited(items: seq<MinedItem>, verdict: Verdict): AuditOutcome {
    if items == [] then AuditOutcome([], [])
    else
      var before := Audited(items[..|items| - 1], verdict);
      var item := items[|items| - 1];
      match verdict(item)
      case None => before.(passed := before.passed + [item])
      case Some(reason) => before.(failures := before.failures + [AuditFailure(item, reason)])
  }

  method AuditItems(items: seq<MinedItem>, pages: PageMap, ratio: Ratio, matcher: Matcher) returns (r: AuditOutcome)
    ensures r == Audited(items, Auditor(NormalizePages(pages), ratio, matcher))
  {
    var norm: seq<Page> := NormalizePages(pages);
    var passed: seq<MinedItem>, failures: seq<AuditFailure> := [], [];
    for k := 0 to |items|
      invariant AuditOutcome(passed, failures) == Audited(items[..k], Auditor(norm, ratio, matcher))
    {
      assert items[..k + 1][..k] == items[..k];
      var item := items[k];
      var text := TextOf(norm, item.page);
      var failure := Some(PageOutsideDocument(item.page));
      if text.Some? {
        failure := CheckItem(item, text.value, ratio, matcher);
      }
      assert failure == Auditor(norm, ratio, matcher)(item);
      if failure.None? {
        passed := passed + [item];
      } else {
        failures := failures + [AuditFailure(item, failure.value)];
      }
    }
    assert items[..|items|] == items;
    return AuditOutcome(passed, failures);
  }

  function FailedItems(failures: seq<AuditFailure>): seq<MinedItem> {
    if failures == [] then [] else FailedItems(failures[..|failures| - 1]) + [failures[|failures| - 1].item]
  }

  /** Each item is passed or dropped with its reason; none is lost or duplicated. */
  lemma {:induction false} AuditConserves(items: seq<MinedItem>, verdict: Verdict)
    ensures var r := Audited(items, verdict);
            && multiset(r.passed) + multiset(FailedItems(r.failures)) == multiset(items)
            && (forall item | item in r.passed :: item in items && verdict(item).None?)
            && (forall f | f in r.failures :: f.item in items && verdict(f.item) == Some(f.reason))
  {
    if items != [] {
      var rest, item := items[..|items| - 1], items[|items| - 1];
      assert items == rest + [item];
      AuditConserves(rest, verdict);
      var before := Audited(rest, verdict);
      if verdict(item).Some? {
        var failures := before.failures + [AuditFailure(item, verdict(item).value)];
        assert failures[..|failures| - 1] == before.failures;
      }
    }
  }

  // ------------------------------------------------------ what it means

  lemma NormalizedTextOf(pages: PageMap, number: int)
    ensures TextOf(NormalizePages(pages), number) ==
            match TextOf(pages, number) case None => None case Some(text) => Some(NormalizeText(text))
  {
    var norm := NormalizePages(pages);
    TextOfSome(pages, number);
    TextOfSome(norm, number);
    if i :| 0 <= i < |pages| && pages[i].number == number {
      TextOfPage(pages, i);
      TextOfPage(norm, i);
    }
  }

  /** An item that passes the audit quotes its page. */
  lemma PassedCitationHolds(item: MinedItem, pages: PageMap, ratio: Ratio, matcher: Matcher)
    requires AuditVerdict(item, NormalizePages(pages), ratio, matcher).None?
    ensures CitationHolds(item.excerpt, item.text, item.page, pages, ratio)
  {
    NormalizedTextOf(pages, item.page);
    var text := TextOf(NormalizePages(pages), item.page).value;
    AcceptedIsQuoted(NormalizeText(item.excerpt), text, ratio, matcher);
    AcceptedIsQuoted(NormalizeText(item.text), text, ratio, matcher);
  }

  /** The excerpt, or the body, is quoted on the page: not empty, and accepted by the search. */
  ghost predicate IsAccepted(text: string, page: string, matcher: Matcher) {
    NormalizeText(text) != [] && FuzzyAccepts(NormalizeText(text), NormalizeText(page), MAX_RATIO, matcher)
  }

  /** The verdict in terms of the document: an item passes exactly if its page exists and both its
      excerpt and its body are accepted there; otherwise the reason names the first thing amiss. */
  lemma VerdictIff(item: MinedItem, pages: PageMap, matcher: Matcher)
    ensures var verdict := AuditVerdict(item, NormalizePages(pages), MAX_RATIO, matcher);
            var text := TextOf(pages, item.page);
            && (verdict == None <==>
                  && text.Some?
                  && IsAccepted(item.excerpt, text.value, matcher) && IsAccepted(item.text, text.value, matcher))
            && (verdict == Some(PageOutsideDocument(item.page)) <==> text.None?)
            && (verdict == Some(ExcerptEmpty) <==> text.Some? && NormalizeText(item.excerpt) == [])
            && (verdict == Some(ExcerptNotVerified(item.page)) <==>
                  text.Some? && NormalizeText(item.excerpt) != [] && !IsAccepted(item.excerpt, text.value, matcher))
            && (verdict == Some(BodyEmpty) <==>
                  text.Some? && IsAccepted(item.excerpt, text.value, matcher) && NormalizeText(item.text) == [])
            && (verdict == Some(BodyNotVerified(item.page)) <==>
                  text.Some? && IsAccepted(item.excerpt, text.value, matcher)
                  && NormalizeText(item.text) != [] && !IsAccepted(item.text, text.value, matcher))
  {
    NormalizedTextOf(pages, item.page);
  }

  lemma VerdictOnPage(item: MinedItem, norm: PageMap, i: nat, ratio: Ratio, matcher: Matcher)
    requires i < |norm| && norm[i].number == item.page
    ensures AuditVerdict(item, norm, ratio, matcher).None? <==> VerifiesOn(item, norm, i, ratio, matcher)
  {
    TextOfPage(norm, i);
  }

  lemma ClaimedPageIsAMatch(item: MinedItem, norm: PageMap, ratio: Ratio, matcher: Matcher) returns (j: nat)
    requires AuditVerdict(item, norm, ratio, matcher).None?
    ensures j < |norm| && norm[j].number == item.page && Verifier(item, norm, ratio, matcher)(j)
  {
    j := IndexOfPage(norm, item.page);
    VerdictOnPage(item, norm, j, ratio, matcher);
  }

  /** The claimed page matters to the reason only. */
  lemma VerifiesWhateverItClaims(item: MinedItem, page: int, norm: seq<Page>, i: int, ratio: Ratio, matcher: Matcher)
    ensures VerifiesOn(item.(page := page), norm, i, ratio, matcher) == VerifiesOn(item, norm, i, ratio, matcher)
  {
  }

  lemma MovedItemPasses(item: MinedItem, norm: PageMap, i: nat, ratio: Ratio, matcher: Matcher)
    requires i < |norm| && Verifier(item, norm, ratio, matcher)(i)
    ensures AuditVerdict(item.(page := norm[i].number), norm, ratio, matcher).None?
  {
    assert VerifiesOn(item, norm, i, ratio, matcher);
    VerifiesWhateverItClaims(item, norm[i].number, norm, i, ratio, matcher);
    VerdictOnPage(item.(page := norm[i].number), norm, i, ratio, matcher);
  }

  /** Exactly when a located item passes: its claimed page verifies it, or exactly one page does.
      So locating never loses an item that would have passed, and never moves one. */
  lemma LocatedPassesIff(item: MinedItem, norm: PageMap, ratio: Ratio, matcher: Matcher)
    ensures var located := Located(item, norm, ratio, matcher);
            && (AuditVerdict(located, norm, ratio, matcher).None?
                <==> AuditVerdict(item, norm, ratio, matcher).None?
                     || exists i :: OnlyAt(Verifier(item, norm, ratio, matcher), |norm|, i))
            && (AuditVerdict(item, norm, ratio, matcher).None? ==> located == item)
  {
    var p := Verifier(item, norm, ratio, matcher);
    WhereFacts(p, |norm|);
    if |Where(p, |norm|)| == 1 {
      MovedItemPasses(item, norm, Where(p, |norm|)[0], ratio, matcher);
    }
    if AuditVerdict(item, norm, ratio, matcher).None? {
      var j := ClaimedPageIsAMatch(item, norm, ratio, matcher);
    }
  }

  lemma IndexOfPage(pages: seq<Page>, number: int) returns (i: nat)
    requires TextOf(pages, number).Some?
    ensures i < |pages| && pages[i].number == number
  {
    TextOfSome(pages, number);
    i :| 0 <= i < |pages| && pages[i].number == number;
  }
}
