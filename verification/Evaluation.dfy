/** The evaluation harness: scoring one document, and adding up a corpus from rounded rates. */
module Evaluation {
  import opened Basics

  /** Rates are kept in ten-thousandths. */
  const SCALE := 10000

  // ------------------------------------------------------------- rounding

  /** The integer nearest to `a / b`, an even one in case of a tie. */
  function RoundDiv(a: int, b: int): int
    requires b > 0
  {
    var (floor, rest) := (a / b, a % b);
    if 2 * rest < b || (2 * rest == b && floor % 2 == 0) then floor else floor + 1
  }

  /** `round(k / n, 4)`. */
  function Rate(k: int, n: int): int
    requires n > 0
  {
    RoundDiv(SCALE * k, n)
  }

  /** `round(rate * n)`. */
  function Recovered(rate: int, n: int): int { RoundDiv(rate * n, SCALE) }

  lemma QuotientFacts(a: int, b: int)
    requires b > 0
    ensures a == b * (a / b) + a % b && 0 <= a % b < b
  {
  }

  lemma RoundDivIsNear(a: int, b: int)
    requires b > 0
    ensures -b <= 2 * (b * RoundDiv(a, b) - a) <= b
    ensures 2 * (b * RoundDiv(a, b) - a) == b || 2 * (b * RoundDiv(a, b) - a) == -b ==> RoundDiv(a, b) % 2 == 0
  {
    QuotientFacts(a, b);
    assert b * (a / b + 1) == b * (a / b) + b;
  }

  lemma {:induction false} TimesAtLeast(b: int, d: int)
    requires b > 0 && d >= 1
    ensures b * d >= b
    decreases d
  {
    if d > 1 {
      TimesAtLeast(b, d - 1);
      assert b * d == b * (d - 1) + b;
    }
  }

  lemma ProductsApart(b: int, x: int, y: int)
    requires b > 0 && x < y
    ensures b * x + b <= b * y
  {
    TimesAtLeast(b, y - x);
    assert b * y == b * x + b * (y - x);
  }

  /** An integer strictly nearer than half is the rounded quotient. */
  lemma NearestIsRounded(a: int, b: int, x: int)
    requires b > 0 && -b < 2 * (b * x - a) < b
    ensures RoundDiv(a, b) == x
  {
    var r := RoundDiv(a, b);
    RoundDivIsNear(a, b);
    if r < x { ProductsApart(b, r, x); }
    if x < r { ProductsApart(b, x, r); }
  }

  lemma RoundDivMonotone(a: int, a': int, b: int)
    requires b > 0 && a <= a'
    ensures RoundDiv(a, b) <= RoundDiv(a', b)
  {
    var r, r' := RoundDiv(a, b), RoundDiv(a', b);
    RoundDivIsNear(a, b);
    RoundDivIsNear(a', b);
    if r' < r {
      ProductsApart(b, r', r);
      assert a == a';
    }
  }

  lemma RoundDivExact(x: int, b: int)
    requires b > 0
    ensures RoundDiv(b * x, b) == x
  {
    NearestIsRounded(b * x, b, x);
  }

  // ------------------------------------------------------- count recovery

  /** A count of at most 10,000 is recovered from any rate within half a ten-thousandth of it. */
  lemma NearRateRecovers(rate: int, k: int, n: int)
    requires 0 < n && -n <= 2 * (n * rate - SCALE * k) <= n
    requires n < SCALE || n * rate == SCALE * k
    ensures Recovered(rate, n) == k
  {
    assert rate * n == n * rate;
    NearestIsRounded(rate * n, SCALE, k);
  }

  lemma CountIsRecovered(k: int, n: int)
    requires 0 < n <= SCALE
    ensures Recovered(Rate(k, n), n) == k
    ensures Recovered(SCALE - Rate(n - k, n), n) == k
  {
    RoundDivIsNear(SCALE * k, n);
    RoundDivIsNear(SCALE * (n - k), n);
    if n == SCALE {
      RoundDivExact(k, n);
      RoundDivExact(n - k, n);
    }
    NearRateRecovers(Rate(k, n), k, n);
    assert n * (SCALE - Rate(n - k, n)) == n * SCALE - n * Rate(n - k, n);
    assert SCALE * (n - k) == n * SCALE - SCALE * k;
    NearRateRecovers(SCALE - Rate(n - k, n), k, n);
  }

  /** If different counts had different rates, there would be as many rates as counts. */
  lemma {:induction false} DistinctRatesGrow(n: int, k: nat)
    requires n > 0 && k <= n
    requires forall i, j | 0 <= i < j <= n :: Rate(i, n) != Rate(j, n)
    ensures Rate(k, n) >= k
  {
    if k == 0 {
      RoundDivExact(0, n);
    } else {
      DistinctRatesGrow(n, k - 1);
      RoundDivMonotone(SCALE * (k - 1), SCALE * k, n);
      assert Rate(k - 1, n) != Rate(k, n);
    }
  }

  lemma TooManyCounts(n: int)
    requires n > SCALE
    ensures exists i, j :: 0 <= i < j <= n && Rate(i, n) == Rate(j, n)
  {
    if forall i, j | 0 <= i < j <= n :: Rate(i, n) != Rate(j, n) {
      DistinctRatesGrow(n, n);
      assert SCALE * n == n * SCALE;
      RoundDivExact(SCALE, n);
    }
  }

  /** A count out of `n`, after a round trip through its rate. */
  function FromRate(k: int, n: int): int
    requires n > 0
  {
    Recovered(Rate(k, n), n)
  }

  /** A count out of `n`, after a round trip through the rate of the others. */
  function FromOtherRate(k: int, n: int): int
    requires n > 0
  {
    Recovered(SCALE - Rate(n - k, n), n)
  }

  lemma SomeCountIsLost(n: int)
    requires n > SCALE
    ensures exists k :: 0 <= k <= n && FromRate(k, n) != k
    ensures exists k :: 0 <= k <= n && FromOtherRate(k, n) != k
  {
    TooManyCounts(n);
    var i, j :| 0 <= i < j <= n && Rate(i, n) == Rate(j, n);
    assert FromRate(i, n) == FromRate(j, n);
    assert n - (n - i) == i && n - (n - j) == j;
    assert FromOtherRate(n - i, n) == FromOtherRate(n - j, n);
  }

  /** Every count out of `n` survives the round trip through a four-decimal rate, in both forms the
      harness uses, exactly for `n` up to 10,000. */
  lemma CountsRecoverIff(n: int)
    requires n > 0
    ensures (forall k | 0 <= k <= n :: FromRate(k, n) == k) <==> n <= SCALE
    ensures (forall k | 0 <= k <= n :: FromOtherRate(k, n) == k) <==> n <= SCALE
  {
    if n <= SCALE {
      forall k | 0 <= k <= n ensures FromRate(k, n) == k { CountIsRecovered(k, n); }
      forall k | 0 <= k <= n ensures FromOtherRate(k, n) == k { CountIsRecovered(k, n); }
    } else {
      SomeCountIsLost(n);
    }
  }

  // ---------------------------------------------------- one document

  const MATCH_OVERLAP := 0.80

  datatype Row = Row(tokens: set<string>, page: Option<int>)

  datatype Truth = Truth(tokens: set<string>, binding: bool, page: Option<int>)

  /** `token_overlap`. */
  function Overlap(a: set<string>, b: set<string>): real {
    if a == {} || b == {} then 0.0 else |a * b| as real / Min(|a|, |b|) as real
  }

  /** The index below `n` where the score is greatest, the first of those, if it is positive there. */
  function Best(score: nat -> real, n: nat): (r: Option<nat>)
    ensures r.Some? ==> r.value < n
  {
    if n == 0 then None
    else
      var before := Best(score, n - 1);
      if score(n - 1) > BestScore(score, before) then Some(n - 1) else before
  }

  function BestScore(score: nat -> real, best: Option<nat>): real { if best.Some? then score(best.value) else 0.0 }

  lemma {:induction false} BestIsFirstGreatest(score: nat -> real, n: nat)
    ensures Best(score, n).None? ==> forall j: nat | j < n :: score(j) <= 0.0
    ensures Best(score, n).Some? ==>
              var best := Best(score, n).value;
              && score(best) > 0.0 && (forall j: nat | j < n :: score(j) <= score(best))
              && forall j: nat | j < best :: score(j) < score(best)
  {
    if n > 0 {
      BestIsFirstGreatest(score, n - 1);
    }
  }

  function Scorer(row: Row, truths: seq<Truth>): nat -> real {
    (j: nat) => if j < |truths| then Overlap(row.tokens, truths[j].tokens) else 0.0
  }

  /** The ground truth a row counts as: the first of greatest overlap, if that is enough. */
  function Hit(row: Row, truths: seq<Truth>): (r: Option<nat>)
    ensures r.Some? ==> r.value < |truths|
  {
    var score := Scorer(row, truths);
    var best := Best(score, |truths|);
    if best.Some? && score(best.value) >= MATCH_OVERLAP then best else None
  }

  predicate IsPageOff(cited: Option<int>, actual: Option<int>) {
    cited.None? || actual.None? || cited.value - actual.value > 1 || actual.value - cited.value > 1
  }

  datatype Counts = Counts(matched: nat, pageErrors: nat, found: set<nat>)

  function CountRow(c: Counts, row: Row, truths: seq<Truth>): Counts {
    match Hit(row, truths)
    case None => c
    case Some(j) =>
      Counts(c.matched + 1, c.pageErrors + (if IsPageOff(row.page, truths[j].page) then 1 else 0),
             if truths[j].binding then c.found + {j} else c.found)
  }

  function CountRows(rows: seq<Row>, truths: seq<Truth>): Counts {
    if rows == [] then Counts(0, 0, {}) else CountRow(CountRows(rows[..|rows| - 1], truths), rows[|rows| - 1], truths)
  }

  function BindingSet(truths: seq<Truth>): set<nat> { set j: nat | j < |truths| && truths[j].binding }

  /** Each count is within the one it is divided by. */
  lemma {:induction false} CountsAreBounded(rows: seq<Row>, truths: seq<Truth>)
    ensures var c := CountRows(rows, truths);
            c.pageErrors <= c.matched <= |rows| && c.found <= BindingSet(truths)
  {
    if rows != [] {
      CountsAreBounded(rows[..|rows| - 1], truths);
    }
  }

  ghost predicate IsHit(rows: seq<Row>, truths: seq<Truth>, j: nat) {
    exists r | 0 <= r < |rows| :: Hit(rows[r], truths) == Some(j)
  }

  lemma HitOfOneMore(rows: seq<Row>, truths: seq<Truth>, j: nat)
    requires rows != []
    ensures IsHit(rows, truths, j) <==> IsHit(rows[..|rows| - 1], truths, j) || Hit(rows[|rows| - 1], truths) == Some(j)
  {
    var rest := rows[..|rows| - 1];
    assert forall r | 0 <= r < |rest| :: rest[r] == rows[r];
    if r :| 0 <= r < |rest| && Hit(rest[r], truths) == Some(j) {
      assert Hit(rows[r], truths) == Some(j);
    }
  }

  /** What is found is exactly the binding requirements that some row counts as. */
  lemma {:induction false} FoundAreHit(rows: seq<Row>, truths: seq<Truth>, j: nat)
    ensures j in CountRows(rows, truths).found <==> j < |truths| && truths[j].binding && IsHit(rows, truths, j)
  {
    if rows != [] {
      FoundAreHit(rows[..|rows| - 1], truths, j);
      HitOfOneMore(rows, truths, j);
    }
  }

  datatype Scores = Scores(binding: nat, extracted: nat, matched: nat, omission: int, falsePositive: int,
      pageError: int)

  function OtherRate(k: int, n: int): int { if n > 0 then Rate(n - k, n) else 0 }

  function RateOf(k: int, n: int): int { if n > 0 then Rate(k, n) else 0 }

  function ScoresOf(rows: seq<Row>, truths: seq<Truth>): Scores {
    var c, binding := CountRows(rows, truths), |BindingSet(truths)|;
    Scores(binding, |rows|, c.matched, OtherRate(|c.found|, binding), OtherRate(c.matched, |rows|),
        RateOf(c.pageErrors, c.matched))
  }

  // ------------------------------------------- what the scores say

  /** At least four fifths of the smaller set of words are in the other one. */
  predicate IsEnough(a: set<string>, b: set<string>) { a != {} && b != {} && 5 * |a * b| >= 4 * Min(|a|, |b|) }

  lemma OverlapIsEnough(a: set<string>, b: set<string>)
    ensures Overlap(a, b) >= MATCH_OVERLAP <==> IsEnough(a, b)
    ensures 0.0 <= Overlap(a, b) <= 1.0 && Overlap(a, b) == Overlap(b, a)
    ensures a != {} ==> (Overlap(a, b) == 1.0 <==> b != {} && (a <= b || b <= a))
  {
    assert a * b == b * a;
    if a != {} && b != {} {
      SharedIsLeast(a, b);
      ShareOf(|a * b|, Min(|a|, |b|));
    }
  }

  lemma TimesPositive(x: real, y: real)
    requires y > 0.0
    ensures x * y >= 0.0 <==> x >= 0.0
    ensures x * y == 0.0 <==> x == 0.0
  {
  }

  lemma ShareOf(s: nat, m: nat)
    requires s <= m && m > 0
    ensures var q := s as real / m as real;
            0.0 <= q <= 1.0 && (q >= MATCH_OVERLAP <==> 5 * s >= 4 * m) && (q == 1.0 <==> s == m)
  {
    var q, size := s as real / m as real, m as real;
    assert q * size == s as real;
    assert (q - MATCH_OVERLAP) * size == s as real - MATCH_OVERLAP * size;
    assert (1.0 - q) * size == size - s as real;
    TimesPositive(q, size);
    TimesPositive(q - MATCH_OVERLAP, size);
    TimesPositive(1.0 - q, size);
  }

  lemma SharedIsLeast(a: set<string>, b: set<string>)
    ensures |a * b| <= Min(|a|, |b|)
    ensures |a * b| == Min(|a|, |b|) <==> a <= b || b <= a
  {
    assert a == a * b + (a - b) && b == a * b + (b - a);
    assert |a| == |a * b| + |a - b| && |b| == |a * b| + |b - a|;
    assert |a - b| == 0 <==> a <= b;
    assert |b - a| == 0 <==> b <= a;
  }

  /** Place `j` has the greatest score, and no earlier one has as much. */
  ghost predicate IsFirstGreatest(score: nat -> real, n: nat, j: nat) {
    j < n && (forall k: nat | k < n :: score(k) <= score(j)) && (forall k: nat | k < j :: score(k) < score(j))
  }

  lemma BestIff(score: nat -> real, n: nat, j: nat)
    ensures Best(score, n) == Some(j) <==> IsFirstGreatest(score, n, j) && score(j) > 0.0
  {
    BestIsFirstGreatest(score, n);
  }

  /** A row counts as a requirement exactly if they share enough, no other requirement shares more, and
      none before it as much. */
  lemma HitIff(row: Row, truths: seq<Truth>, j: nat)
    requires j < |truths|
    ensures Hit(row, truths) == Some(j) <==>
              && IsEnough(row.tokens, truths[j].tokens)
              && (forall k: nat | k < |truths| ::
                    Overlap(row.tokens, truths[k].tokens) <= Overlap(row.tokens, truths[j].tokens))
              && (forall k: nat | k < j ::
                    Overlap(row.tokens, truths[k].tokens) < Overlap(row.tokens, truths[j].tokens))
  {
    var score := Scorer(row, truths);
    BestIff(score, |truths|, j);
    OverlapIsEnough(row.tokens, truths[j].tokens);
    assert forall k: nat | k < |truths| :: score(k) == Overlap(row.tokens, truths[k].tokens);
  }

  /** Both pages are known, and they are at most one apart. */
  predicate IsNear(cited: Option<int>, actual: Option<int>) {
    cited.Some? && actual.Some? && -1 <= cited.value - actual.value <= 1
  }

  predicate IsMatched(row: Row, truths: seq<Truth>) { Hit(row, truths).Some? }

  predicate IsMisplaced(row: Row, truths: seq<Truth>) {
    IsMatched(row, truths) && !IsNear(row.page, truths[Hit(row, truths).value].page)
  }

  function CountIf(rows: seq<Row>, p: Row -> bool): nat {
    if rows == [] then 0 else CountIf(rows[..|rows| - 1], p) + if p(rows[|rows| - 1]) then 1 else 0
  }

  function Indexes(rows: seq<Row>, p: Row -> bool): set<nat> { set r: nat | r < |rows| && p(rows[r]) }

  lemma IndexesOfOneMore(rows: seq<Row>, p: Row -> bool)
    requires rows != []
    ensures |Indexes(rows, p)| == |Indexes(rows[..|rows| - 1], p)| + if p(rows[|rows| - 1]) then 1 else 0
  {
    var n, rest := |rows| - 1, rows[..|rows| - 1];
    assert forall r: nat | r < n :: rest[r] == rows[r];
    if p(rows[n]) {
      assert Indexes(rows, p) == Indexes(rest, p) + {n};
    } else {
      assert Indexes(rows, p) == Indexes(rest, p);
    }
  }

  lemma {:induction false} CountIfIsNumber(rows: seq<Row>, p: Row -> bool)
    ensures CountIf(rows, p) == |Indexes(rows, p)|
  {
    if rows == [] {
      assert Indexes(rows, p) == {};
    } else {
      CountIfIsNumber(rows[..|rows| - 1], p);
      IndexesOfOneMore(rows, p);
    }
  }

  lemma {:induction false} CountsAreCounted(rows: seq<Row>, truths: seq<Truth>)
    ensures CountRows(rows, truths).matched == CountIf(rows, row => IsMatched(row, truths))
    ensures CountRows(rows, truths).pageErrors == CountIf(rows, row => IsMisplaced(row, truths))
  {
    if rows != [] {
      CountsAreCounted(rows[..|rows| - 1], truths);
    }
  }

  /** The counts are numbers of rows: those that count as something, and those among them whose page is
      unknown or more than one off. */
  lemma CountsAreNumbers(rows: seq<Row>, truths: seq<Truth>)
    ensures CountRows(rows, truths).matched == |set r: nat | r < |rows| && IsMatched(rows[r], truths)|
    ensures CountRows(rows, truths).pageErrors == |set r: nat | r < |rows| && IsMisplaced(rows[r], truths)|
  {
    var matched, misplaced := (row: Row) => IsMatched(row, truths), (row: Row) => IsMisplaced(row, truths);
    CountsAreCounted(rows, truths);
    CountIfIsNumber(rows, matched);
    CountIfIsNumber(rows, misplaced);
    assert Indexes(rows, matched) == set r: nat | r < |rows| && IsMatched(rows[r], truths);
    assert Indexes(rows, misplaced) == set r: nat | r < |rows| && IsMisplaced(rows[r], truths);
  }

  /** `rate` is `k / n` to four decimals, or zero without any. */
  ghost predicate IsRate(rate: int, k: int, n: int) {
    if n == 0 then rate == 0 else -n <= 2 * (n * rate - 10000 * k) <= n
  }

  /** The omission rate is the share of binding requirements that were not found, the false positive rate
      the share of rows that count as nothing, and the page error rate the share of matched rows that
      are misplaced. */
  lemma ScoresAreRates(rows: seq<Row>, truths: seq<Truth>)
    ensures var s, c := ScoresOf(rows, truths), CountRows(rows, truths);
            && s.binding == |set j: nat | j < |truths| && truths[j].binding| && s.extracted == |rows|
            && s.matched == c.matched
            && IsRate(s.omission, s.binding - |c.found|, s.binding)
            && IsRate(s.falsePositive, |rows| - c.matched, |rows|) && IsRate(s.pageError, c.pageErrors, c.matched)
  {
    var c, binding := CountRows(rows, truths), |BindingSet(truths)|;
    RatesAreRates(|c.found|, binding);
    RatesAreRates(c.matched, |rows|);
    RatesAreRates(c.pageErrors, c.matched);
  }

  lemma RatesAreRates(k: int, n: nat)
    ensures IsRate(OtherRate(k, n), n - k, n) && IsRate(RateOf(k, n), k, n)
  {
    if n > 0 {
      RoundDivIsNear(SCALE * (n - k), n);
      RoundDivIsNear(SCALE * k, n);
    }
  }

  /** The inner loop over the ground truth. */
  method FindHit(row: Row, truths: seq<Truth>) returns (hit: Option<nat>)
    ensures hit == Hit(row, truths)
  {
    var best: Option<nat>, bestOverlap := None, 0.0;
    var score := Scorer(row, truths);
    for j := 0 to |truths|
      invariant best == Best(score, j) && bestOverlap == BestScore(score, best)
    {
      var overlap := score(j);
      if overlap > bestOverlap {
        best, bestOverlap := Some(j), overlap;
      }
    }
    return if best.Some? && bestOverlap >= MATCH_OVERLAP then best else None;
  }

  /** `_score_subset`. */
  method ScoreSubset(rows: seq<Row>, truths: seq<Truth>) returns (s: Scores)
    ensures s == ScoresOf(rows, truths)
  {
    var matched, pageErrors, found: set<nat> := 0, 0, {};
    for r := 0 to |rows|
      invariant Counts(matched, pageErrors, found) == CountRows(rows[..r], truths)
    {
      assert rows[..r + 1][..r] == rows[..r];
      var hit := FindHit(rows[r], truths);
      if hit.Some? {
        matched := matched + 1;
        if truths[hit.value].binding { found := found + {hit.value}; }
        if IsPageOff(rows[r].page, truths[hit.value].page) { pageErrors := pageErrors + 1; }
      }
    }
    assert rows[..|rows|] == rows;
    var binding := |BindingSet(truths)|;
    return Scores(binding, |rows|, matched, OtherRate(|found|, binding), OtherRate(matched, |rows|),
        RateOf(pageErrors, matched));
  }

  // ------------------------------------------------------ the corpus

  datatype Format = Digital | Scanned | Docx

  datatype Document = Document(format: Format, rows: seq<Row>, truths: seq<Truth>)

  datatype Acc = Acc(gt: int, extracted: int, matched: int, found: int, pageErrors: int)

  const ZERO := Acc(0, 0, 0, 0, 0)

  function Plus(a: Acc, b: Acc): Acc {
    Acc(a.gt + b.gt, a.extracted + b.extracted, a.matched + b.matched, a.found + b.found, a.pageErrors + b.pageErrors)
  }

  /** What a document contributes: counts rebuilt from its rounded rates. */
  function Contribution(d: Document): Acc {
    var s := ScoresOf(d.rows, d.truths);
    Acc(s.binding, s.extracted, s.matched, Recovered(SCALE - s.omission, s.binding), Recovered(s.pageError, s.matched))
  }

  /** What it should contribute: the counts themselves. */
  function Exact(d: Document): Acc {
    var c := CountRows(d.rows, d.truths);
    Acc(|BindingSet(d.truths)|, |d.rows|, c.matched, |c.found|, c.pageErrors)
  }

  /** The sum over the documents for which `keep` holds. */
  function Total(docs: seq<Document>, of: Document -> Acc, keep: Document -> bool): Acc {
    if docs == [] then ZERO
    else
      var before, last := Total(docs[..|docs| - 1], of, keep), docs[|docs| - 1];
      if keep(last) then Plus(before, of(last)) else before
  }

  function HasFormat(f: Format): Document -> bool { (d: Document) => d.format == f }

  function Any(): Document -> bool { _ => true }

  lemma NothingToRecover()
    ensures Recovered(SCALE, 0) == 0 && Recovered(0, 0) == 0
  {
    RoundDivExact(0, SCALE);
  }

  lemma ContributionIsExact(d: Document)
    requires |BindingSet(d.truths)| <= SCALE && CountRows(d.rows, d.truths).matched <= SCALE
    ensures Contribution(d) == Exact(d)
  {
    var c, binding := CountRows(d.rows, d.truths), |BindingSet(d.truths)|;
    CountsAreBounded(d.rows, d.truths);
    NothingToRecover();
    if binding > 0 {
      CountIsRecovered(|c.found|, binding);
    } else {
      assert c.found == {};
    }
    if c.matched > 0 {
      CountIsRecovered(c.pageErrors, c.matched);
    }
  }

  lemma {:induction false} SameContributions(docs: seq<Document>, of: Document -> Acc, of': Document -> Acc,
                                             keep: Document -> bool)
    requires forall d | d in docs :: of(d) == of'(d)
    ensures Total(docs, of, keep) == Total(docs, of', keep)
  {
    if docs != [] {
      assert docs == docs[..|docs| - 1] + [docs[|docs| - 1]];
      SameContributions(docs[..|docs| - 1], of, of', keep);
    }
  }

  /** With documents of at most 10,000 binding requirements and matches, the totals, and those of
      each format, are the exact sums of the documents' counts. */
  lemma CorpusTotalsAreExact(docs: seq<Document>, keep: Document -> bool)
    requires forall d | d in docs :: |BindingSet(d.truths)| <= SCALE && CountRows(d.rows, d.truths).matched <= SCALE
    ensures Total(docs, Contribution, keep) == Total(docs, Exact, keep)
  {
    forall d | d in docs ensures Contribution(d) == Exact(d) { ContributionIsExact(d); }
    SameContributions(docs, Contribution, Exact, keep);
  }

  function Sum(docs: seq<Document>, f: Document -> int, keep: Document -> bool): int {
    if docs == [] then 0
    else Sum(docs[..|docs| - 1], f, keep) + if keep(docs[|docs| - 1]) then f(docs[|docs| - 1]) else 0
  }

  function BindingCount(d: Document): int { |set j: nat | j < |d.truths| && d.truths[j].binding| }

  function RowCount(d: Document): int { |d.rows| }

  function MatchedCount(d: Document): int { CountRows(d.rows, d.truths).matched }

  function FoundCount(d: Document): int { |CountRows(d.rows, d.truths).found| }

  function PageErrorCount(d: Document): int { CountRows(d.rows, d.truths).pageErrors }

  lemma {:induction false} ExactIsSums(docs: seq<Document>, keep: Document -> bool)
    ensures Total(docs, Exact, keep) ==
            Acc(Sum(docs, BindingCount, keep), Sum(docs, RowCount, keep), Sum(docs, MatchedCount, keep),
                Sum(docs, FoundCount, keep), Sum(docs, PageErrorCount, keep))
  {
    if docs != [] {
      ExactIsSums(docs[..|docs| - 1], keep);
    }
  }

  /** So the totals are the numbers of binding requirements, rows, matched rows, found requirements and
      misplaced rows, summed over the documents. */
  lemma CorpusTotalsAreSums(docs: seq<Document>, keep: Document -> bool)
    requires forall d | d in docs :: |BindingSet(d.truths)| <= 10000 && CountRows(d.rows, d.truths).matched <= 10000
    ensures var total := Total(docs, Contribution, keep);
            && total.gt == Sum(docs, BindingCount, keep) && total.extracted == Sum(docs, RowCount, keep)
            && total.matched == Sum(docs, MatchedCount, keep) && total.found == Sum(docs, FoundCount, keep)
            && total.pageErrors == Sum(docs, PageErrorCount, keep)
  {
    CorpusTotalsAreExact(docs, keep);
    ExactIsSums(docs, keep);
  }

  /** The formats' sums add up to the totals. */
  lemma {:induction false} FormatsAddUp(docs: seq<Document>, of: Document -> Acc)
    ensures Total(docs, of, Any()) ==
            Plus(Plus(Total(docs, of, HasFormat(Digital)), Total(docs, of, HasFormat(Scanned))),
                Total(docs, of, HasFormat(Docx)))
  {
    if docs != [] {
      FormatsAddUp(docs[..|docs| - 1], of);
    }
  }

  /** The rates reported for a sum. */
  function RatesOf(a: Acc): (int, int, int) {
    (OtherRate(a.found, a.gt), OtherRate(a.matched, a.extracted), RateOf(a.pageErrors, a.matched))
  }

  /** They are the same three shares of the sums. */
  lemma CorpusRatesAreRates(a: Acc)
    requires a.gt >= 0 && a.extracted >= 0 && a.matched >= 0
    ensures IsRate(RatesOf(a).0, a.gt - a.found, a.gt) && IsRate(RatesOf(a).1, a.extracted - a.matched, a.extracted)
    ensures IsRate(RatesOf(a).2, a.pageErrors, a.matched)
  {
    RatesAreRates(a.found, a.gt);
    RatesAreRates(a.matched, a.extracted);
    RatesAreRates(a.pageErrors, a.matched);
  }

  /** Each format that occurs has the sum of its documents, and no other format has any. */
  ghost predicate AreBuckets(buckets: map<Format, Acc>, docs: seq<Document>, of: Document -> Acc) {
    forall f ::
      && (f in buckets <==> exists k | 0 <= k < |docs| :: docs[k].format == f)
      && Total(docs, of, HasFormat(f)) == if f in buckets then buckets[f] else ZERO
  }

  lemma TotalOfOneMore(docs: seq<Document>, d: Document, of: Document -> Acc, keep: Document -> bool)
    ensures Total(docs + [d], of, keep) == if keep(d) then Plus(Total(docs, of, keep), of(d)) else Total(docs, of, keep)
  {
    assert (docs + [d])[..|docs|] == docs;
  }

  lemma BucketsOfOneMore(buckets: map<Format, Acc>, docs: seq<Document>, d: Document, of: Document -> Acc)
    requires AreBuckets(buckets, docs, of)
    ensures var sum := Plus(if d.format in buckets then buckets[d.format] else ZERO, of(d));
            AreBuckets(buckets[d.format := sum], docs + [d], of)
  {
    var buckets' := buckets[d.format := Plus(if d.format in buckets then buckets[d.format] else ZERO, of(d))];
    var docs' := docs + [d];
    forall f
      ensures f in buckets' <==> exists k | 0 <= k < |docs'| :: docs'[k].format == f
      ensures Total(docs', of, HasFormat(f)) == if f in buckets' then buckets'[f] else ZERO
    {
      TotalOfOneMore(docs, d, of, HasFormat(f));
      assert docs'[|docs|] == d && forall k | 0 <= k < |docs| :: docs'[k] == docs[k];
      if k :| 0 <= k < |docs| && docs[k].format == f {
        assert docs'[k].format == f;
      }
    }
  }

  method Contribute(d: Document) returns (own: Acc)
    ensures own == Contribution(d)
  {
    var s := ScoreSubset(d.rows, d.truths);
    var found := Recovered(SCALE - s.omission, s.binding);
    var pageErrors := Recovered(s.pageError, s.matched);
    return Acc(s.binding, s.extracted, s.matched, found, pageErrors);
  }

  /** The loop over the documents. */
  method SumUp(docs: seq<Document>) returns (totals: Acc, perFormat: map<Format, Acc>)
    ensures totals == Total(docs, Contribution, Any()) && AreBuckets(perFormat, docs, Contribution)
  {
    ghost var of := Contribution;
    totals, perFormat := ZERO, map[];
    for k := 0 to |docs|
      invariant totals == Total(docs[..k], of, Any()) && AreBuckets(perFormat, docs[..k], of)
    {
      var d := docs[k];
      assert docs[..k + 1] == docs[..k] + [d];
      TotalOfOneMore(docs[..k], d, of, Any());
      BucketsOfOneMore(perFormat, docs[..k], d, of);
      var own := Contribute(d);
      assert own == of(d);
      var bucket := if d.format in perFormat then perFormat[d.format] else ZERO;
      perFormat := perFormat[d.format := Plus(bucket, own)];
      totals := Plus(totals, own);
    }
    assert docs[..|docs|] == docs;
  }

  /** `evaluate_corpus`, over the documents that have both a file and a ground truth. */
  method EvaluateCorpus(docs: seq<Document>)
    returns (totals: Acc, rates: (int, int, int),
             perFormat: map<Format, Acc>, formatRates: map<Format, (int, int, int)>)
    ensures totals == Total(docs, Contribution, Any()) && rates == RatesOf(totals)
    ensures AreBuckets(perFormat, docs, Contribution)
    ensures formatRates.Keys == perFormat.Keys && forall f | f in perFormat :: formatRates[f] == RatesOf(perFormat[f])
  {
    totals, perFormat := SumUp(docs);
    rates := RatesOf(totals);
    formatRates := map f | f in perFormat :: RatesOf(perFormat[f]);
  }
}
