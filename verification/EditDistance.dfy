/** `levenshtein_distance`: the two-row loop, with its length shortcut, operand swap and
    row-minimum exit, computes the cost of a cheapest edit script. */
module EditDistance {
  import opened Basics

  // ------------------------------------------------------- edit scripts

  /** One column of an alignment of a source text with a target text. */
  datatype Edit = Keep(c: char) | Substitute(c: char, d: char) | Insert(d: char) | Delete(c: char)

  type Script = seq<Edit>

  function Source(script: Script): string {
    if script == [] then []
    else
      var e := script[|script| - 1];
      Source(script[..|script| - 1]) + if e.Insert? then [] else [e.c]
  }

  function Target(script: Script): string {
    if script == [] then []
    else
      var e := script[|script| - 1];
      Target(script[..|script| - 1]) + if e.Delete? then [] else if e.Keep? then [e.c] else [e.d]
  }

  /** Every column but `Keep` costs one. */
  function Cost(script: Script): nat {
    if script == [] then 0
    else Cost(script[..|script| - 1]) + if script[|script| - 1].Keep? then 0 else 1
  }

  ghost predicate Rewrites(script: Script, a: string, b: string) {
    Source(script) == a && Target(script) == b
  }

  // ------------------------------------------------------- the distance

  function Init(s: string): string
    requires s != []
  {
    s[..|s| - 1]
  }

  function Last(s: string): char
    requires s != []
  {
    s[|s| - 1]
  }

  /** The edit distance by its textbook recursion on last characters. */
  function Distance(a: string, b: string): nat
    decreases |a| + |b|
  {
    if a == [] then |b|
    else if b == [] then |a|
    else
      Min(Min(Distance(a, Init(b)), Distance(Init(a), b)) + 1,
          Distance(Init(a), Init(b)) + if Last(a) == Last(b) then 0 else 1)
  }

  /** No script from `a` to `b` is cheaper than the distance. */
  lemma {:induction false} DistanceIsLowerBound(script: Script)
    ensures Distance(Source(script), Target(script)) <= Cost(script)
  {
    if script != [] {
      var rest, e := script[..|script| - 1], script[|script| - 1];
      DistanceIsLowerBound(rest);
      var a, b := Source(rest), Target(rest);
      assert forall s: string, c: char :: Init(s + [c]) == s;
      match e {
        case Keep(c) => DistanceStep(a + [c], b + [c]);
        case Substitute(c, d) => DistanceStep(a + [c], b + [d]);
        case Insert(d) => DistanceStep(a, b + [d]); assert a + [] == a;
        case Delete(c) => DistanceStep(a + [c], b); assert b + [] == b;
      }
    }
  }

  /** One more character on either side changes the distance by at most one. */
  lemma DistanceStep(a: string, b: string)
    ensures b != [] ==> Distance(a, b) <= Distance(a, Init(b)) + 1
    ensures a != [] ==> Distance(a, b) <= Distance(Init(a), b) + 1
    ensures a != [] && b != [] ==> Distance(a, b) <= Distance(Init(a), Init(b)) + if Last(a) == Last(b) then 0 else 1
  {
  }

  /** Some script attains it. */
  lemma {:induction false} CheapestScript(a: string, b: string) returns (script: Script)
    ensures Rewrites(script, a, b) && Cost(script) == Distance(a, b)
    decreases |a| + |b|
  {
    if a == [] && b == [] {
      script := [];
    } else if a == [] || (b != [] && Distance(a, b) == Distance(a, Init(b)) + 1) {
      var rest := CheapestScript(a, Init(b));
      script := rest + [Insert(Last(b))];
      assert script[..|script| - 1] == rest && Init(b) + [Last(b)] == b;
    } else if b == [] || Distance(a, b) == Distance(Init(a), b) + 1 {
      var rest := CheapestScript(Init(a), b);
      script := rest + [Delete(Last(a))];
      assert script[..|script| - 1] == rest && Init(a) + [Last(a)] == a;
    } else {
      var rest := CheapestScript(Init(a), Init(b));
      script := rest + [if Last(a) == Last(b) then Keep(Last(a)) else Substitute(Last(a), Last(b))];
      assert script[..|script| - 1] == rest && Init(a) + [Last(a)] == a && Init(b) + [Last(b)] == b;
    }
  }

  lemma {:induction false} DistanceSymmetric(a: string, b: string)
    ensures Distance(a, b) == Distance(b, a)
    decreases |a| + |b|
  {
    if a != [] && b != [] {
      DistanceSymmetric(a, Init(b));
      DistanceSymmetric(Init(a), b);
      DistanceSymmetric(Init(a), Init(b));
    }
  }

  lemma {:induction false} DistanceZero(a: string, b: string)
    ensures Distance(a, b) == 0 <==> a == b
    decreases |a| + |b|
  {
    if a != [] && b != [] {
      DistanceZero(Init(a), Init(b));
      assert a == Init(a) + [Last(a)] && b == Init(b) + [Last(b)];
    }
  }

  lemma {:induction false} DistanceLengths(a: string, b: string)
    ensures |a| - |b| <= Distance(a, b) && |b| - |a| <= Distance(a, b)
    decreases |a| + |b|
  {
    if a != [] && b != [] {
      DistanceLengths(a, Init(b));
      DistanceLengths(Init(a), b);
      DistanceLengths(Init(a), Init(b));
    }
  }

  // ------------------------------------------------------- the table

  /** Cell `(i, j)` of the table: the distance of the prefixes of those lengths. */
  function Cell(a: string, b: string, i: nat, j: nat): nat
    requires i <= |a| && j <= |b|
  {
    Distance(a[..i], b[..j])
  }

  lemma CellRecurrence(a: string, b: string, i: nat, j: nat)
    requires 0 < i <= |a| && 0 < j <= |b|
    ensures Cell(a, b, i, j) ==
            Min(Min(Cell(a, b, i, j - 1), Cell(a, b, i - 1, j)) + 1,
                Cell(a, b, i - 1, j - 1) + if a[i - 1] == b[j - 1] then 0 else 1)
  {
    assert Init(a[..i]) == a[..i - 1] && Init(b[..j]) == b[..j - 1];
  }

  /** Once a whole row exceeds `bound`, so does every cell of every later row. */
  lemma {:induction false} RowBarrier(a: string, b: string, bound: int, row: nat, i: nat, j: nat)
    requires i <= |a| && row <= j <= |b|
    requires forall k: nat | k <= |a| :: Cell(a, b, k, row) > bound
    ensures Cell(a, b, i, j) > bound
    decreases i + j
  {
    if row < j {
      if i == 0 {
        assert Cell(a, b, 0, row) == row;
      } else {
        RowBarrier(a, b, bound, row, i, j - 1);
        RowBarrier(a, b, bound, row, i - 1, j);
        RowBarrier(a, b, bound, row, i - 1, j - 1);
        CellRecurrence(a, b, i, j);
      }
    }
  }

  /** What the caller may rely on: exact without a cutoff; with one, exact up to the cutoff,
      above it exactly when the distance is, and never more than the distance. */
  ghost predicate Bounds(r: int, a: string, b: string, cutoff: Option<int>) {
    var d := Distance(a, b);
    match cutoff
    case None => r == d
    case Some(c) => r <= d && (d <= c ==> r == d) && (d > c ==> r > c)
  }

  /** Row `j` of the table. */
  ghost predicate IsRow(row: seq<int>, a: string, b: string, j: nat)
    requires j <= |b|
  {
    |row| == |a| + 1 && forall k: nat | k <= |a| :: row[k] == Cell(a, b, k, j)
  }

  /** The inner loop: row `j` from row `j - 1`, and the least entry of the new row. */
  method NextRow(a: string, b: string, j: nat, previous: array<int>) returns (current: array<int>, rowMin: int)
    requires 0 < j <= |b| && IsRow(previous[..], a, b, j - 1)
    ensures fresh(current) && IsRow(current[..], a, b, j)
    ensures forall k: nat | k <= |a| :: rowMin <= Cell(a, b, k, j)
  {
    var la := |a|;
    var bj := b[j - 1];
    current := new int[la + 1](i => if i == 0 then j else 0);
    rowMin := current[0];
    for i := 1 to la + 1
      invariant forall k: nat | k < i :: current[k] == Cell(a, b, k, j) && rowMin <= Cell(a, b, k, j)
      invariant previous[..] == old(previous[..])
    {
      var cost := if a[i - 1] == bj then 0 else 1;
      CellRecurrence(a, b, i, j);
      assert previous[..][i] == Cell(a, b, i, j - 1) && previous[..][i - 1] == Cell(a, b, i - 1, j - 1);
      current[i] := Min(Min(previous[i] + 1, current[i - 1] + 1), previous[i - 1] + cost);
      if current[i] < rowMin {
        rowMin := current[i];
      }
    }
  }

  method LevenshteinDistance(a0: string, b0: string, cutoff: Option<int>) returns (r: int)
    ensures Bounds(r, a0, b0, cutoff)
  {
    if a0 == b0 {
      DistanceZero(a0, b0);
      return 0;
    }
    DistanceLengths(a0, b0);
    var a, b := a0, b0;
    if cutoff.Some? && (if |a| > |b| then |a| - |b| else |b| - |a|) > cutoff.value {
      return cutoff.value + 1;
    }
    if |a| > |b| {
      DistanceSymmetric(a, b);
      a, b := b, a;
    }
    var la, lb := |a|, |b|;
    var previous := new int[la + 1](i => i);
    for j := 1 to lb + 1
      invariant IsRow(previous[..], a, b, j - 1)
    {
      var current, rowMin := NextRow(a, b, j, previous);
      if cutoff.Some? && rowMin > cutoff.value {
        RowBarrier(a, b, cutoff.value, j, la, lb);
        assert a[..la] == a && b[..lb] == b;
        return cutoff.value + 1;
      }
      previous := current;
    }
    assert a[..la] == a && b[..lb] == b;
    return previous[la];
  }
}
