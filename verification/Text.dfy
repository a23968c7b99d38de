/** Text normalisation: the string passes of `normalize_text` and
    `normalize_clause_id`, and exactly which strings each one leaves alone. */
module Text {
  import opened Basics

  // ------------------------------------------------------------ characters

  /** The characters for which Python's `str.isspace` holds; `\s` and `strip` use the same set. */
  predicate IsSpace(c: char) {
    var n := c as int;
    9 <= n <= 13 || 28 <= n <= 32 || n == 0x85 || n == 0xA0 || n == 0x1680
    || 0x2000 <= n <= 0x200A || n == 0x2028 || n == 0x2029 || n == 0x202F || n == 0x205F || n == 0x3000
  }

  /** White space, code point by code point. */
  lemma WhiteSpaceIsThese(c: char)
    ensures IsSpace(c) <==> c as int in {
              0x9, 0xA, 0xB, 0xC, 0xD, 0x1C, 0x1D, 0x1E, 0x1F, 0x20, 0x85, 0xA0, 0x1680, 0x2000, 0x2001, 0x2002, 0x2003,
              0x2004, 0x2005, 0x2006, 0x2007, 0x2008, 0x2009, 0x200A, 0x2028, 0x2029, 0x202F, 0x205F, 0x3000}
  {
  }

  predicate IsLigature(c: char) { 0xFB00 <= c as int <= 0xFB04 }

  predicate IsDot(c: char) { c == '.' }

  /** The class `[\s\-]`. */
  predicate IsSeparator(c: char) { IsSpace(c) || c == '-' }

  predicate IsSeparatorOrDot(c: char) { IsSeparator(c) || c == '.' }

  /** Punctuation that the second strip removes and no later pass does. */
  predicate IsStop(c: char) { c == ';' || c == ':' || c == ',' }

  /** The strip set `".;:, \t"`. */
  predicate IsTrailing(c: char) { c == '.' || IsStop(c) || c == ' ' || c == '\t' }

  /** Characters that lower-casing another character never produces. */
  predicate IsReserved(c: char) { IsSeparatorOrDot(c) || IsStop(c) || IsLigature(c) }

  function AsciiLower(c: char): string {
    if 'A' <= c <= 'Z' then [(c as int + 32) as char] else [c]
  }

  /** What is relied on about `str.lower`, one character at a time: it is the usual mapping on
      ASCII, erases nothing, lower-cases its own output to itself, and neither produces nor
      changes white space. A character may map to several. */
  ghost predicate IsCaseTable(f: char -> string) {
    && (forall c | c as int < 128 :: f(c) == AsciiLower(c))
    && (forall c :: f(c) != [])
    && (forall c, d | d in f(c) :: f(d) == [d])
    && (forall c, d | d in f(c) && d != c :: !IsReserved(d))
    && (forall c | IsSpace(c) :: f(c) == [c])
  }

  type CaseTable = f: char -> string | IsCaseTable(f) witness AsciiLower

  /** Any table with those properties: everything below holds for all of them. */
  const LOWER_TABLE: CaseTable

  function Lower(s: string): string {
    if s == [] then [] else LOWER_TABLE(s[0]) + Lower(s[1..])
  }

  // ---------------------------------------------------------- string passes

  /** `re.sub(r"-\n", "", s)`: non-overlapping matches from the left. */
  function JoinHyphenBreaks(s: string): string {
    if s == [] then []
    else if |s| >= 2 && s[0] == '-' && s[1] == '\n' then JoinHyphenBreaks(s[2..])
    else [s[0]] + JoinHyphenBreaks(s[1..])
  }

  /** `s.replace(c, by)` for a one-character `c`. */
  function ReplaceChar(s: string, c: char, repl: string): string {
    if s == [] then [] else (if s[0] == c then repl else [s[0]]) + ReplaceChar(s[1..], c, repl)
  }

  const LIGATURES: seq<(char, string)> :=
    [('\U{FB01}', "fi"), ('\U{FB02}', "fl"), ('\U{FB00}', "ff"), ('\U{FB03}', "ffi"), ('\U{FB04}', "ffl")]

  function ReplaceAll(s: string, table: seq<(char, string)>): string
    decreases |table|
  {
    if table == [] then s else ReplaceAll(ReplaceChar(s, table[0].0, table[0].1), table[1..])
  }

  function ReplaceLigatures(s: string): string { ReplaceAll(s, LIGATURES) }

  /** Replaces every maximal run of `cls` characters by one `repl`, written when the run ends. */
  function CollapseRuns(s: string, cls: char -> bool, repl: char): string {
    if s == [] then []
    else if !cls(s[0]) then [s[0]] + CollapseRuns(s[1..], cls, repl)
    else if |s| == 1 || !cls(s[1]) then [repl] + CollapseRuns(s[1..], cls, repl)
    else CollapseRuns(s[1..], cls, repl)
  }

  function StripLeft(s: string, cls: char -> bool): string {
    if s != [] && cls(s[0]) then StripLeft(s[1..], cls) else s
  }

  function StripRight(s: string, cls: char -> bool): string {
    if s != [] && cls(s[|s| - 1]) then StripRight(s[..|s| - 1], cls) else s
  }

  function Strip(s: string, cls: char -> bool): string {
    StripRight(StripLeft(s, cls), cls)
  }

  function NormalizeText(text: string): string {
    Lower(Strip(CollapseRuns(ReplaceLigatures(JoinHyphenBreaks(text)), IsSpace, ' '), IsSpace))
  }

  /** The value of `s` after the second strip of `normalize_clause_id`. */
  function TrimClauseId(clauseId: string): string {
    Strip(Lower(Strip(clauseId, IsSpace)), IsTrailing)
  }

  function NormalizeClauseId(clauseId: string): string {
    Strip(CollapseRuns(CollapseRuns(TrimClauseId(clauseId), IsSeparator, '.'), IsDot, '.'), IsDot)
  }

  // ------------------------------------------------------- general lemmas

  ghost predicate NoneOf(s: string, cls: char -> bool) {
    forall c | c in s :: !cls(c)
  }

  /** No two neighbouring characters of `s` are both in `cls`. */
  ghost predicate NoPair(s: string, cls: char -> bool) {
    forall i | 0 < i < |s| :: !(cls(s[i - 1]) && cls(s[i]))
  }

  ghost predicate CleanEdges(s: string, cls: char -> bool) {
    s != [] ==> !cls(s[0]) && !cls(s[|s| - 1])
  }

  ghost predicate LowerCased(s: string) {
    forall c | c in s :: LOWER_TABLE(c) == [c]
  }

  lemma LowerTableAscii(c: char)
    requires c as int < 128
    ensures LOWER_TABLE(c) == AsciiLower(c)
  {
    var f: CaseTable := LOWER_TABLE;
    assert IsCaseTable(f);
  }

  lemma LowerTableChar(c: char, d: char)
    requires d in LOWER_TABLE(c)
    ensures LOWER_TABLE(d) == [d]
    ensures IsReserved(d) ==> d == c
  {
    var f: CaseTable := LOWER_TABLE;
    assert IsCaseTable(f);
  }

  lemma {:induction false} LowerOfLowerCased(s: string)
    requires LowerCased(s)
    ensures Lower(s) == s
  {
    if s != [] {
      LowerOfLowerCased(s[1..]);
    }
  }

  /** Where the characters of `Lower(s)` come from. */
  lemma {:induction false} LowerChars(s: string)
    ensures LowerCased(Lower(s))
    ensures forall d | d in Lower(s) && IsReserved(d) :: d in s
  {
    if s != [] {
      LowerChars(s[1..]);
      forall d | d in LOWER_TABLE(s[0]) ensures LOWER_TABLE(d) == [d] && (IsReserved(d) ==> d == s[0]) {
        LowerTableChar(s[0], d);
      }
    }
  }

  lemma LoweredCharKeepsSpacing(c: char)
    ensures LOWER_TABLE(c) != []
    ensures IsSpace(c) ==> LOWER_TABLE(c) == [c]
    ensures !IsSpace(c) ==> NoneOf(LOWER_TABLE(c), IsSpace)
  {
    var f: CaseTable := LOWER_TABLE;
    assert IsCaseTable(f);
    if !IsSpace(c) {
      forall d | d in LOWER_TABLE(c) ensures !IsSpace(d) {
        LowerTableChar(c, d);
      }
    }
  }

  lemma JoinKeepsNoPair(h: string, r: string, cls: char -> bool)
    requires NoPair(h, cls) && NoPair(r, cls)
    requires h != [] && r != [] ==> !(cls(h[|h| - 1]) && cls(r[0]))
    ensures NoPair(h + r, cls)
  {
  }

  lemma {:induction false} LowerKeepsSpacing(s: string)
    requires NoPair(s, IsSpace)
    ensures NoPair(Lower(s), IsSpace)
    ensures s != [] ==> Lower(s) != [] && IsSpace(Lower(s)[0]) == IsSpace(s[0])
    ensures s != [] ==> IsSpace(Lower(s)[|Lower(s)| - 1]) == IsSpace(s[|s| - 1])
  {
    if s != [] {
      var t, h := s[1..], LOWER_TABLE(s[0]);
      assert NoPair(t, IsSpace) by {
        forall i | 0 < i < |t| ensures !(IsSpace(t[i - 1]) && IsSpace(t[i])) {
          assert t[i] == s[i + 1] && t[i - 1] == s[i];
        }
      }
      LowerKeepsSpacing(t);
      LoweredCharKeepsSpacing(s[0]);
      assert h[0] in h && h[|h| - 1] in h;
      assert NoPair(h, IsSpace) by {
        assert forall i | 0 <= i < |h| :: h[i] in h;
      }
      assert t != [] ==> t[0] == s[1] && t[|t| - 1] == s[|s| - 1];
      JoinKeepsNoPair(h, Lower(t), IsSpace);
      if t == [] { assert Lower(t) == []; }
    }
  }

  lemma {:induction false} JoinHyphenBreaksIdentity(s: string)
    requires '\n' !in s
    ensures JoinHyphenBreaks(s) == s
  {
    if s != [] {
      JoinHyphenBreaksIdentity(s[1..]);
    }
  }

  lemma {:induction false} ReplaceCharLigatures(s: string, c: char, repl: string)
    requires NoneOf(repl, IsLigature)
    ensures forall d | d in ReplaceChar(s, c, repl) && IsLigature(d) :: d in s && d != c
    ensures c !in s ==> ReplaceChar(s, c, repl) == s
  {
    if s != [] {
      ReplaceCharLigatures(s[1..], c, repl);
    }
  }

  lemma {:induction false} ReplaceAllLigatures(s: string, table: seq<(char, string)>)
    requires forall i | 0 <= i < |table| :: NoneOf(table[i].1, IsLigature)
    requires forall i | 0 <= i < |table| :: IsLigature(table[i].0)
    ensures forall d | d in ReplaceAll(s, table) && IsLigature(d) :: d in s
    ensures forall i | 0 <= i < |table| :: table[i].0 !in ReplaceAll(s, table)
    ensures NoneOf(s, IsLigature) ==> ReplaceAll(s, table) == s
    decreases |table|
  {
    if table != [] {
      var s' := ReplaceChar(s, table[0].0, table[0].1);
      ReplaceCharLigatures(s, table[0].0, table[0].1);
      ReplaceAllLigatures(s', table[1..]);
      forall i | 0 <= i < |table| ensures table[i].0 !in ReplaceAll(s, table) {
        if i > 0 { assert table[i] == table[1..][i - 1]; }
      }
    }
  }

  lemma ReplaceLigaturesFacts(s: string)
    ensures NoneOf(ReplaceLigatures(s), IsLigature)
    ensures NoneOf(s, IsLigature) ==> ReplaceLigatures(s) == s
  {
    ReplaceAllLigatures(s, LIGATURES);
    forall d | d in ReplaceLigatures(s) ensures !IsLigature(d) {
      assert LIGATURES[0].0 != d && LIGATURES[1].0 != d && LIGATURES[2].0 != d && LIGATURES[3].0 != d
          && LIGATURES[4].0 != d;
    }
  }

  lemma {:induction false} CollapseRunsChars(s: string, cls: char -> bool, repl: char)
    ensures forall d | d in CollapseRuns(s, cls, repl) :: (d in s && !cls(d)) || d == repl
    ensures |CollapseRuns(s, cls, repl)| <= |s|
    ensures s != [] ==> CollapseRuns(s, cls, repl) != []
  {
    if s != [] {
      CollapseRunsChars(s[1..], cls, repl);
    }
  }

  /** With `repl` itself in the class the result has no two class characters in a row. */
  lemma {:induction false} CollapseRunsNoPair(s: string, cls: char -> bool, repl: char)
    requires cls(repl)
    ensures NoPair(CollapseRuns(s, cls, repl), cls)
    ensures s != [] && !cls(s[0]) ==> CollapseRuns(s, cls, repl) != [] && CollapseRuns(s, cls, repl)[0] == s[0]
  {
    if s != [] {
      CollapseRunsNoPair(s[1..], cls, repl);
      CollapseRunsChars(s[1..], cls, repl);
    }
  }

  lemma {:induction false} CollapseRunsIdentity(s: string, cls: char -> bool, repl: char)
    requires NoPair(s, cls) && forall c | c in s && cls(c) :: c == repl
    ensures CollapseRuns(s, cls, repl) == s
  {
    if s != [] {
      assert NoPair(s[1..], cls) by {
        forall i | 0 < i < |s[1..]| ensures !(cls(s[1..][i - 1]) && cls(s[1..][i])) {
          assert s[1..][i] == s[i + 1] && s[1..][i - 1] == s[i];
        }
      }
      CollapseRunsIdentity(s[1..], cls, repl);
      if |s| > 1 && cls(s[0]) {
        assert !(cls(s[1 - 1]) && cls(s[1]));
      }
    }
  }

  lemma {:induction false} StripLeftSuffix(s: string, cls: char -> bool) returns (k: nat)
    ensures k <= |s| && StripLeft(s, cls) == s[k..]
    ensures StripLeft(s, cls) != [] ==> !cls(StripLeft(s, cls)[0])
    ensures forall i | 0 <= i < k :: cls(s[i])
  {
    k := 0;
    if s != [] && cls(s[0]) {
      var k' := StripLeftSuffix(s[1..], cls);
      k := k' + 1;
    }
  }

  lemma {:induction false} StripRightPrefix(s: string, cls: char -> bool) returns (k: nat)
    ensures k <= |s| && StripRight(s, cls) == s[..k]
    ensures k > 0 ==> !cls(s[k - 1])
    ensures forall i | k <= i < |s| :: cls(s[i])
  {
    k := |s|;
    if s != [] && cls(s[|s| - 1]) {
      k := StripRightPrefix(s[..|s| - 1], cls);
    }
  }

  /** `Strip` keeps the stretch between the first and the last character outside `cls`. */
  lemma StripRange(s: string, cls: char -> bool) returns (i: nat, j: nat)
    ensures i <= j <= |s| && Strip(s, cls) == s[i..j]
    ensures i < j ==> !cls(s[i]) && !cls(s[j - 1])
    ensures forall k | 0 <= k < i || j <= k < |s| :: cls(s[k])
  {
    i := StripLeftSuffix(s, cls);
    var t := StripLeft(s, cls);
    var k := StripRightPrefix(t, cls);
    j := i + k;
    assert forall m | 0 <= m < |t| :: t[m] == s[i + m];
    forall m | j <= m < |s| ensures cls(s[m]) { assert s[m] == t[m - i]; }
  }

  lemma StripFacts(s: string, cls: char -> bool)
    ensures CleanEdges(Strip(s, cls), cls)
    ensures CleanEdges(s, cls) ==> Strip(s, cls) == s
    ensures !CleanEdges(s, cls) ==> |Strip(s, cls)| < |s|
    ensures forall c | c in Strip(s, cls) :: c in s
  {
    var i, j := StripRange(s, cls);
  }

  lemma StripKeepsNoPair(s: string, cls: char -> bool, pair: char -> bool)
    requires NoPair(s, pair)
    ensures NoPair(Strip(s, cls), pair)
  {
    var i, j := StripRange(s, cls);
    var r := s[i..j];
    forall k | 0 < k < |r| ensures !(pair(r[k - 1]) && pair(r[k])) {
      assert r[k] == s[i + k] && r[k - 1] == s[i + k - 1];
    }
  }

  // ------------------------------------------------- what no pass removes

  /** `s` without its `cls` characters. */
  function Without(s: string, cls: char -> bool): string {
    if s == [] then [] else (if cls(s[0]) then [] else [s[0]]) + Without(s[1..], cls)
  }

  lemma {:induction false} WithoutConcat(s: string, t: string, cls: char -> bool)
    ensures Without(s + t, cls) == Without(s, cls) + Without(t, cls)
  {
    if s == [] {
      assert s + t == t;
    } else {
      WithoutConcat(s[1..], t, cls);
      assert (s + t)[0] == s[0] && (s + t)[1..] == s[1..] + t;
      AppendAssociates(if cls(s[0]) then [] else [s[0]], Without(s[1..], cls), Without(t, cls));
    }
  }

  lemma {:induction false} WithoutAll(s: string, cls: char -> bool)
    requires forall k | 0 <= k < |s| :: cls(s[k])
    ensures Without(s, cls) == []
  {
    if s != [] {
      WithoutAll(s[1..], cls);
    }
  }

  lemma {:induction false} WithoutCollapse(s: string, cls: char -> bool, repl: char, wide: char -> bool)
    requires wide(repl) && forall c | cls(c) :: wide(c)
    ensures Without(CollapseRuns(s, cls, repl), wide) == Without(s, wide)
  {
    if s != [] {
      WithoutCollapse(s[1..], cls, repl, wide);
      var tail := CollapseRuns(s[1..], cls, repl);
      if !cls(s[0]) {
        assert ([s[0]] + tail)[1..] == tail;
      } else if |s| == 1 || !cls(s[1]) {
        assert ([repl] + tail)[1..] == tail;
      }
    }
  }

  lemma WithoutStrip(s: string, cls: char -> bool, wide: char -> bool)
    requires forall c | cls(c) :: wide(c)
    ensures Without(Strip(s, cls), wide) == Without(s, wide)
  {
    var i, j := StripRange(s, cls);
    assert s == s[..i] + s[i..j] + s[j..];
    WithoutConcat(s[..i] + s[i..j], s[j..], wide);
    WithoutConcat(s[..i], s[i..j], wide);
    WithoutAll(s[..i], wide);
    WithoutAll(s[j..], wide);
  }

  lemma {:induction false} WithoutLower(s: string, wide: char -> bool)
    requires forall c | wide(c) :: IsReserved(c) && LOWER_TABLE(c) == [c]
    ensures Without(Lower(s), wide) == Lower(Without(s, wide))
  {
    if s != [] {
      WithoutLower(s[1..], wide);
      var h := LOWER_TABLE(s[0]);
      WithoutConcat(h, Lower(s[1..]), wide);
      if !wide(s[0]) {
        forall k | 0 <= k < |h| ensures !wide(h[k]) {
          LowerTableChar(s[0], h[k]);
        }
        WithoutNone(h, wide);
        assert ([s[0]] + Without(s[1..], wide))[1..] == Without(s[1..], wide);
      } else {
        assert h == [s[0]] && Without(h, wide) == [];
        assert Without(s, wide) == Without(s[1..], wide);
        assert [] + Without(Lower(s[1..]), wide) == Without(Lower(s[1..]), wide);
      }
    }
  }

  lemma {:induction false} WithoutNone(s: string, cls: char -> bool)
    requires forall k | 0 <= k < |s| :: !cls(s[k])
    ensures Without(s, cls) == s
  {
    if s != [] {
      WithoutNone(s[1..], cls);
    }
  }

  // --------------------------------------------------------------- words

  /** The maximal runs of characters outside `cls`, in order. */
  function Words(s: string, cls: char -> bool): seq<string> {
    if s == [] then []
    else
      var rest := Words(s[1..], cls);
      if cls(s[0]) then rest
      else if |s| == 1 || cls(s[1]) || rest == [] then [[s[0]]] + rest
      else [[s[0]] + rest[0]] + rest[1..]
  }

  /** The words with one `sep` between neighbours. */
  function Joined(words: seq<string>, sep: char): string {
    if words == [] then [] else if |words| == 1 then words[0] else words[0] + [sep] + Joined(words[1..], sep)
  }

  lemma {:induction false} SomeWords(s: string, cls: char -> bool)
    ensures Words(s, cls) == [] <==> forall k | 0 <= k < |s| :: cls(s[k])
  {
    if s != [] {
      SomeWords(s[1..], cls);
      assert forall k | 0 <= k < |s[1..]| :: s[1..][k] == s[k + 1];
    }
  }

  /** Collapsing a narrower class into one of the characters of `cls` keeps the words. */
  lemma {:induction false} CollapseKeepsWords(s: string, narrow: char -> bool, repl: char, cls: char -> bool)
    requires cls(repl) && forall c | narrow(c) :: cls(c)
    ensures Words(CollapseRuns(s, narrow, repl), cls) == Words(s, cls)
    ensures s != [] ==> CollapseRuns(s, narrow, repl) != [] && cls(CollapseRuns(s, narrow, repl)[0]) == cls(s[0])
  {
    if s != [] {
      CollapseKeepsWords(s[1..], narrow, repl, cls);
      var rest := CollapseRuns(s[1..], narrow, repl);
      if !narrow(s[0]) {
        assert ([s[0]] + rest)[1..] == rest;
      } else if |s| == 1 || !narrow(s[1]) {
        assert ([repl] + rest)[1..] == rest;
      }
    }
  }

  lemma {:induction false} StripLeftKeepsWords(s: string, cls: char -> bool)
    ensures Words(StripLeft(s, cls), cls) == Words(s, cls)
  {
    if s != [] && cls(s[0]) {
      StripLeftKeepsWords(s[1..], cls);
    }
  }

  lemma {:induction false} WordsBefore(s: string, c: char, cls: char -> bool)
    requires cls(c)
    ensures Words(s + [c], cls) == Words(s, cls)
  {
    if s == [] {
      assert Words([c][1..], cls) == [];
    } else {
      WordsBefore(s[1..], c, cls);
      assert (s + [c])[1..] == s[1..] + [c];
      if |s| == 1 {
        assert Words(s[1..], cls) == [];
      }
    }
  }

  lemma {:induction false} StripRightKeepsWords(s: string, cls: char -> bool)
    ensures Words(StripRight(s, cls), cls) == Words(s, cls)
  {
    if s != [] && cls(s[|s| - 1]) {
      StripRightKeepsWords(s[..|s| - 1], cls);
      WordsBefore(s[..|s| - 1], s[|s| - 1], cls);
      assert s == s[..|s| - 1] + [s[|s| - 1]];
    }
  }

  /** A text without two neighbours of `cls`, and with none at an edge, is its words, joined. */
  lemma {:induction false} TidyIsJoined(s: string, cls: char -> bool, repl: char)
    requires NoPair(s, cls) && CleanEdges(s, cls) && forall c | c in s && cls(c) :: c == repl
    ensures s == Joined(Words(s, cls), repl)
  {
    if |s| == 1 {
      assert Words(s[1..], cls) == [];
    } else if |s| > 1 {
      var t := s[1..];
      assert NoPair(t, cls) by {
        forall i | 0 < i < |t| ensures !(cls(t[i - 1]) && cls(t[i])) {
          assert t[i] == s[i + 1] && t[i - 1] == s[i];
        }
      }
      if cls(s[1]) {
        assert !cls(s[2]) by { assert !(cls(s[2 - 1]) && cls(s[2])); }
        assert NoPair(t[1..], cls) by {
          forall i | 0 < i < |t[1..]| ensures !(cls(t[1..][i - 1]) && cls(t[1..][i])) {
            assert t[1..][i] == t[i + 1] && t[1..][i - 1] == t[i];
          }
        }
        assert t[1..][|t[1..]| - 1] == s[|s| - 1];
        TidyIsJoined(t[1..], cls, repl);
        SomeWords(t[1..], cls);
        assert s == [s[0]] + [s[1]] + t[1..];
        assert ([[s[0]]] + Words(t, cls))[1..] == Words(t, cls);
      } else {
        TidyIsJoined(t, cls, repl);
        SomeWords(t, cls);
        FirstWordGrows(s[0], Words(t, cls), repl);
        assert s == [s[0]] + t;
      }
    }
  }

  lemma FirstWordGrows(c: char, words: seq<string>, sep: char)
    requires words != []
    ensures Joined([[c] + words[0]] + words[1..], sep) == [c] + Joined(words, sep)
  {
    var grown := [[c] + words[0]] + words[1..];
    assert grown[1..] == words[1..];
    if |words| > 1 {
      assert ([c] + words[0]) + [sep] + Joined(words[1..], sep) == [c] + (words[0] + [sep] + Joined(words[1..], sep));
    }
  }

  /** Collapsing and stripping leaves the words with one `repl` between them. */
  lemma CollapsedIsJoined(s: string, cls: char -> bool, repl: char)
    requires cls(repl)
    ensures Strip(CollapseRuns(s, cls, repl), cls) == Joined(Words(s, cls), repl)
  {
    var c := CollapseRuns(s, cls, repl);
    var r := Strip(c, cls);
    CollapseKeepsWords(s, cls, repl, cls);
    StripLeftKeepsWords(c, cls);
    StripRightKeepsWords(StripLeft(c, cls), cls);
    CollapseRunsNoPair(s, cls, repl);
    StripKeepsNoPair(c, cls, cls);
    CollapseRunsChars(s, cls, repl);
    StripFacts(c, cls);
    TidyIsJoined(r, cls, repl);
  }

  // ------------------------------------------- ligatures and line breaks

  function Spelling(c: char): string {
    match c
    case '\U{FB00}' => "ff"
    case '\U{FB01}' => "fi"
    case '\U{FB02}' => "fl"
    case '\U{FB03}' => "ffi"
    case '\U{FB04}' => "ffl"
    case _ => [c]
  }

  /** Every ligature written out in letters, in one pass. */
  function SpelledOut(s: string): string { if s == [] then [] else Spelling(s[0]) + SpelledOut(s[1..]) }

  lemma {:induction false} ReplaceCharConcat(s: string, t: string, c: char, repl: string)
    ensures ReplaceChar(s + t, c, repl) == ReplaceChar(s, c, repl) + ReplaceChar(t, c, repl)
  {
    if s == [] {
      assert s + t == t;
    } else {
      ReplaceCharConcat(s[1..], t, c, repl);
      assert (s + t)[0] == s[0] && (s + t)[1..] == s[1..] + t;
      AppendAssociates(if s[0] == c then repl else [s[0]], ReplaceChar(s[1..], c, repl), ReplaceChar(t, c, repl));
    }
  }

  lemma {:induction false} ReplaceAllConcat(s: string, t: string, table: seq<(char, string)>)
    ensures ReplaceAll(s + t, table) == ReplaceAll(s, table) + ReplaceAll(t, table)
    decreases |table|
  {
    if table != [] {
      ReplaceCharConcat(s, t, table[0].0, table[0].1);
      ReplaceAllConcat(ReplaceChar(s, table[0].0, table[0].1), ReplaceChar(t, table[0].0, table[0].1), table[1..]);
    }
  }

  lemma {:induction false} ReplaceAllAbsent(s: string, table: seq<(char, string)>)
    requires forall i | 0 <= i < |table| :: table[i].0 !in s
    ensures ReplaceAll(s, table) == s
    decreases |table|
  {
    if table != [] {
      ReplaceCharAbsent(s, table[0].0, table[0].1);
      assert forall i | 0 <= i < |table[1..]| :: table[1..][i] == table[i + 1];
      ReplaceAllAbsent(s, table[1..]);
    }
  }

  lemma {:induction false} ReplaceCharAbsent(s: string, c: char, repl: string)
    requires c !in s
    ensures ReplaceChar(s, c, repl) == s
  {
    if s != [] {
      ReplaceCharAbsent(s[1..], c, repl);
    }
  }

  /** One character: the entry of the table that has it, if there is one. */
  lemma {:induction false} ReplaceAllChar(c: char, table: seq<(char, string)>, k: nat)
    requires k < |table| && table[k].0 == c && forall i | 0 <= i < k :: table[i].0 != c
    requires forall i | 0 <= i < |table| :: table[i].0 !in table[k].1
    ensures ReplaceAll([c], table) == table[k].1
    decreases |table|
  {
    assert forall i | 0 <= i < |table[1..]| :: table[1..][i] == table[i + 1];
    assert ReplaceChar([c], table[0].0, table[0].1) == if k == 0 then table[0].1 else [c] by {
      assert [c][1..] == [];
    }
    if k == 0 {
      ReplaceAllAbsent(table[0].1, table[1..]);
    } else {
      ReplaceAllChar(c, table[1..], k - 1);
    }
  }

  lemma LigatureIsSpelled(c: char)
    ensures ReplaceLigatures([c]) == Spelling(c)
  {
    assert LIGATURES[0].0 == '\U{FB01}' && LIGATURES[1].0 == '\U{FB02}' && LIGATURES[2].0 == '\U{FB00}';
    assert LIGATURES[3].0 == '\U{FB03}' && LIGATURES[4].0 == '\U{FB04}';
    if k: nat :| k < |LIGATURES| && LIGATURES[k].0 == c {
      ReplaceAllChar(c, LIGATURES, k);
    } else {
      ReplaceAllAbsent([c], LIGATURES);
    }
  }

  /** The replacements, one ligature after the other, spell out each where it stands. */
  lemma {:induction false} LigaturesAreSpelledOut(s: string)
    ensures ReplaceLigatures(s) == SpelledOut(s)
  {
    if s == [] {
      ReplaceAllAbsent(s, LIGATURES);
    } else {
      LigaturesAreSpelledOut(s[1..]);
      LigatureIsSpelled(s[0]);
      ReplaceAllConcat([s[0]], s[1..], LIGATURES);
      assert s == [s[0]] + s[1..];
    }
  }

  ghost predicate HasBreak(s: string) { exists i :: 0 <= i < |s| - 1 && s[i] == '-' && s[i + 1] == '\n' }

  lemma TailHasNoBreak(s: string)
    requires s != [] && !HasBreak(s)
    ensures !HasBreak(s[1..])
    ensures |s| >= 2 && s[0] == '-' ==> s[1] != '\n'
  {
    var t := s[1..];
    forall i | 0 <= i < |t| - 1 ensures !(t[i] == '-' && t[i + 1] == '\n') {
      assert !(s[i + 1] == '-' && s[i + 1 + 1] == '\n');
    }
    assert |s| >= 2 ==> s[1] == s[0 + 1];
  }

  /** A text without a hyphenated line break is left alone. */
  lemma {:induction false} NothingToJoin(s: string)
    requires !HasBreak(s)
    ensures JoinHyphenBreaks(s) == s
  {
    if s != [] {
      TailHasNoBreak(s);
      NothingToJoin(s[1..]);
    }
  }

  lemma JoinOneMore(c: char, s: string)
    requires c == '-' ==> s == [] || s[0] != '\n'
    ensures JoinHyphenBreaks([c] + s) == [c] + JoinHyphenBreaks(s)
  {
    assert ([c] + s)[1..] == s;
  }

  /** A break is dropped where it stands, and the text before the first one is kept. */
  lemma {:induction false} BreakIsDropped(line: string, rest: string)
    requires !HasBreak(line)
    ensures JoinHyphenBreaks(line + "-\n" + rest) == line + JoinHyphenBreaks(rest)
  {
    if line == [] {
      assert ("-\n" + rest)[2..] == rest;
      assert line + "-\n" + rest == "-\n" + rest;
    } else {
      TailHasNoBreak(line);
      BreakIsDropped(line[1..], rest);
      var s := line[1..] + "-\n" + rest;
      assert line + "-\n" + rest == [line[0]] + s;
      JoinOneMore(line[0], s);
    }
  }

  // -------------------------------------------------------- normalize_text

  /** The strings `normalize_text` can produce. */
  ghost predicate IsNormalText(s: string) {
    && LowerCased(s)
    && NoneOf(s, IsLigature)
    && (forall c | c in s && IsSpace(c) :: c == ' ')
    && NoPair(s, IsSpace)
    && CleanEdges(s, IsSpace)
  }

  lemma NormalizeTextIsNormal(text: string)
    ensures IsNormalText(NormalizeText(text))
  {
    var s := ReplaceLigatures(JoinHyphenBreaks(text));
    var c := CollapseRuns(s, IsSpace, ' ');
    var t := Strip(c, IsSpace);
    var r := Lower(t);
    StripFacts(c, IsSpace);
    assert NoPair(t, IsSpace) by {
      CollapseRunsNoPair(s, IsSpace, ' ');
      StripKeepsNoPair(c, IsSpace, IsSpace);
    }
    LowerKeepsSpacing(t);
    LowerChars(t);
    forall d | d in r ensures !IsLigature(d) && (IsSpace(d) ==> d == ' ') {
      if IsReserved(d) {
        assert d in t && d in c;
        CollapseRunsChars(s, IsSpace, ' ');
        ReplaceLigaturesFacts(JoinHyphenBreaks(text));
      }
    }
    if t == [] { assert r == []; }
  }

  /** A string is left alone exactly when it is in normal form. */
  lemma NormalizeTextFixedPoints(s: string)
    ensures NormalizeText(s) == s <==> IsNormalText(s)
  {
    NormalizeTextIsNormal(s);
    if IsNormalText(s) {
      JoinHyphenBreaksIdentity(s);
      ReplaceLigaturesFacts(s);
      CollapseRunsIdentity(s, IsSpace, ' ');
      StripFacts(s, IsSpace);
      LowerOfLowerCased(s);
    }
  }

  lemma NormalizeTextIdempotent(text: string)
    ensures NormalizeText(NormalizeText(text)) == NormalizeText(text)
  {
    NormalizeTextIsNormal(text);
    NormalizeTextFixedPoints(NormalizeText(text));
  }

  /** Apart from hyphenated line breaks and ligatures, normalisation only lower-cases and
      changes white space: no other character is lost, added or moved. */
  lemma NormalizeTextKeepsCharacters(text: string)
    ensures Without(NormalizeText(text), IsSpace) == Lower(Without(SpelledOut(JoinHyphenBreaks(text)), IsSpace))
  {
    var s := ReplaceLigatures(JoinHyphenBreaks(text));
    var c := CollapseRuns(s, IsSpace, ' ');
    LigaturesAreSpelledOut(JoinHyphenBreaks(text));
    WithoutCollapse(s, IsSpace, ' ', IsSpace);
    WithoutStrip(c, IsSpace, IsSpace);
    forall d | IsSpace(d) ensures LOWER_TABLE(d) == [d] {
      var f: CaseTable := LOWER_TABLE;
      assert IsCaseTable(f);
    }
    WithoutLower(Strip(c, IsSpace), IsSpace);
  }

  /** In one formula: the words of the joined text, ligatures spelled out, with one blank between
      them, in lower case. */
  lemma NormalizeTextIsWords(text: string)
    ensures NormalizeText(text) == Lower(Joined(Words(SpelledOut(JoinHyphenBreaks(text)), IsSpace), ' '))
  {
    LigaturesAreSpelledOut(JoinHyphenBreaks(text));
    CollapsedIsJoined(ReplaceLigatures(JoinHyphenBreaks(text)), IsSpace, ' ');
  }

  // --------------------------------------------------- normalize_clause_id

  /** What one application guarantees: everything but stop punctuation is off the edges. */
  ghost predicate IsClauseIdShaped(s: string) {
    && LowerCased(s)
    && NoneOf(s, IsSeparator)
    && NoPair(s, IsDot)
    && CleanEdges(s, IsDot)
  }

  /** The identifiers that a further application leaves alone. */
  ghost predicate IsSettledClauseId(s: string) {
    IsClauseIdShaped(s) && CleanEdges(s, IsStop)
  }

  lemma TrimmedClauseIdChars(x: string)
    ensures LowerCased(TrimClauseId(x))
  {
    var low := Lower(Strip(x, IsSpace));
    LowerChars(Strip(x, IsSpace));
    forall c | c in TrimClauseId(x) ensures LOWER_TABLE(c) == [c] {
      assert c in low by { StripFacts(low, IsTrailing); }
    }
  }

  lemma NormalizedClauseIdChar(x: string, c: char)
    requires c in NormalizeClauseId(x)
    ensures !IsSeparator(c) && LOWER_TABLE(c) == [c]
  {
    var t := TrimClauseId(x);
    var s1 := CollapseRuns(t, IsSeparator, '.');
    var s2 := CollapseRuns(s1, IsDot, '.');
    assert c in s2 by { StripFacts(s2, IsDot); }
    assert c in s1 || c == '.' by { CollapseRunsChars(s1, IsDot, '.'); }
    assert (c in t && !IsSeparator(c)) || c == '.' by { CollapseRunsChars(t, IsSeparator, '.'); }
    TrimmedClauseIdChars(x);
    LowerTableAscii('.');
  }

  lemma NormalizeClauseIdShape(x: string)
    ensures IsClauseIdShaped(NormalizeClauseId(x))
  {
    var s1 := CollapseRuns(TrimClauseId(x), IsSeparator, '.');
    var s2 := CollapseRuns(s1, IsDot, '.');
    forall c | c in NormalizeClauseId(x) ensures !IsSeparator(c) && LOWER_TABLE(c) == [c] {
      NormalizedClauseIdChar(x, c);
    }
    assert CleanEdges(NormalizeClauseId(x), IsDot) by { StripFacts(s2, IsDot); }
    CollapseRunsNoPair(s1, IsDot, '.');
    StripKeepsNoPair(s2, IsDot, IsDot);
  }

  /** On a shaped identifier only the trailing strip can change anything. */
  lemma NormalizeShapedClauseId(r: string)
    requires IsClauseIdShaped(r)
    ensures NormalizeClauseId(r) == Strip(r, IsTrailing)
    ensures IsSettledClauseId(Strip(r, IsTrailing))
  {
    assert CleanEdges(r, IsSpace) by {
      assert r != [] ==> r[0] in r && r[|r| - 1] in r;
    }
    StripFacts(r, IsSpace);
    LowerOfLowerCased(r);
    var t := Strip(r, IsTrailing);
    StripFacts(r, IsTrailing);
    StripKeepsNoPair(r, IsTrailing, IsDot);
    CollapseRunsIdentity(t, IsSeparator, '.');
    CollapseRunsIdentity(t, IsDot, '.');
    StripFacts(t, IsDot);
  }

  lemma ClauseIdFixedPoints(r: string)
    ensures NormalizeClauseId(r) == r <==> IsSettledClauseId(r)
  {
    NormalizeClauseIdShape(r);
    if IsClauseIdShaped(r) {
      NormalizeShapedClauseId(r);
      StripFacts(r, IsTrailing);
      assert CleanEdges(r, IsTrailing) <==> CleanEdges(r, IsStop) by {
        assert r != [] ==> r[0] in r && r[|r| - 1] in r;
      }
    }
  }

  /** Two applications always reach a fixed point. */
  lemma ClauseIdStableAfterTwo(x: string)
    ensures NormalizeClauseId(NormalizeClauseId(NormalizeClauseId(x))) == NormalizeClauseId(NormalizeClauseId(x))
  {
    NormalizeClauseIdShape(x);
    NormalizeShapedClauseId(NormalizeClauseId(x));
    ClauseIdFixedPoints(NormalizeClauseId(NormalizeClauseId(x)));
  }

  /** First and last characters of `s` outside `cls`, if there are any. */
  function FirstKept(s: string, cls: char -> bool): string {
    if s == [] then [] else if cls(s[0]) then FirstKept(s[1..], cls) else [s[0]]
  }

  function LastKept(s: string, cls: char -> bool): string {
    if s == [] then []
    else if LastKept(s[1..], cls) != [] then LastKept(s[1..], cls)
    else if cls(s[0]) then [] else [s[0]]
  }

  lemma {:induction false} KeptAt(s: string, cls: char -> bool, i: nat, j: nat)
    requires i <= j <= |s|
    requires i < j ==> !cls(s[i]) && !cls(s[j - 1])
    requires forall k | 0 <= k < i || j <= k < |s| :: cls(s[k])
    ensures i < j ==> FirstKept(s, cls) == [s[i]] && LastKept(s, cls) == [s[j - 1]]
    ensures i == j ==> FirstKept(s, cls) == [] && LastKept(s, cls) == []
  {
    if s != [] {
      var t := s[1..];
      assert forall k | 0 <= k < |t| :: t[k] == s[k + 1];
      if i > 0 {
        KeptAt(t, cls, i - 1, j - 1);
      } else if j >= 2 {
        LastKeptAt(t, cls, j - 2);
      } else {
        NothingKept(t, cls);
        assert i == j ==> cls(s[0]);
      }
    }
  }

  lemma {:induction false} LastKeptAt(s: string, cls: char -> bool, j: nat)
    requires j < |s| && !cls(s[j]) && forall k | j < k < |s| :: cls(s[k])
    ensures LastKept(s, cls) == [s[j]]
  {
    if j == 0 {
      NothingKept(s[1..], cls);
    } else {
      LastKeptAt(s[1..], cls, j - 1);
    }
  }

  lemma {:induction false} NothingKept(s: string, cls: char -> bool)
    requires forall k | 0 <= k < |s| :: cls(s[k])
    ensures FirstKept(s, cls) == [] && LastKept(s, cls) == []
  {
    if s != [] {
      NothingKept(s[1..], cls);
    }
  }

  lemma StripKept(s: string, cls: char -> bool)
    ensures Strip(s, cls) == [] <==> FirstKept(s, cls) == []
    ensures Strip(s, cls) == [] <==> LastKept(s, cls) == []
    ensures Strip(s, cls) != [] ==> FirstKept(s, cls) == [Strip(s, cls)[0]]
    ensures Strip(s, cls) != [] ==> LastKept(s, cls) == [Strip(s, cls)[|Strip(s, cls)| - 1]]
  {
    var i, j := StripRange(s, cls);
    KeptAt(s, cls, i, j);
  }

  /** Collapsing a run of `cls` into a dot keeps the characters that are in neither class. */
  lemma {:induction false} CollapseKept(s: string, cls: char -> bool, wide: char -> bool)
    requires forall c :: wide(c) <==> cls(c) || c == '.'
    ensures FirstKept(CollapseRuns(s, cls, '.'), IsDot) == FirstKept(s, wide)
    ensures LastKept(CollapseRuns(s, cls, '.'), IsDot) == LastKept(s, wide)
  {
    if s != [] {
      var r := CollapseRuns(s, cls, '.');
      var r' := CollapseRuns(s[1..], cls, '.');
      CollapseKept(s[1..], cls, wide);
      if !cls(s[0]) {
        assert r[1..] == r' && r[0] == s[0];
      } else if |s| == 1 || !cls(s[1]) {
        assert r[1..] == r' && r[0] == '.';
      }
    }
  }

  /** `normalize_clause_id` is documented as idempotent. It is so on `x` exactly when no stop
      punctuation hides behind the hyphens, spaces and dots at the edges of the trimmed id. */
  lemma ClauseIdIdempotentIff(x: string)
    ensures NormalizeClauseId(NormalizeClauseId(x)) == NormalizeClauseId(x)
            <==> CleanEdges(Strip(TrimClauseId(x), IsSeparatorOrDot), IsStop)
  {
    var t := TrimClauseId(x);
    var s1 := CollapseRuns(t, IsSeparator, '.');
    var s2 := CollapseRuns(s1, IsDot, '.');
    CollapseKept(t, IsSeparator, IsSeparatorOrDot);
    CollapseKept(s1, IsDot, IsDot);
    StripKept(s2, IsDot);
    StripKept(t, IsSeparatorOrDot);
    NormalizeClauseIdShape(x);
    ClauseIdFixedPoints(NormalizeClauseId(x));
  }

  /** In particular one application is enough when the trim leaves no hyphen or space at an edge. */
  lemma ClauseIdStableAfterCleanTrim(x: string)
    requires CleanEdges(TrimClauseId(x), IsSeparator)
    ensures NormalizeClauseId(NormalizeClauseId(x)) == NormalizeClauseId(x)
  {
    var t := TrimClauseId(x);
    StripFacts(Lower(Strip(x, IsSpace)), IsTrailing);
    assert CleanEdges(t, IsSeparatorOrDot) && CleanEdges(t, IsStop);
    assert Strip(t, IsSeparatorOrDot) == t by { StripFacts(t, IsSeparatorOrDot); }
    ClauseIdIdempotentIff(x);
  }

  predicate IsClausePunctuation(c: char) { IsSeparatorOrDot(c) || IsStop(c) }

  /** Two spellings that differ only in letter case, separators and stops keep the same letters
      and digits in the same order. */
  lemma NormalizeClauseIdKeepsCharacters(x: string)
    ensures Without(NormalizeClauseId(x), IsClausePunctuation) == Lower(Without(x, IsClausePunctuation))
  {
    var a := Strip(x, IsSpace);
    var t := TrimClauseId(x);
    var s1 := CollapseRuns(t, IsSeparator, '.');
    var s2 := CollapseRuns(s1, IsDot, '.');
    forall d | IsClausePunctuation(d) ensures LOWER_TABLE(d) == [d] {
      var f: CaseTable := LOWER_TABLE;
      assert IsCaseTable(f);
      if !IsSpace(d) { LowerTableAscii(d); }
    }
    WithoutStrip(x, IsSpace, IsClausePunctuation);
    WithoutLower(a, IsClausePunctuation);
    WithoutStrip(Lower(a), IsTrailing, IsClausePunctuation);
    WithoutCollapse(t, IsSeparator, '.', IsClausePunctuation);
    WithoutCollapse(s1, IsDot, '.', IsClausePunctuation);
    WithoutStrip(s2, IsDot, IsClausePunctuation);
  }

  /** In one formula: the stretches of the trimmed id between separators and dots, with one dot
      between them. */
  lemma NormalizeClauseIdIsWords(x: string)
    ensures NormalizeClauseId(x) == Joined(Words(TrimClauseId(x), IsSeparatorOrDot), '.')
  {
    var t := TrimClauseId(x);
    var s1 := CollapseRuns(t, IsSeparator, '.');
    CollapsedIsJoined(s1, IsDot, '.');
    CollapseKeepsWords(t, IsSeparator, '.', IsSeparatorOrDot);
    SameClassSameWords(s1, IsDot, IsSeparatorOrDot) by {
      CollapseRunsChars(t, IsSeparator, '.');
    }
  }

  lemma {:induction false} SameClassSameWords(s: string, cls: char -> bool, cls': char -> bool)
    requires forall c | c in s :: cls(c) == cls'(c)
    ensures Words(s, cls) == Words(s, cls')
  {
    if s != [] {
      SameClassSameWords(s[1..], cls, cls');
    }
  }

  const PUNCTUATION := ".;:, \t"

  lemma PunctuationIsTrailing(c: char)
    ensures c in PUNCTUATION <==> IsTrailing(c)
  {
    var p := PUNCTUATION;
    assert p[0] == '.' && p[1] == ';' && p[2] == ':' && p[3] == ',' && p[4] == ' ' && p[5] == '\t';
  }

  /** `r` is the stretch of `s` between the first and the last character not in `off`. */
  ghost predicate IsStripped(s: string, off: string, r: string, i: nat, j: nat) {
    && i <= j <= |s| && r == s[i..j] && (i < j ==> s[i] !in off && s[j - 1] !in off)
    && forall k | 0 <= k < i || j <= k < |s| :: s[k] in off
  }

  /** After white space and case, the trim takes off exactly the characters of one set. */
  lemma TrimTakesOffPunctuation(x: string) returns (i: nat, j: nat)
    ensures IsStripped(Lower(Strip(x, IsSpace)), ".;:, \t", TrimClauseId(x), i, j)
  {
    var low := Lower(Strip(x, IsSpace));
    i, j := StripRange(low, IsTrailing);
    forall k | 0 <= k < |low| ensures low[k] in PUNCTUATION <==> IsTrailing(low[k]) {
      PunctuationIsTrailing(low[k]);
    }
  }

  lemma LowerKeepsSample()
    ensures Lower("1;-") == "1;-"
  {
    forall c | c in "1;-" ensures LOWER_TABLE(c) == [c] {
      LowerTableAscii(c);
    }
    LowerOfLowerCased("1;-");
  }

  lemma TrimKeepsSample()
    ensures TrimClauseId("1;-") == "1;-"
  {
    var x := "1;-";
    LowerKeepsSample();
    StripFacts(x, IsSpace);
    StripFacts(x, IsTrailing);
  }

  /** An input on which one application is not a fixed point. */
  lemma ClauseIdNotIdempotent()
    ensures NormalizeClauseId(NormalizeClauseId("1;-")) != NormalizeClauseId("1;-")
  {
    var x := "1;-";
    TrimKeepsSample();
    assert Strip(x, IsSeparatorOrDot) == "1;" by {
      assert StripLeft(x, IsSeparatorOrDot) == x;
      assert x[..2] == "1;";
    }
    ClauseIdIdempotentIff(x);
  }
}
