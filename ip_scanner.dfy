/**
  The one regular expression the analyser uses,
  `\b(?:[0-9]{1,3}\.){3}[0-9]{1,3}\b`, and `re.findall` over it, written
  as a scanner instead of a general regex engine.

  Digits are word characters, and each digit group must be followed by a
  literal `.` or by `\b`. So, whatever the backtracking, a group is a whole
  maximal run of one to three digits. The first group must follow a
  non-word character or the start of the line, and the last must precede
  one or the end. `re.findall` tries each position from left to right and
  resumes after a match, so matches never overlap. No range check is made.
 */
module IpScanner {
  import opened Wrappers
  import opened Text

  /** The regex class `\w`, restricted to ASCII: letters, digits and `_`. */
  predicate IsWordChar(c: char) {
    'a' <= c <= 'z' || 'A' <= c <= 'Z' || IsDigit(c) || c == '_'
  }

  /** `\b` holds just before position `p`, given that `s[p]` is a word character. */
  predicate BoundaryBefore(s: string, p: nat)
    requires p <= |s|
  {
    p == 0 || !IsWordChar(s[p - 1])
  }

  /** `\b` holds at position `e`, given that `s[e - 1]` is a word character. */
  predicate BoundaryAfter(s: string, e: nat)
    requires e <= |s|
  {
    e == |s| || !IsWordChar(s[e])
  }

  /** One group of the pattern, `[0-9]{1,3}`. */
  predicate IsGroup(g: string) {
    1 <= |g| <= 3 && forall i :: 0 <= i < |g| ==> IsDigit(g[i])
  }

  /** `t` is `k` groups of one to three digits separated by dots. */
  predicate DottedGroups(t: string, k: nat) {
    var parts := Split(t, '.');
    |parts| == k && AllGroups(parts)
  }

  predicate AllGroups(parts: seq<string>) {
    forall j :: 0 <= j < |parts| ==> IsGroup(parts[j])
  }

  lemma AllGroupsCons(g: string, rest: seq<string>)
    ensures AllGroups([g] + rest) <==> IsGroup(g) && AllGroups(rest)
  {
    var parts := [g] + rest;
    if AllGroups(parts) {
      assert IsGroup(parts[0]);
      forall j | 0 <= j < |rest| ensures IsGroup(rest[j]) {
        assert rest[j] == parts[j + 1];
      }
    }
  }

  /** A dotted quad: four dot-separated groups of one to three ASCII digits, whatever their value. */
  predicate IsDottedQuad(t: string) {
    DottedGroups(t, 4)
  }

  /**
    The declarative reading of a match: `s[p..e]` is a dotted quad with a
    word boundary on each side.
   */
  predicate IsIpMatch(s: string, p: nat, e: nat) {
    p <= e <= |s| && BoundaryBefore(s, p) && IsDottedQuad(s[p..e]) && BoundaryAfter(s, e)
  }

  /** The length of the run of digits that starts at `i`. */
  function DigitRun(s: string, i: nat): (n: nat)
    requires i <= |s|
    ensures i + n <= |s|
    decreases |s| - i
  {
    if i < |s| && IsDigit(s[i]) then 1 + DigitRun(s, i + 1) else 0
  }

  /** `DigitRun` measures a run of digits that cannot be extended. */
  lemma {:induction false} DigitRunMaximal(s: string, i: nat)
    requires i <= |s|
    ensures forall k :: i <= k < i + DigitRun(s, i) ==> IsDigit(s[k])
    ensures i + DigitRun(s, i) == |s| || !IsDigit(s[i + DigitRun(s, i)])
    decreases |s| - i
  {
    if i < |s| && IsDigit(s[i]) {
      DigitRunMaximal(s, i + 1);
    }
  }

  /**
    Matches the last `k` groups of the pattern from index `i` and returns
    where the match ends. The first `k - 1` groups must each be followed
    by a dot, and the last by `\b`.
   */
  function GroupsEnd(s: string, i: nat, k: nat): (r: Option<nat>)
    requires i <= |s| && 1 <= k
    ensures r.Some? ==> i < r.value <= |s|
    decreases k
  {
    var n := DigitRun(s, i);
    if n == 0 || n > 3 then None
    else if k == 1 then (if BoundaryAfter(s, i + n) then Some(i + n) else None)
    else if i + n < |s| && s[i + n] == '.' then GroupsEnd(s, i + n + 1, k - 1)
    else None
  }

  /** The end of the match of the whole pattern at position `p`, if there is one. */
  function MatchAt(s: string, p: nat): (r: Option<nat>)
    requires p <= |s|
    ensures r.Some? ==> p < r.value <= |s|
  {
    if BoundaryBefore(s, p) then GroupsEnd(s, p, 4) else None
  }

  /** `re.findall` from position `p`: the leftmost match, then the matches after it. */
  function MatchesFrom(s: string, p: nat): seq<string>
    requires p <= |s|
    decreases |s| - p
  {
    if p == |s| then []
    else match MatchAt(s, p)
      case Some(e) => [s[p..e]] + MatchesFrom(s, e)
      case None => MatchesFrom(s, p + 1)
  }

  /** `re.findall(pattern, s)`. */
  function Matches(s: string): seq<string> {
    MatchesFrom(s, 0)
  }

  // ---------------------------------------------------------------------
  // The scanner agrees with the declarative reading of the pattern
  // ---------------------------------------------------------------------

  /** A run of digits that ends at a non-digit (or at the end) is the whole run `DigitRun` measures. */
  lemma DigitRunExact(s: string, i: nat, e: nat)
    requires i <= e <= |s|
    requires forall k :: i <= k < e ==> IsDigit(s[k])
    requires e == |s| || !IsDigit(s[e])
    ensures DigitRun(s, i) == e - i
  {
    DigitRunMaximal(s, i);
  }

  /** A group that ends at a non-digit (or at the end) is exactly what `DigitRun` measures. */
  lemma GroupRun(s: string, i: nat, m: nat)
    requires i <= m <= |s| && IsGroup(s[i..m])
    requires m == |s| || !IsDigit(s[m])
    ensures DigitRun(s, i) == m - i
  {
    forall k | i <= k < m ensures IsDigit(s[k]) {
      assert s[k] == s[i..m][k - i];
    }
    DigitRunExact(s, i, m);
  }

  lemma GroupHasNoDot(g: string)
    requires IsGroup(g)
    ensures '.' !in g
  {
  }

  /** One dotted group is a single group. */
  lemma DottedGroupsOne(t: string)
    ensures DottedGroups(t, 1) <==> IsGroup(t)
  {
    SplitFirst(t, '.');
    if IsGroup(t) {
      GroupHasNoDot(t);
      SplitNoSeparator(t, '.');
    }
  }

  /** A group, a dot and `k - 1` more dotted groups make `k` dotted groups. */
  lemma DottedGroupsCons(g: string, r: string, k: nat)
    requires 2 <= k && '.' !in g
    ensures DottedGroups(g + ['.'] + r, k) <==> IsGroup(g) && DottedGroups(r, k - 1)
  {
    SplitAfterPart(g, '.', r);
    AllGroupsCons(g, Split(r, '.'));
  }

  /** What `GroupsEnd` finds is `k` dotted groups followed by `\b`. */
  lemma {:induction false} GroupsEndSound(s: string, i: nat, k: nat, e: nat)
    requires 1 <= k && i <= e <= |s|
    requires GroupsEnd(s, i, k) == Some(e)
    ensures DottedGroups(s[i..e], k) && BoundaryAfter(s, e)
    decreases k
  {
    var n := DigitRun(s, i);
    DigitRunMaximal(s, i);
    var g := s[i..i + n];
    assert IsGroup(g);
    if k == 1 {
      DottedGroupsOne(g);
    } else {
      GroupHasNoDot(g);
      GroupsEndSound(s, i + n + 1, k - 1, e);
      assert s[i..e] == g + ['.'] + s[i + n + 1..e];
      DottedGroupsCons(g, s[i + n + 1..e], k);
    }
  }

  /** A group of one to three digits followed by a dot hands the rest of the match to the next group. */
  lemma GroupsEndStep(s: string, i: nat, k: nat, n: nat)
    requires 2 <= k && i <= |s|
    requires DigitRun(s, i) == n && 1 <= n <= 3
    requires i + n < |s| && s[i + n] == '.'
    ensures GroupsEnd(s, i, k) == GroupsEnd(s, i + n + 1, k - 1)
  {
  }

  /** Two or more dotted groups from `i`: a first group, as long as `DigitRun` says, then a dot and the rest. */
  lemma DottedGroupsHead(s: string, i: nat, e: nat, parts: seq<string>) returns (n: nat)
    requires i <= e <= |s| && 2 <= |parts|
    requires Split(s[i..e], '.') == parts && AllGroups(parts)
    ensures DigitRun(s, i) == n && 1 <= n <= 3
    ensures i + n < e && s[i + n] == '.'
    ensures Split(s[i + n + 1..e], '.') == parts[1..]
  {
    var t := s[i..e];
    SplitFirst(t, '.');
    n := |parts[0]|;
    assert IsGroup(parts[0]);
    assert t[..n] == s[i..i + n];
    assert t[n + 1..] == s[i + n + 1..e];
    GroupRun(s, i, i + n);
  }

  /** Where dotted groups start at `i` and are followed by `\b`, `GroupsEnd` finds their end. */
  lemma {:induction false} GroupsEndComplete(s: string, i: nat, e: nat, parts: seq<string>)
    requires 1 <= |parts| && i <= e <= |s|
    requires Split(s[i..e], '.') == parts && AllGroups(parts) && BoundaryAfter(s, e)
    ensures GroupsEnd(s, i, |parts|) == Some(e)
    decreases |parts|
  {
    if |parts| == 1 {
      DottedGroupsOne(s[i..e]);
      GroupRun(s, i, e);
    } else {
      var n := DottedGroupsHead(s, i, e, parts);
      GroupsEndComplete(s, i + n + 1, e, parts[1..]);
      GroupsEndStep(s, i, |parts|, n);
    }
  }

  /** The scanner matches at `p`, ending at `e`, exactly when `s[p..e]` is a dotted quad between word boundaries. */
  lemma MatchAtSpec(s: string, p: nat, e: nat)
    requires p <= e <= |s|
    ensures MatchAt(s, p) == Some(e) <==> IsIpMatch(s, p, e)
  {
    if MatchAt(s, p) == Some(e) {
      GroupsEndSound(s, p, 4, e);
    }
    if IsIpMatch(s, p, e) {
      GroupsEndComplete(s, p, e, Split(s[p..e], '.'));
    }
  }

  /** Every string `re.findall` returns from `p` on is a dotted quad that occurs in `s` at or after `p`. */
  lemma {:induction false} MatchesFromAreQuads(s: string, p: nat)
    requires p <= |s|
    ensures forall t :: t in MatchesFrom(s, p) ==>
      IsDottedQuad(t) && exists i: nat :: p <= i && OccursAt(s, t, i)
    decreases |s| - p
  {
    if p < |s| {
      match MatchAt(s, p)
      case Some(e) =>
        MatchesFromAreQuads(s, e);
        MatchAtSpec(s, p, e);
        assert OccursAt(s, s[p..e], p);
      case None =>
        MatchesFromAreQuads(s, p + 1);
    }
  }

  /** Every IP the line yields is a dotted quad and a substring of the line. */
  lemma MatchesAreQuads(s: string)
    ensures forall t :: t in Matches(s) ==> IsDottedQuad(t) && Contains(s, t)
  {
    MatchesFromAreQuads(s, 0);
  }

  /** Dotted groups, a dotted quad among them, hold no newline, so an IP never splits a report line. */
  lemma {:induction false} DottedGroupsHaveNoNewline(t: string, k: nat)
    requires DottedGroups(t, k)
    ensures '\n' !in t
    decreases k
  {
    var parts := Split(t, '.');
    SplitFirst(t, '.');
    var n := |parts[0]|;
    assert IsGroup(parts[0]);
    if k > 1 {
      assert Split(t[n + 1..], '.') == parts[1..];
      DottedGroupsHaveNoNewline(t[n + 1..], k - 1);
      assert t == t[..n] + ['.'] + t[n + 1..];
    }
  }

  // ---------------------------------------------------------------------
  // `re.findall` finds the leftmost matches, without overlap
  // ---------------------------------------------------------------------

  lemma MatchesFromHit(s: string, p: nat, e: nat)
    requires p < |s| && MatchAt(s, p) == Some(e)
    ensures MatchesFrom(s, p) == [s[p..e]] + MatchesFrom(s, e)
  {
  }

  lemma MatchesFromMiss(s: string, p: nat)
    requires p < |s| && MatchAt(s, p) == None
    ensures MatchesFrom(s, p) == MatchesFrom(s, p + 1)
  {
  }

  /** `k` groups of at least one digit, with a dot between each two, take at least `2 * k - 1` characters. */
  lemma {:induction false} GroupsEndLength(s: string, i: nat, k: nat)
    requires i <= |s| && 1 <= k
    ensures GroupsEnd(s, i, k).Some? ==> i + 2 * k - 1 <= GroupsEnd(s, i, k).value
    decreases k
  {
    var n := DigitRun(s, i);
    if 1 <= n <= 3 && k > 1 && i + n < |s| && s[i + n] == '.' {
      GroupsEndLength(s, i + n + 1, k - 1);
    }
  }

  /** A match is at least seven characters long, as in `0.0.0.0`. */
  lemma MatchLength(s: string, p: nat)
    requires p <= |s|
    ensures MatchAt(s, p).Some? ==> p + 7 <= MatchAt(s, p).value
  {
    GroupsEndLength(s, p, 4);
  }

  /** Fewer than seven characters left hold no match. */
  lemma {:induction false} NoRoomNoMatches(s: string, p: nat)
    requires p <= |s| && |s| < p + 7
    ensures MatchesFrom(s, p) == []
    decreases |s| - p
  {
    if p < |s| {
      MatchLength(s, p);
      NoRoomNoMatches(s, p + 1);
    }
  }

  /** `re.findall` from `p` finds nothing exactly when no dotted quad between word boundaries starts at or after `p`. */
  lemma {:induction false} NoMatchesIff(s: string, p: nat)
    requires p <= |s|
    ensures MatchesFrom(s, p) == [] <==> forall q, e :: p <= q <= e <= |s| ==> !IsIpMatch(s, q, e)
    decreases |s| - p
  {
    if p < |s| {
      NoMatchesIff(s, p + 1);
      match MatchAt(s, p)
      case Some(e) =>
        MatchAtSpec(s, p, e);
      case None =>
        forall e | p <= e <= |s| ensures !IsIpMatch(s, p, e) {
          MatchAtSpec(s, p, e);
        }
    }
  }

  /** The scanner matches nowhere from `p` up to, but not including, `q`. */
  predicate NoMatchBetween(s: string, p: nat, q: nat)
    requires q <= |s|
  {
    forall q' :: p <= q' < q ==> MatchAt(s, q') == None
  }

  /**
    `re.findall` from `p` starts with the match from `q` to `e`, then goes
    on from `e`.
   */
  predicate FirstMatchFrom(s: string, p: nat, q: nat, e: nat) {
    p <= q <= e <= |s| && MatchAt(s, q) == Some(e) && NoMatchBetween(s, p, q)
    && MatchesFrom(s, p) == [s[q..e]] + MatchesFrom(s, e)
  }

  /**
    From `p`, `re.findall` finds its first match at the first position `q`
    where the pattern matches, and resumes the search where that match ends.
   */
  lemma {:induction false} MatchesResume(s: string, p: nat)
    requires p <= |s| && MatchesFrom(s, p) != []
    ensures exists q, e :: FirstMatchFrom(s, p, q, e)
    decreases |s| - p
  {
    if MatchAt(s, p).Some? {
      var e := MatchAt(s, p).value;
      MatchesFromHit(s, p, e);
      assert FirstMatchFrom(s, p, p, e);
    } else {
      MatchesFromMiss(s, p);
      MatchesResume(s, p + 1);
      var q: nat, e: nat :| FirstMatchFrom(s, p + 1, q, e);
      assert FirstMatchFrom(s, p, q, e);
    }
  }

  /**
    The first string `re.findall` returns from `p` is the leftmost match:
    a dotted quad between word boundaries from `q` to `e`, with none
    starting between `p` and `q`. The strings after it are what
    `re.findall` returns from `e`, so the search resumes where the match
    ended and no two matches overlap.
   */
  lemma FirstMatchIsLeftmost(s: string, p: nat)
    requires p <= |s| && MatchesFrom(s, p) != []
    ensures exists q, e :: p <= q <= e <= |s| && IsIpMatch(s, q, e)
              && MatchesFrom(s, p) == [s[q..e]] + MatchesFrom(s, e)
              && forall q', e' :: p <= q' < q && q' <= e' <= |s| ==> !IsIpMatch(s, q', e')
  {
    MatchesResume(s, p);
    var q: nat, e: nat :| FirstMatchFrom(s, p, q, e);
    MatchAtSpec(s, q, e);
    forall q', e' | p <= q' < q && q' <= e' <= |s| ensures !IsIpMatch(s, q', e') {
      MatchAtSpec(s, q', e');
    }
  }

  // ---------------------------------------------------------------------
  // Examples
  //
  // Each example takes its string as a parameter equal to a literal, and
  // goes one scanning step at a time: unfolding the scanner directly on a
  // literal argument costs the verifier far more.
  // ---------------------------------------------------------------------

  /** Four one-digit groups from `p`: dots between them and `\b` on both sides make a match. */
  lemma OneDigitQuad(s: string, p: nat)
    requires p + 7 <= |s| && BoundaryBefore(s, p) && BoundaryAfter(s, p + 7)
    requires IsDigit(s[p]) && s[p + 1] == '.' && IsDigit(s[p + 2]) && s[p + 3] == '.'
    requires IsDigit(s[p + 4]) && s[p + 5] == '.' && IsDigit(s[p + 6])
    ensures MatchAt(s, p) == Some(p + 7)
  {
    DigitRunExact(s, p, p + 1);
    DigitRunExact(s, p + 2, p + 3);
    DigitRunExact(s, p + 4, p + 5);
    DigitRunExact(s, p + 6, p + 7);
    GroupsEndStep(s, p, 4, 1);
    GroupsEndStep(s, p + 2, 3, 1);
    GroupsEndStep(s, p + 4, 2, 1);
  }

  lemma NonOverlappingFirst(s: string)
    requires s == "1.2.3.4.5.6.7.8"
    ensures MatchesFrom(s, 0) == ["1.2.3.4"] + MatchesFrom(s, 7)
  {
    OneDigitQuad(s, 0);
    MatchesFromHit(s, 0, 7);
    assert s[0..7] == "1.2.3.4";
  }

  lemma NonOverlappingSecond(s: string)
    requires s == "1.2.3.4.5.6.7.8"
    ensures MatchesFrom(s, 7) == ["5.6.7.8"]
  {
    assert DigitRun(s, 7) == 0;
    MatchesFromMiss(s, 7);
    OneDigitQuad(s, 8);
    MatchesFromHit(s, 8, 15);
    assert s[8..15] == "5.6.7.8";
  }

  /** Scanning resumes after a match: `1.2.3.4.5.6.7.8` yields two addresses, not five. */
  lemma NonOverlappingExample(s: string)
    requires s == "1.2.3.4.5.6.7.8"
    ensures Matches(s) == ["1.2.3.4", "5.6.7.8"]
  {
    NonOverlappingFirst(s);
    NonOverlappingSecond(s);
  }

  lemma NoRangeCheckMatch(s: string)
    requires s == "999.999.999.999"
    ensures MatchAt(s, 0) == Some(15)
  {
    DigitRunExact(s, 0, 3);
    DigitRunExact(s, 4, 7);
    DigitRunExact(s, 8, 11);
    DigitRunExact(s, 12, 15);
    GroupsEndStep(s, 0, 4, 3);
    GroupsEndStep(s, 4, 3, 3);
    GroupsEndStep(s, 8, 2, 3);
  }

  /** Octets are not range-checked: `999.999.999.999` is reported as an address. */
  lemma NoRangeCheckExample(s: string)
    requires s == "999.999.999.999"
    ensures Matches(s) == ["999.999.999.999"]
  {
    NoRangeCheckMatch(s);
    MatchesFromHit(s, 0, 15);
    assert s[0..15] == s;
  }

  /** A letter glued on the left removes the `\b` before the first group: `a1.2.3.4` yields nothing. */
  lemma GluedLeftExample(s: string)
    requires s == "a1.2.3.4"
    ensures Matches(s) == []
  {
    MatchesFromMiss(s, 0);
    MatchesFromMiss(s, 1);
    NoRoomNoMatches(s, 2);
  }

  /** A fourth group of four digits is no group, and no shorter match fits: `1.2.3.4567` yields nothing. */
  lemma LongGroupExample(s: string)
    requires s == "1.2.3.4567"
    ensures Matches(s) == []
  {
    DigitRunExact(s, 0, 1);
    DigitRunExact(s, 2, 3);
    DigitRunExact(s, 4, 5);
    DigitRunExact(s, 6, 10);
    GroupsEndStep(s, 0, 4, 1);
    GroupsEndStep(s, 2, 3, 1);
    GroupsEndStep(s, 4, 2, 1);
    GroupsEndStep(s, 2, 4, 1);
    GroupsEndStep(s, 4, 3, 1);
    MatchesFromMiss(s, 0);
    MatchesFromMiss(s, 1);
    MatchesFromMiss(s, 2);
    MatchesFromMiss(s, 3);
    NoRoomNoMatches(s, 4);
  }

  /**
    A dotted quad that overlaps an earlier match is not returned: in
    `1.2.3.4.5.6.7` the text from index 2 to 9 is `2.3.4.5`, a dotted quad
    between word boundaries, yet only `1.2.3.4` is found.
   */
  lemma OverlapSkippedExample(s: string)
    requires s == "1.2.3.4.5.6.7"
    ensures IsIpMatch(s, 2, 9) && s[2..9] == "2.3.4.5"
    ensures Matches(s) == ["1.2.3.4"]
  {
    OneDigitQuad(s, 2);
    MatchAtSpec(s, 2, 9);
    OneDigitQuad(s, 0);
    MatchesFromHit(s, 0, 7);
    NoRoomNoMatches(s, 7);
    assert s[0..7] == "1.2.3.4";
  }
}
