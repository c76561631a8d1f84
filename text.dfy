/**
  String primitives the log analyser relies on, restricted to what the
  program uses of Python's `str`: ASCII lower-casing, the `in` substring
  test, `str.count`, `str(n)` for naturals and `"\n".join` with its
  inverse, splitting on newlines.
 */
module Text {

  /** Python's `str.lower` restricted to ASCII letters. */
  function LowerChar(c: char): char {
    if 'A' <= c <= 'Z' then (c as int + 32) as char else c
  }

  function Lower(s: string): string {
    seq(|s|, i requires 0 <= i < |s| => LowerChar(s[i]))
  }

  lemma LowerIdempotent(s: string)
    ensures Lower(Lower(s)) == Lower(s)
  {
  }

  // ---------------------------------------------------------------------
  // Substring search: Python's `needle in s`
  // ---------------------------------------------------------------------

  /** `needle` occurs in `s` at index `i`. */
  predicate OccursAt(s: string, needle: string, i: nat) {
    i + |needle| <= |s| && s[i..i + |needle|] == needle
  }

  lemma OccursAtShift(s: string, needle: string, i: nat)
    requires s != []
    ensures OccursAt(s[1..], needle, i) <==> OccursAt(s, needle, i + 1)
  {
    if i + |needle| <= |s[1..]| {
      assert s[1..][i..i + |needle|] == s[i + 1..i + 1 + |needle|];
    }
  }

  /** Python's `needle in s`: true exactly when `needle` occurs somewhere in `s`. */
  function Contains(s: string, needle: string): (b: bool)
    ensures b <==> exists i: nat :: OccursAt(s, needle, i)
    decreases |s|
  {
    if needle <= s then
      assert OccursAt(s, needle, 0);
      true
    else if s == [] then
      false
    else
      var rest := Contains(s[1..], needle);
      assert rest ==> exists i: nat :: OccursAt(s, needle, i) by {
        if rest {
          var i: nat :| OccursAt(s[1..], needle, i);
          OccursAtShift(s, needle, i);
        }
      }
      assert (exists i: nat :: OccursAt(s, needle, i)) ==> rest by {
        if i: nat :| OccursAt(s, needle, i) {
          assert i != 0;
          OccursAtShift(s, needle, i - 1);
        }
      }
      rest
  }

  /** A needle holding a character the text lacks does not occur in it. */
  lemma MissingCharNotContained(s: string, needle: string, c: char)
    requires c in needle && c !in s
    ensures !Contains(s, needle)
  {
    var k :| 0 <= k < |needle| && needle[k] == c;
    forall i: nat | i + |needle| <= |s| ensures !OccursAt(s, needle, i) {
      assert s[i..i + |needle|][k] == s[i + k] != c;
    }
  }

  // ---------------------------------------------------------------------
  // Python's `s.count(needle)`
  // ---------------------------------------------------------------------

  /**
    Python's `s.count(needle)`: occurrences found by scanning left to right
    and resuming after each one, so they never overlap. An empty needle
    occurs at each of the |s| + 1 positions.
   */
  function CountOccurrences(s: string, needle: string): nat
    decreases |s|
  {
    if needle == [] then |s| + 1
    else if needle <= s then 1 + CountOccurrences(s[|needle|..], needle)
    else if s == [] then 0
    else CountOccurrences(s[1..], needle)
  }

  /** `ps` lists, in increasing order, positions of occurrences of `needle` in `s` that do not overlap. */
  ghost predicate DisjointOccurrences(s: string, needle: string, ps: seq<nat>) {
    && (forall j :: 0 <= j < |ps| ==> OccursAt(s, needle, ps[j]))
    && (forall j, k :: 0 <= j < k < |ps| ==> ps[j] + |needle| <= ps[k])
  }

  /** The positions at which `CountOccurrences` finds its occurrences. */
  ghost function GreedyPositions(s: string, needle: string): seq<nat>
    requires needle != []
    decreases |s|
  {
    if needle <= s then [0] + Shifted(GreedyPositions(s[|needle|..], needle), |needle|)
    else if s == [] then []
    else Shifted(GreedyPositions(s[1..], needle), 1)
  }

  ghost function Shifted(ps: seq<nat>, d: nat): (r: seq<nat>)
    ensures |r| == |ps| && forall j :: 0 <= j < |ps| ==> r[j] == ps[j] + d
  {
    seq(|ps|, j requires 0 <= j < |ps| => ps[j] + d)
  }

  /** An occurrence in a suffix of `s` is an occurrence in `s`, shifted by the suffix's start. */
  lemma OccursAtSuffix(s: string, needle: string, d: nat, i: nat)
    requires d <= |s|
    ensures OccursAt(s[d..], needle, i) <==> OccursAt(s, needle, i + d)
  {
    if i + |needle| <= |s[d..]| {
      assert s[d..][i..i + |needle|] == s[i + d..i + d + |needle|];
    }
  }

  /** Occurrences listed for a suffix starting at `d` are occurrences of `s`, once shifted by `d`. */
  lemma ShiftedDisjoint(s: string, needle: string, d: nat, qs: seq<nat>)
    requires d <= |s|
    requires DisjointOccurrences(s[d..], needle, qs)
    ensures DisjointOccurrences(s, needle, Shifted(qs, d))
  {
    forall j | 0 <= j < |qs| ensures OccursAt(s, needle, qs[j] + d) {
      OccursAtSuffix(s, needle, d, qs[j]);
    }
  }

  /** Undoes `Shifted`: moves every position `d` to the left. */
  ghost function Unshifted(ps: seq<nat>, d: nat): (r: seq<nat>)
    requires forall j :: 0 <= j < |ps| ==> d <= ps[j]
    ensures |r| == |ps| && forall j :: 0 <= j < |ps| ==> r[j] == ps[j] - d
  {
    seq(|ps|, j requires 0 <= j < |ps| => ps[j] - d)
  }

  /** Occurrences of `s` at or after `d`, moved left by `d`, are occurrences of the suffix from `d`. */
  lemma UnshiftedDisjoint(s: string, needle: string, d: nat, ps: seq<nat>)
    requires d <= |s|
    requires forall j :: 0 <= j < |ps| ==> d <= ps[j]
    requires DisjointOccurrences(s, needle, ps)
    ensures DisjointOccurrences(s[d..], needle, Unshifted(ps, d))
  {
    forall j | 0 <= j < |ps| ensures OccursAt(s[d..], needle, ps[j] - d) {
      OccursAtSuffix(s, needle, d, ps[j] - d);
    }
  }

  /** The greedy scan really finds `CountOccurrences(s, needle)` non-overlapping occurrences. */
  lemma {:induction false} GreedyPositionsDisjoint(s: string, needle: string)
    requires needle != []
    ensures |GreedyPositions(s, needle)| == CountOccurrences(s, needle)
    ensures DisjointOccurrences(s, needle, GreedyPositions(s, needle))
    decreases |s|
  {
    var m := |needle|;
    if needle <= s {
      GreedyPositionsDisjoint(s[m..], needle);
      var rest := Shifted(GreedyPositions(s[m..], needle), m);
      ShiftedDisjoint(s, needle, m, GreedyPositions(s[m..], needle));
      assert OccursAt(s, needle, 0);
      var ps := [0] + rest;
      assert forall j :: 0 < j < |ps| ==> ps[j] == rest[j - 1];
    } else if s == [] {
    } else {
      GreedyPositionsDisjoint(s[1..], needle);
      ShiftedDisjoint(s, needle, 1, GreedyPositions(s[1..], needle));
    }
  }

  /** No list of non-overlapping occurrences is longer than what the greedy scan counts. */
  lemma {:induction false} DisjointOccurrencesBounded(s: string, needle: string, ps: seq<nat>)
    requires needle != []
    requires DisjointOccurrences(s, needle, ps)
    ensures |ps| <= CountOccurrences(s, needle)
    decreases |s|
  {
    var m := |needle|;
    if ps == [] {
    } else if needle <= s {
      // Every occurrence after the first starts at or after m.
      var tail := ps[1..];
      assert forall j :: 0 <= j < |tail| ==> m <= tail[j] by {
        forall j | 0 <= j < |tail| ensures m <= tail[j] {
          assert ps[0] + m <= ps[j + 1];
        }
      }
      assert DisjointOccurrences(s, needle, tail);
      UnshiftedDisjoint(s, needle, m, tail);
      DisjointOccurrencesBounded(s[m..], needle, Unshifted(tail, m));
    } else {
      // No occurrence at 0, so every listed occurrence starts at 1 or later.
      assert OccursAt(s, needle, ps[0]);
      assert s != [];
      assert forall j :: 0 <= j < |ps| ==> 1 <= ps[j] by {
        forall j | 0 <= j < |ps| ensures 1 <= ps[j] {
          if j > 0 { assert ps[0] + m <= ps[j]; }
        }
      }
      UnshiftedDisjoint(s, needle, 1, ps);
      DisjointOccurrencesBounded(s[1..], needle, Unshifted(ps, 1));
    }
  }

  /**
    For a non-empty needle, `str.count` is the largest number of
    non-overlapping occurrences: some list of that many exists, and none is
    longer.
   */
  lemma CountIsMaximumDisjoint(s: string, needle: string, ps: seq<nat>)
    requires needle != []
    ensures DisjointOccurrences(s, needle, ps) ==> |ps| <= CountOccurrences(s, needle)
    ensures exists qs :: |qs| == CountOccurrences(s, needle) && DisjointOccurrences(s, needle, qs)
  {
    GreedyPositionsDisjoint(s, needle);
    if DisjointOccurrences(s, needle, ps) {
      DisjointOccurrencesBounded(s, needle, ps);
    }
  }

  /** With a non-empty needle the count is zero exactly when the needle does not occur. */
  lemma {:induction false} CountZeroIffAbsent(s: string, needle: string)
    requires needle != []
    ensures CountOccurrences(s, needle) == 0 <==> !Contains(s, needle)
    decreases |s|
  {
    if needle <= s {
    } else if s == [] {
    } else {
      CountZeroIffAbsent(s[1..], needle);
    }
  }

  /**
    Multiplication distributes over addition. Called where a proof needs
    it, so that the surrounding proof is free of nonlinear arithmetic,
    which the verifier handles slowly.
   */
  lemma Distribute(a: nat, b: nat, m: nat)
    ensures (a + b) * m == a * m + b * m
  {
  }

  /** With a non-empty needle, the occurrences counted fit in `s` side by side. */
  lemma {:induction false} CountBound(s: string, needle: string)
    requires needle != []
    ensures CountOccurrences(s, needle) * |needle| <= |s|
    decreases |s|
  {
    if needle <= s {
      var rest := s[|needle|..];
      CountBound(rest, needle);
      Distribute(1, CountOccurrences(rest, needle), |needle|);
    } else if s == [] {
    } else {
      CountBound(s[1..], needle);
    }
  }

  /**
    Occurrences do not overlap: `"aaaa".count("aa")` is 2, not 3. The
    strings are parameters equal to literals, because unfolding the count
    directly on literal arguments costs the verifier far more.
   */
  lemma CountNonOverlappingExample(s: string, needle: string)
    requires s == "aaaa" && needle == "aa"
    ensures CountOccurrences(s, needle) == 2
  {
    var t := s[2..];
    assert needle <= s && t == needle;
    assert needle <= t && t[2..] == [];
    assert CountOccurrences(t[2..], needle) == 0;
  }

  // ---------------------------------------------------------------------
  // Decimal rendering: Python's `str(n)` / f-string `{n}` for naturals
  // ---------------------------------------------------------------------

  predicate IsDigit(c: char) { '0' <= c <= '9' }

  function DigitChar(d: nat): char
    requires d < 10
  {
    ('0' as int + d) as char
  }

  function DigitValue(c: char): nat
    requires IsDigit(c)
  {
    c as int - '0' as int
  }

  /** The decimal numeral of `n`, without leading zeros. */
  function Decimal(n: nat): (r: string)
    ensures r != [] && forall i :: 0 <= i < |r| ==> IsDigit(r[i])
    ensures |r| > 1 ==> r[0] != '0'
  {
    if n < 10 then [DigitChar(n)] else Decimal(n / 10) + [DigitChar(n % 10)]
  }

  /** The value of a string of decimal digits, most significant first. */
  function DecimalValue(s: string): nat
    requires forall i :: 0 <= i < |s| ==> IsDigit(s[i])
  {
    if s == [] then 0 else 10 * DecimalValue(s[..|s| - 1]) + DigitValue(s[|s| - 1])
  }

  /** Reading back the numeral of `n` gives `n`. */
  lemma {:induction false} DecimalRoundTrip(n: nat)
    ensures DecimalValue(Decimal(n)) == n
  {
    var r := Decimal(n);
    if n >= 10 {
      DecimalRoundTrip(n / 10);
      assert r[..|r| - 1] == Decimal(n / 10);
    }
  }

  // ---------------------------------------------------------------------
  // Python's `"\n".join(lines)` and its inverse, `str.split`
  // ---------------------------------------------------------------------

  /** `"\n".join(lines)`: the lines with one newline between consecutive ones and none at the end. */
  function JoinLines(lines: seq<string>): string {
    if lines == [] then []
    else if |lines| == 1 then lines[0]
    else lines[0] + "\n" + JoinLines(lines[1..])
  }

  /** Python's `s.split(sep)` for a one-character separator. */
  function Split(s: string, sep: char): (parts: seq<string>)
    ensures parts != []
    decreases |s|
  {
    if s == [] then [[]]
    else
      var rest := Split(s[1..], sep);
      if s[0] == sep then [[]] + rest
      else [[s[0]] + rest[0]] + rest[1..]
  }

  /**
    The first part of a split is the text before the first separator; when
    there are more parts, a separator follows it and the other parts are
    the split of what comes after.
   */
  lemma {:induction false} SplitFirst(s: string, sep: char)
    ensures var parts := Split(s, sep); var n := |parts[0]|;
      && n <= |s| && s[..n] == parts[0] && sep !in parts[0]
      && (|parts| == 1 ==> n == |s|)
      && (|parts| > 1 ==> n < |s| && s[n] == sep && parts[1..] == Split(s[n + 1..], sep))
    decreases |s|
  {
    if s != [] && s[0] != sep {
      SplitFirst(s[1..], sep);
      var rest := Split(s[1..], sep);
      var n := |rest[0]|;
      assert s[..n + 1] == [s[0]] + s[1..][..n];
      if |rest| > 1 {
        assert s[1..][n + 1..] == s[n + 2..];
      }
    }
  }

  /** Splitting at the first separator: the part before it, then the split of the rest. */
  lemma {:induction false} SplitAfterPart(a: string, sep: char, b: string)
    requires sep !in a
    ensures Split(a + [sep] + b, sep) == [a] + Split(b, sep)
    decreases |a|
  {
    var s := a + [sep] + b;
    if a == [] {
      assert s[1..] == b;
    } else {
      SplitAfterPart(a[1..], sep, b);
      assert s[1..] == a[1..] + [sep] + b;
      assert [a[0]] + a[1..] == a;
    }
  }

  /** A string without the separator splits into itself alone. */
  lemma {:induction false} SplitNoSeparator(s: string, sep: char)
    requires sep !in s
    ensures Split(s, sep) == [s]
    decreases |s|
  {
    if s != [] {
      SplitNoSeparator(s[1..], sep);
      assert [s[0]] + s[1..] == s;
    }
  }

  /** Splitting a join gives the lines back, when none of them holds a newline. */
  lemma {:induction false} SplitJoin(lines: seq<string>)
    requires lines != []
    requires forall k :: 0 <= k < |lines| ==> '\n' !in lines[k]
    ensures Split(JoinLines(lines), '\n') == lines
  {
    if |lines| == 1 {
      SplitNoSeparator(lines[0], '\n');
    } else {
      SplitJoin(lines[1..]);
      SplitAfterPart(lines[0], '\n', JoinLines(lines[1..]));
    }
  }

  /** A join of two or more lines begins with the first line and a newline. */
  lemma JoinStartsWith(lines: seq<string>)
    requires |lines| >= 2
    ensures lines[0] + "\n" <= JoinLines(lines)
  {
  }

  /** A join of two or more lines ends with a newline and the last line. */
  lemma {:induction false} JoinEndsWith(lines: seq<string>)
    requires |lines| >= 2
    ensures var j := JoinLines(lines); var t := "\n" + lines[|lines| - 1];
            |t| <= |j| && j[|j| - |t|..] == t
  {
    if |lines| > 2 {
      JoinEndsWith(lines[1..]);
    }
  }
}
