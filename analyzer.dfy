/**
  The four statistics the log analyser computes over the lines of a log
  file (main.py): the number of records, the records per type, the
  distinct IP addresses and the occurrences of a keyword.

  Each loop of the program is a method, proved equal to a recursive
  specification function. Sums and unions over lines are defined from the
  last line backwards, so that they extend the way the loops do. The
  lemmas below state what those functions mean.
 */
module Analyzer {
  import opened Wrappers
  import opened Text
  import IpScanner

  // ---------------------------------------------------------------------
  // comptar_registres
  // ---------------------------------------------------------------------

  /** The number of records: one per line read. */
  function CountRecords(lines: seq<string>): (n: nat)
    ensures n == |lines|
  {
    |lines|
  }

  // ---------------------------------------------------------------------
  // comptar_tipus
  // ---------------------------------------------------------------------

  /** The record types, in the order the counts dictionary is built and iterated. */
  const Labels: seq<string> := ["INFO", "WARNING", "ERROR"]

  /** One entry of the counts dictionary: a record type and its count. */
  datatype Tally = Tally(kind: string, count: nat)

  /**
    The type a line counts towards: the index in `Labels` of the first label
    that occurs in the line, case-sensitively. A line without any label
    counts towards none.
   */
  function Category(line: string): (r: Option<nat>)
    ensures r.Some? ==> r.value < |Labels| && Contains(line, Labels[r.value])
    ensures r.Some? ==> forall j :: 0 <= j < r.value ==> !Contains(line, Labels[j])
    ensures r.None? <==> forall j :: 0 <= j < |Labels| ==> !Contains(line, Labels[j])
  {
    FirstLabelFrom(line, 0)
  }

  function FirstLabelFrom(line: string, j: nat): (r: Option<nat>)
    requires j <= |Labels|
    ensures r.Some? ==> j <= r.value < |Labels| && Contains(line, Labels[r.value])
    ensures r.Some? ==> forall j' :: j <= j' < r.value ==> !Contains(line, Labels[j'])
    ensures r.None? <==> forall j' :: j <= j' < |Labels| ==> !Contains(line, Labels[j'])
    decreases |Labels| - j
  {
    if j == |Labels| then None
    else if Contains(line, Labels[j]) then Some(j)
    else FirstLabelFrom(line, j + 1)
  }

  /** How many of the lines count towards the type `Labels[k]`. */
  function TypeCount(lines: seq<string>, k: nat): nat {
    if lines == [] then 0
    else
      var last := lines[|lines| - 1];
      TypeCount(lines[..|lines| - 1], k) + (if Category(last) == Some(k) then 1 else 0)
  }

  /** The counts dictionary `comptar_tipus` returns: every type, in order, with its count. */
  function TypeCounts(lines: seq<string>): seq<Tally> {
    seq(|Labels|, k requires 0 <= k < |Labels| => Tally(Labels[k], TypeCount(lines, k)))
  }

  /**
    `comptar_tipus`: starts every type at zero; for each line, tries the
    labels in order and bumps the first that occurs, then stops looking.
   */
  method CountTypes(lines: seq<string>) returns (counts: seq<Tally>)
    ensures counts == TypeCounts(lines)
  {
    counts := [Tally("INFO", 0), Tally("WARNING", 0), Tally("ERROR", 0)];
    for i := 0 to |lines|
      invariant |counts| == |Labels|
      invariant forall k :: 0 <= k < |Labels| ==> counts[k] == Tally(Labels[k], TypeCount(lines[..i], k))
    {
      var line := lines[i];
      TypeCountStep(lines, i, Category(line));
      var j := 0;
      while j < |Labels|
        invariant j <= |Labels|
        invariant forall j' :: 0 <= j' < j ==> !Contains(line, Labels[j'])
        invariant forall k :: 0 <= k < |Labels| ==> counts[k] == Tally(Labels[k], TypeCount(lines[..i], k))
      {
        if Contains(line, counts[j].kind) {
          counts := counts[j := Tally(counts[j].kind, counts[j].count + 1)];
          break;
        }
        j := j + 1;
      }
    }
    assert lines[..|lines|] == lines;
  }

  /** One more line adds one to the count of its category, if it has one, and nothing elsewhere. */
  lemma TypeCountStep(lines: seq<string>, i: nat, c: Option<nat>)
    requires i < |lines| && Category(lines[i]) == c
    ensures forall k: nat :: TypeCount(lines[..i + 1], k) == TypeCount(lines[..i], k) + (if c == Some(k) then 1 else 0)
  {
    assert lines[..i + 1][..i] == lines[..i];
  }

  /** The number of types' counts added up. */
  function Total(counts: seq<Tally>): nat {
    if counts == [] then 0 else Total(counts[..|counts| - 1]) + counts[|counts| - 1].count
  }

  /** Some label occurs in the line. */
  ghost predicate HasLabel(line: string) {
    exists j :: 0 <= j < |Labels| && Contains(line, Labels[j])
  }

  /** How many of the lines contain at least one label. */
  ghost function LabelledLines(lines: seq<string>): nat {
    if lines == [] then 0
    else LabelledLines(lines[..|lines| - 1]) + (if HasLabel(lines[|lines| - 1]) then 1 else 0)
  }

  /** Each line counts towards exactly one type when it contains a label, and towards none otherwise. */
  lemma {:induction false} TypeTotalIsLabelled(lines: seq<string>)
    ensures Total(TypeCounts(lines)) == LabelledLines(lines)
  {
    var c := TypeCounts(lines);
    assert c[..2][..1][..0] == [];
    assert Total(c[..2][..1]) == c[0].count;
    assert Total(c[..2]) == c[0].count + c[1].count;
    assert Total(c) == TypeCount(lines, 0) + TypeCount(lines, 1) + TypeCount(lines, 2);
    TypeCountsAddUp(lines);
  }

  lemma {:induction false} TypeCountsAddUp(lines: seq<string>)
    ensures TypeCount(lines, 0) + TypeCount(lines, 1) + TypeCount(lines, 2) == LabelledLines(lines)
  {
    if lines != [] {
      TypeCountsAddUp(lines[..|lines| - 1]);
    }
  }

  lemma {:induction false} LabelledAtMostLines(lines: seq<string>)
    ensures LabelledLines(lines) <= |lines|
  {
    if lines != [] {
      LabelledAtMostLines(lines[..|lines| - 1]);
    }
  }

  /** A line counts towards at most one type, so the counts add up to at most the number of records. */
  lemma TypeTotalAtMostRecords(lines: seq<string>)
    ensures Total(TypeCounts(lines)) <= CountRecords(lines)
  {
    TypeTotalIsLabelled(lines);
    LabelledAtMostLines(lines);
  }

  /** Before any line is seen, every type is present with a zero count. */
  lemma TypeCountsOfNoLines()
    ensures TypeCounts([]) == [Tally("INFO", 0), Tally("WARNING", 0), Tally("ERROR", 0)]
  {
  }

  /** Priority: `INFO` wins over the others, `WARNING` over `ERROR`; `ERROR` counts only alone. */
  lemma LabelPriority(line: string)
    ensures Contains(line, "INFO") ==> Category(line) == Some(0)
    ensures !Contains(line, "INFO") && Contains(line, "WARNING") ==> Category(line) == Some(1)
    ensures !Contains(line, "INFO") && !Contains(line, "WARNING") && Contains(line, "ERROR") ==> Category(line) == Some(2)
  {
  }

  // The examples take their line as a parameter equal to a literal:
  // unfolding `Contains` directly on literal arguments costs the verifier
  // far more.

  /** Labels are matched case-sensitively: a line that says `error` in lower case has no type. */
  lemma CaseSensitiveTypeExample(line: string)
    requires line == "disk error"
    ensures Category(line) == None
  {
    MissingCharNotContained(line, "INFO", 'I');
    MissingCharNotContained(line, "WARNING", 'W');
    MissingCharNotContained(line, "ERROR", 'E');
  }

  /** A line with both `WARNING` and `ERROR` (and no `INFO`) counts as a warning only. */
  lemma WarningBeforeErrorExample(line: string)
    requires line == "WARNING: ERROR"
    ensures Category(line) == Some(1)
  {
    MissingCharNotContained(line, "INFO", 'F');
    assert OccursAt(line, "WARNING", 0);
  }

  // ---------------------------------------------------------------------
  // identificar_ips
  // ---------------------------------------------------------------------

  function Elements(s: seq<string>): set<string> {
    set t | t in s
  }

  /** The distinct addresses `re.findall` finds in any of the lines. */
  function IpSet(lines: seq<string>): set<string> {
    if lines == [] then {}
    else IpSet(lines[..|lines| - 1]) + Elements(IpScanner.Matches(lines[|lines| - 1]))
  }

  /** `identificar_ips`: adds every match of every line to a set. */
  method IdentifyIps(lines: seq<string>) returns (ips: set<string>)
    ensures ips == IpSet(lines)
  {
    ips := {};
    for i := 0 to |lines|
      invariant ips == IpSet(lines[..i])
    {
      var matches := IpScanner.Matches(lines[i]);
      for j := 0 to |matches|
        invariant ips == IpSet(lines[..i]) + Elements(matches[..j])
      {
        assert matches[..j + 1] == matches[..j] + [matches[j]];
        ips := ips + {matches[j]};
      }
      assert matches[..|matches|] == matches;
      assert lines[..i + 1][..i] == lines[..i];
    }
    assert lines[..|lines|] == lines;
  }

  /** An address is in the set exactly when some line yields it. */
  lemma {:induction false} IpSetMembers(lines: seq<string>, t: string)
    ensures t in IpSet(lines) <==> exists i :: 0 <= i < |lines| && t in IpScanner.Matches(lines[i])
  {
    if lines != [] {
      var init := lines[..|lines| - 1];
      IpSetMembers(init, t);
      if exists i :: 0 <= i < |lines| && t in IpScanner.Matches(lines[i]) {
        var i :| 0 <= i < |lines| && t in IpScanner.Matches(lines[i]);
        if i < |lines| - 1 {
          assert init[i] == lines[i];
        }
      }
    }
  }

  /**
    Every address found is a dotted quad (with no range check) and occurs
    as a substring of one of the lines.
   */
  lemma IpSetAreQuads(lines: seq<string>, t: string)
    requires t in IpSet(lines)
    ensures IpScanner.IsDottedQuad(t)
    ensures exists i :: 0 <= i < |lines| && Contains(lines[i], t)
  {
    IpSetMembers(lines, t);
    var i :| 0 <= i < |lines| && t in IpScanner.Matches(lines[i]);
    IpScanner.MatchesAreQuads(lines[i]);
  }

  /** The addresses of two runs of lines together are the union of each run's addresses. */
  lemma {:induction false} IpSetAppend(a: seq<string>, b: seq<string>)
    ensures IpSet(a + b) == IpSet(a) + IpSet(b)
  {
    if b != [] {
      var b' := b[..|b| - 1];
      IpSetAppend(a, b');
      assert (a + b)[..|a + b| - 1] == a + b';
    } else {
      assert a + b == a;
    }
  }

  // ---------------------------------------------------------------------
  // comptar_paraula_clau
  // ---------------------------------------------------------------------

  /** The occurrences of `needle` in the lines, each line lower-cased first. */
  function LineSum(lines: seq<string>, needle: string): nat {
    if lines == [] then 0
    else LineSum(lines[..|lines| - 1], needle) + CountOccurrences(Lower(lines[|lines| - 1]), needle)
  }

  /** What `comptar_paraula_clau` returns: the count of the lower-cased keyword over lower-cased lines. */
  function KeywordCount(lines: seq<string>, keyword: string): nat {
    LineSum(lines, Lower(keyword))
  }

  /** `comptar_paraula_clau`: lower-cases the keyword once, then adds up each lower-cased line's count. */
  method CountKeyword(lines: seq<string>, keyword: string) returns (count: nat)
    ensures count == KeywordCount(lines, keyword)
  {
    count := 0;
    var needle := Lower(keyword);
    for i := 0 to |lines|
      invariant count == LineSum(lines[..i], needle)
    {
      assert lines[..i + 1][..i] == lines[..i];
      count := count + CountOccurrences(Lower(lines[i]), needle);
    }
    assert lines[..|lines|] == lines;
  }

  /** The count over two runs of lines together is the sum of the two counts. */
  lemma {:induction false} KeywordCountAppend(a: seq<string>, b: seq<string>, keyword: string)
    ensures KeywordCount(a + b, keyword) == KeywordCount(a, keyword) + KeywordCount(b, keyword)
  {
    if b != [] {
      var b' := b[..|b| - 1];
      KeywordCountAppend(a, b', keyword);
      assert (a + b)[..|a + b| - 1] == a + b';
    } else {
      assert a + b == a;
    }
  }

  /** Keywords that differ only in letter case, `ERROR` and `error` say, count the same. */
  lemma KeywordCaseInsensitive(lines: seq<string>, k1: string, k2: string)
    requires Lower(k1) == Lower(k2)
    ensures KeywordCount(lines, k1) == KeywordCount(lines, k2)
  {
  }

  /** The count of a keyword is the count of its lower-cased form. */
  lemma KeywordCountLowered(lines: seq<string>, keyword: string)
    ensures KeywordCount(lines, Lower(keyword)) == KeywordCount(lines, keyword)
  {
    LowerIdempotent(keyword);
  }

  /** The total length of the lines. */
  function TotalLength(lines: seq<string>): nat {
    if lines == [] then 0 else TotalLength(lines[..|lines| - 1]) + |lines[|lines| - 1]|
  }

  /** With an empty keyword each line counts its length plus one, as `str.count("")` does. */
  lemma {:induction false} EmptyKeywordCount(lines: seq<string>)
    ensures KeywordCount(lines, "") == TotalLength(lines) + |lines|
  {
    if lines != [] {
      EmptyKeywordCount(lines[..|lines| - 1]);
    }
  }

  /** With a non-empty keyword, the occurrences counted fit side by side in the text of the lines. */
  lemma {:induction false} KeywordCountBound(lines: seq<string>, keyword: string)
    requires keyword != []
    ensures KeywordCount(lines, keyword) * |keyword| <= TotalLength(lines)
  {
    if lines != [] {
      var init := lines[..|lines| - 1];
      KeywordCountBound(init, keyword);
      CountBound(Lower(lines[|lines| - 1]), Lower(keyword));
      var a, b, m := KeywordCount(init, keyword), CountOccurrences(Lower(lines[|lines| - 1]), Lower(keyword)), |keyword|;
      assert |Lower(keyword)| == m;
      assert KeywordCount(lines, keyword) == a + b;
      Distribute(a, b, m);
    }
  }
}
