/**
  The text report of `generar_informe` (main.py): a list of lines built by
  appends, joined with newlines. The set of IP addresses reaches the
  report in some iteration order; here it is a sequence, and the lemmas
  that connect it to the analysis ask for an enumeration of the set
  without repetitions.
 */
module Report {
  import opened Text
  import Analyzer
  import IpScanner

  const Title: string := "Informe d'Anàlisi de Fitxer de Registre"
  /** The rule printed under the title and at the end: 39 dashes. */
  const Rule: string := "---------------------------------------"
  const TypesHeading: string := "Registres per tipus:"
  const IpsHeading: string := "Adreces IP úniques detectades:"
  const NoIps: string := "\tNo s'han detectat adreces IP."

  function TotalLine(total: nat): string {
    "Nombre total de registres: " + Decimal(total)
  }

  function TallyLine(t: Analyzer.Tally): string {
    "\t" + t.kind + ": " + Decimal(t.count)
  }

  function KeywordLine(keyword: string, keywordCount: nat): string {
    "Recurrència de la paraula clau '" + keyword + "': " + Decimal(keywordCount)
  }

  /** One indented line per type, in the dictionary's order. */
  function TallyLines(counts: seq<Analyzer.Tally>): seq<string> {
    seq(|counts|, i requires 0 <= i < |counts| => TallyLine(counts[i]))
  }

  /** One indented line per address, in iteration order. */
  function AddressLines(ips: seq<string>): seq<string> {
    seq(|ips|, i requires 0 <= i < |ips| => "\t" + ips[i])
  }

  /** The lines of the report, before they are joined. */
  function ReportLines(total: nat, counts: seq<Analyzer.Tally>, ips: seq<string>, keyword: string, keywordCount: nat): seq<string> {
    [Title, Rule, TotalLine(total), TypesHeading]
    + TallyLines(counts)
    + [IpsHeading]
    + (if ips == [] then [NoIps] else AddressLines(ips))
    + [KeywordLine(keyword, keywordCount), Rule]
  }

  /** The report's text: its lines joined by newlines, with no newline at the end. */
  function ReportText(total: nat, counts: seq<Analyzer.Tally>, ips: seq<string>, keyword: string, keywordCount: nat): string {
    JoinLines(ReportLines(total, counts, ips, keyword, keywordCount))
  }

  /** `generar_informe`: appends the lines one by one, then joins them with newlines. */
  method GenerateReport(total: nat, counts: seq<Analyzer.Tally>, ips: seq<string>, keyword: string, keywordCount: nat)
    returns (report: string)
    ensures report == ReportText(total, counts, ips, keyword, keywordCount)
  {
    var lines := [Title, Rule, TotalLine(total), TypesHeading];
    for i := 0 to |counts|
      invariant lines == [Title, Rule, TotalLine(total), TypesHeading] + TallyLines(counts[..i])
    {
      assert TallyLines(counts[..i + 1]) == TallyLines(counts[..i]) + [TallyLine(counts[i])];
      lines := lines + [TallyLine(counts[i])];
    }
    assert counts[..|counts|] == counts;
    lines := lines + [IpsHeading];
    var head := lines;
    if ips != [] {
      for i := 0 to |ips|
        invariant lines == head + AddressLines(ips[..i])
      {
        assert AddressLines(ips[..i + 1]) == AddressLines(ips[..i]) + ["\t" + ips[i]];
        lines := lines + ["\t" + ips[i]];
      }
      assert ips[..|ips|] == ips;
    } else {
      lines := lines + [NoIps];
    }
    lines := lines + [KeywordLine(keyword, keywordCount), Rule];
    report := JoinLines(lines);
  }

  // ---------------------------------------------------------------------
  // What the text says
  // ---------------------------------------------------------------------

  /** The report has one line per type and, when there are addresses, one per address. */
  lemma ReportLineCount(total: nat, counts: seq<Analyzer.Tally>, ips: seq<string>, keyword: string, keywordCount: nat)
    ensures |ReportLines(total, counts, ips, keyword, keywordCount)|
         == 7 + |counts| + (if ips == [] then 1 else |ips|)
  {
  }

  // One lemma per literal: checking all of them in one proof costs the
  // verifier far more than checking each on its own.
  lemma TitleHasNoNewline() ensures '\n' !in Title {}
  lemma RuleHasNoNewline() ensures '\n' !in Rule {}
  lemma TypesHeadingHasNoNewline() ensures '\n' !in TypesHeading {}
  lemma IpsHeadingHasNoNewline() ensures '\n' !in IpsHeading {}
  lemma NoIpsHasNoNewline() ensures '\n' !in NoIps {}

  /** The fixed lines hold no newline. */
  lemma FixedLinesHaveNoNewline()
    ensures '\n' !in Title && '\n' !in Rule && '\n' !in TypesHeading
    ensures '\n' !in IpsHeading && '\n' !in NoIps
  {
    TitleHasNoNewline();
    RuleHasNoNewline();
    TypesHeadingHasNoNewline();
    IpsHeadingHasNoNewline();
    NoIpsHasNoNewline();
  }

  /** A number written in decimal holds no newline. */
  lemma DecimalHasNoNewline(n: nat)
    ensures '\n' !in Decimal(n)
  {
    var d := Decimal(n);
    assert forall i :: 0 <= i < |d| ==> d[i] != '\n';
  }

  /** Splitting the report text at newlines gives back its lines, when none of the parts holds a newline. */
  lemma ReportSplits(total: nat, counts: seq<Analyzer.Tally>, ips: seq<string>, keyword: string, keywordCount: nat)
    requires '\n' !in keyword
    requires forall k :: 0 <= k < |counts| ==> '\n' !in counts[k].kind
    requires forall k :: 0 <= k < |ips| ==> '\n' !in ips[k]
    ensures Split(ReportText(total, counts, ips, keyword, keywordCount), '\n')
         == ReportLines(total, counts, ips, keyword, keywordCount)
  {
    var lines := ReportLines(total, counts, ips, keyword, keywordCount);
    FixedLinesHaveNoNewline();
    DecimalHasNoNewline(total);
    DecimalHasNoNewline(keywordCount);
    assert '\n' !in TotalLine(total);
    assert '\n' !in KeywordLine(keyword, keywordCount);
    forall k | 0 <= k < |counts| ensures '\n' !in TallyLine(counts[k]) {
      DecimalHasNoNewline(counts[k].count);
    }
    forall k | 0 <= k < |lines| ensures '\n' !in lines[k] {
    }
    SplitJoin(lines);
  }

  /**
    Read back line by line, the report shows the title between the header
    lines, one line per type with its count, the addresses or the line
    saying there are none, the keyword's count and the closing rule. The
    keyword, the type names and the addresses must not hold newlines.
   */
  lemma ReportReadsBack(total: nat, counts: seq<Analyzer.Tally>, ips: seq<string>, keyword: string, keywordCount: nat)
    requires '\n' !in keyword
    requires forall k :: 0 <= k < |counts| ==> '\n' !in counts[k].kind
    requires forall k :: 0 <= k < |ips| ==> '\n' !in ips[k]
    ensures var ls := Split(ReportText(total, counts, ips, keyword, keywordCount), '\n');
      var c := |counts|;
      && |ls| == 7 + c + (if ips == [] then 1 else |ips|)
      && ls[0] == Title && ls[1] == Rule
      && ls[2] == "Nombre total de registres: " + Decimal(total)
      && ls[3] == "Registres per tipus:"
      && (forall k :: 0 <= k < c ==> ls[4 + k] == "\t" + counts[k].kind + ": " + Decimal(counts[k].count))
      && ls[4 + c] == "Adreces IP úniques detectades:"
      && (ips == [] ==> ls[5 + c] == "\tNo s'han detectat adreces IP.")
      && (forall k :: 0 <= k < |ips| ==> ls[5 + c + k] == "\t" + ips[k])
      && ls[|ls| - 2] == "Recurrència de la paraula clau '" + keyword + "': " + Decimal(keywordCount)
      && ls[|ls| - 1] == Rule
  {
    ReportSplits(total, counts, ips, keyword, keywordCount);
  }

  /** Whatever it is given, the report opens with the title and the rule, and closes with the rule. */
  lemma ReportFrame(total: nat, counts: seq<Analyzer.Tally>, ips: seq<string>, keyword: string, keywordCount: nat)
    ensures var r := ReportText(total, counts, ips, keyword, keywordCount);
      var tail := "\n" + Rule;
      && Title + "\n" + Rule + "\n" <= r
      && |tail| <= |r| && r[|r| - |tail|..] == tail
  {
    var lines := ReportLines(total, counts, ips, keyword, keywordCount);
    JoinStartsWith(lines[1..]);
    assert JoinLines(lines) == Title + "\n" + JoinLines(lines[1..]);
    JoinEndsWith(lines);
  }

  // ---------------------------------------------------------------------
  // The whole analysis
  // ---------------------------------------------------------------------

  /** No element repeats. */
  predicate Distinct(s: seq<string>) {
    forall i, j :: 0 <= i < j < |s| ==> s[i] != s[j]
  }

  /** A sequence without repetitions has as many elements as the set it enumerates. */
  lemma {:induction false} DistinctCardinality(s: seq<string>)
    requires Distinct(s)
    ensures |Analyzer.Elements(s)| == |s|
  {
    if s != [] {
      var init := s[..|s| - 1];
      DistinctCardinality(init);
      assert Analyzer.Elements(s) == Analyzer.Elements(init) + {s[|s| - 1]};
      assert s[|s| - 1] !in Analyzer.Elements(init);
    }
  }

  /** Every address the analysis finds is a dotted quad, so it holds no newline. */
  lemma AddressesHaveNoNewline(log: seq<string>, ips: seq<string>)
    requires Analyzer.Elements(ips) == Analyzer.IpSet(log)
    ensures forall k :: 0 <= k < |ips| ==> '\n' !in ips[k]
  {
    forall k | 0 <= k < |ips| ensures '\n' !in ips[k] {
      assert ips[k] in Analyzer.Elements(ips);
      Analyzer.IpSetAreQuads(log, ips[k]);
      IpScanner.DottedGroupsHaveNoNewline(ips[k], 4);
    }
  }

  /** Lines that indent the elements of `ips` list exactly the elements of `ips`. */
  lemma AddressLinesList(ips: seq<string>, ls: seq<string>, t: string)
    requires |ips| == |ls| && forall k :: 0 <= k < |ips| ==> ls[k] == "\t" + ips[k]
    ensures t in Analyzer.Elements(ips) <==> "\t" + t in ls
  {
    if t in Analyzer.Elements(ips) {
      var k :| 0 <= k < |ips| && ips[k] == t;
      assert ls[k] == "\t" + t;
    }
    if "\t" + t in ls {
      var k :| 0 <= k < |ls| && ls[k] == "\t" + t;
      assert ("\t" + t)[1..] == t;
      assert ("\t" + ips[k])[1..] == ips[k];
    }
  }

  /** A report over three types lists, as lines 8 onwards, exactly the addresses it is given. */
  lemma ListedAddresses(total: nat, counts: seq<Analyzer.Tally>, ips: seq<string>, keyword: string, keywordCount: nat)
    requires |counts| == 3 && '\n' !in keyword
    requires forall k :: 0 <= k < |counts| ==> '\n' !in counts[k].kind
    requires forall k :: 0 <= k < |ips| ==> '\n' !in ips[k]
    ensures var ls := Split(ReportText(total, counts, ips, keyword, keywordCount), '\n');
      && |ls| == 10 + (if ips == [] then 1 else |ips|)
      && (forall t :: t in Analyzer.Elements(ips) <==> "\t" + t in ls[8..8 + |ips|])
  {
    ReportSplits(total, counts, ips, keyword, keywordCount);
    var ls := ReportLines(total, counts, ips, keyword, keywordCount);
    assert ls[8..8 + |ips|] == AddressLines(ips) by {
      if ips != [] {
        assert ls == ([Title, Rule, TotalLine(total), TypesHeading] + TallyLines(counts) + [IpsHeading])
                     + AddressLines(ips) + [KeywordLine(keyword, keywordCount), Rule];
      }
    }
    forall t ensures t in Analyzer.Elements(ips) <==> "\t" + t in ls[8..8 + |ips|] {
      AddressLinesList(ips, ls[8..8 + |ips|], t);
    }
  }

  /**
    The report of a whole analysis (the total, the type counts, the
    addresses in some order without repetitions, the keyword's count) has
    ten fixed lines plus one per distinct address, or one saying there are
    none; and an address is listed exactly when `re.findall` yields it for
    some log line. A dotted quad that overlaps an earlier match in its line
    is not found, so it is not listed.
   */
  lemma AnalysisReport(log: seq<string>, ips: seq<string>, keyword: string)
    requires '\n' !in keyword
    requires Analyzer.Elements(ips) == Analyzer.IpSet(log) && Distinct(ips)
    ensures var ls := Split(ReportText(Analyzer.CountRecords(log), Analyzer.TypeCounts(log), ips, keyword,
                                       Analyzer.KeywordCount(log, keyword)), '\n');
      var n := |Analyzer.IpSet(log)|;
      && |ips| == n
      && |ls| == 10 + (if n == 0 then 1 else n)
      && (forall t :: t in Analyzer.IpSet(log) <==> "\t" + t in ls[8..8 + n])
  {
    var counts := Analyzer.TypeCounts(log);
    AddressesHaveNoNewline(log, ips);
    assert forall k :: 0 <= k < |counts| ==> counts[k].kind == Analyzer.Labels[k];
    DistinctCardinality(ips);
    ListedAddresses(Analyzer.CountRecords(log), counts, ips, keyword, Analyzer.KeywordCount(log, keyword));
  }
}
