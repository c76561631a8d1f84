# Log analyser (Analitzador de Registres), verified model

A Dafny model of the analysis core of a small Python log analyser (`main.py`).
The analyser reads the lines of a log file and computes four statistics:
- the number of records;
- the records per type (`INFO`, `WARNING`, `ERROR`);
- the distinct IPv4-looking addresses;
- how often a keyword occurs, ignoring case.

It then renders these as a text report.

The project has five modules:

- `Wrappers` (`wrappers.dfy`): the `Option` type.
- `Text` (`text.dfy`): the parts of Python's `str` the analyser uses.
  - `needle in s` is `Contains`. It is proved to hold exactly when the needle occurs at some index.
  - `str.count` is `CountOccurrences`. It scans left to right and resumes after each occurrence. It is proved to equal the largest number of non-overlapping occurrences, and it gives `len(s) + 1` for an empty needle.
  - `str.lower` is ASCII lower-casing.
  - `str(n)` is `Decimal`, with its round trip.
  - `"\n".join` is `JoinLines`, with its inverse, the split on newlines.
- `IpScanner` (`ip_scanner.dfy`): the regular expression `\b(?:[0-9]{1,3}\.){3}[0-9]{1,3}\b` and `re.findall`, written as a scanner.
  - Digits are word characters, so every group the regex accepts is a whole maximal run of one to three digits.
  - The scanner is proved to match exactly where the text holds a dotted quad between word boundaries.
  - From any position, the first match `findall` returns is proved to be the leftmost one, and the search is proved to resume where that match ended. So matches never overlap, and a dotted quad that overlaps an earlier match is not returned.
- `Analyzer` (`analyzer.dfy`): `comptar_registres`, `comptar_tipus`, `identificar_ips` and `comptar_paraula_clau`.
  - Each loop of the program is a method with loop invariants.
  - Each method is proved equal to a recursive specification function over the lines, defined from the last line backwards.
  - Lemmas state what those functions mean.
- `Report` (`report.dfy`): `generar_informe`. It is a method that appends lines and joins them. Lemmas read the lines back from the text and connect the report to the whole analysis.

On an empty keyword, `str.count("")` gives `len(line) + 1` per line; `Analyzer.EmptyKeywordCount` states it.

## Model

| member | source | states |
|---|---|---|
| Analyzer.CountRecords | main.py:28-35 | the number of records is the number of lines read, so no lines give 0 |
| Analyzer.Category | main.py:48-51 | a line's type is the first label, in the order INFO, WARNING, ERROR, that occurs in it as a case-sensitive substring; no type when none occurs |
| Analyzer.CountTypes | main.py:45-52 | the nested loop with `break` returns, for each label in order, the number of lines whose type it is |
| Analyzer.TypeCountsOfNoLines | main.py:45 | the dictionary always holds exactly INFO, WARNING and ERROR, each starting at 0 |
| Analyzer.TypeTotalIsLabelled | main.py:46-51 | the counts add up to the number of lines that contain at least one label |
| Analyzer.TypeTotalAtMostRecords | main.py:45-52 | each line bumps at most one counter, so the counts add up to at most the number of records |
| Analyzer.LabelPriority | main.py:48-51 | INFO wins over WARNING and ERROR, and WARNING over ERROR |
| Analyzer.WarningBeforeErrorExample | main.py:48-51 | `WARNING: ERROR` counts as a warning only |
| Analyzer.CaseSensitiveTypeExample | main.py:49 | `disk error`, in lower case, counts towards no type |
| Analyzer.IdentifyIps | main.py:62-69 | the loops return the union over the lines of each line's `findall` matches, with duplicates collapsed and none for no lines |
| Analyzer.IpSetMembers | main.py:65-68 | an address is in the set exactly when some line's `findall` yields it |
| Analyzer.IpSetAreQuads | main.py:62-69 | every address found is four dot-separated groups of 1-3 digits and occurs as a substring of some line |
| Analyzer.IpSetAppend | main.py:65-68 | the addresses of two runs of lines together are the union of the addresses of each |
| Analyzer.CountKeyword | main.py:80-85 | the loop returns the sum over the lines of the non-overlapping occurrences of the lower-cased keyword in the lower-cased line |
| Analyzer.KeywordCountAppend | main.py:82-84 | the count over two runs of lines together is the sum of the two counts |
| Analyzer.KeywordCaseInsensitive | main.py:81-84 | keywords that differ only in case, such as `ERROR` and `error`, give the same count |
| Analyzer.KeywordCountLowered | main.py:81 | lower-casing the keyword first does not change the count |
| Analyzer.EmptyKeywordCount | main.py:84 | an empty keyword counts `len(line) + 1` for each line |
| Analyzer.KeywordCountBound | main.py:84 | with a non-empty keyword, count times keyword length is at most the total length of the lines |
| Text.Contains | main.py:49 | `needle in s` holds exactly when the needle occurs at some index of `s` |
| Text.MissingCharNotContained | main.py:49 | a needle holding a character the text lacks is not in it |
| Text.LowerIdempotent | main.py:81 | lower-casing twice is lower-casing once |
| Text.GreedyPositionsDisjoint | main.py:84 | `str.count`'s left-to-right scan finds as many occurrences as it counts, pairwise non-overlapping |
| Text.DisjointOccurrencesBounded | main.py:84 | no set of non-overlapping occurrences is larger than `str.count` |
| Text.CountIsMaximumDisjoint | main.py:84 | `str.count` with a non-empty needle is the largest number of non-overlapping occurrences |
| Text.CountZeroIffAbsent | main.py:84 | with a non-empty needle, the count is 0 exactly when the needle is not in the text |
| Text.CountBound | main.py:84 | with a non-empty needle, the occurrences counted fit in the text side by side |
| Text.CountNonOverlappingExample | main.py:84 | `"aaaa".count("aa")` is 2 |
| Text.Decimal | main.py:101 | a number is written as a non-empty string of digits with no leading zero |
| Text.DecimalRoundTrip | main.py:101 | reading a written number back gives the number |
| Text.SplitJoin | main.py:113 | splitting the newline-joined lines at newlines gives the lines back, when none holds a newline |
| Text.JoinEndsWith | main.py:113 | a join of two or more lines ends with a newline and the last line, with no trailing newline |
| IpScanner.DigitRunMaximal | main.py:64 | each group the scanner reads is a whole run of digits that cannot be extended |
| IpScanner.GroupsEndSound | main.py:64 | what the group scanner accepts is dot-separated 1-3 digit groups followed by a word boundary |
| IpScanner.GroupsEndComplete | main.py:64 | dot-separated 1-3 digit groups followed by a word boundary are accepted by the group scanner |
| IpScanner.MatchAtSpec | main.py:64 | the pattern matches at `p` up to `e` exactly when `s[p..e]` is a dotted quad with a word boundary on each side |
| IpScanner.MatchLength | main.py:64 | a match is at least seven characters long |
| IpScanner.MatchesAreQuads | main.py:64-66 | every string `findall` returns is a dotted quad that occurs in the line |
| IpScanner.NoMatchesIff | main.py:66 | `findall` returns nothing exactly when no dotted quad between word boundaries is in the line |
| IpScanner.FirstMatchIsLeftmost | main.py:66 | the first string `findall` returns from any position is the leftmost match, and the rest is what `findall` returns from where that match ends |
| IpScanner.MatchesResume | main.py:66 | `findall` from a position starts with the match at the first position where the scanner matches, then resumes at its end |
| IpScanner.NoRoomNoMatches | main.py:66 | fewer than seven characters hold no match |
| IpScanner.NonOverlappingExample | main.py:66 | `1.2.3.4.5.6.7.8` yields `1.2.3.4` and `5.6.7.8` only |
| IpScanner.OverlapSkippedExample | main.py:66 | `1.2.3.4.5.6.7` holds the dotted quad `2.3.4.5` between word boundaries, yet yields only `1.2.3.4` |
| IpScanner.NoRangeCheckExample | main.py:64 | `999.999.999.999` is accepted, since there is no range check |
| IpScanner.GluedLeftExample | main.py:64 | `a1.2.3.4` yields no match: no word boundary before the first group |
| IpScanner.LongGroupExample | main.py:64 | `1.2.3.4567` yields no match: a four-digit group is no group |
| IpScanner.DottedGroupsHaveNoNewline | main.py:64 | an address holds no newline, so it stays on one report line |
| Report.GenerateReport | main.py:98-113 | the appends and the final join give the report text: title, rule, total, one line per type, the addresses or the no-address line, the keyword line and the rule, joined by newlines |
| Report.ReportLineCount | main.py:98-112 | the report has 7 + (number of types) + max(1, number of addresses) lines |
| Report.ReportSplits | main.py:113 | splitting the report at newlines gives back exactly its lines |
| Report.ReportReadsBack | main.py:98-113 | read back line by line, the report shows each line in its place: the total, each type's count in dictionary order including zeros, each address or the no-address line, and the keyword with its count |
| Report.ReportFrame | main.py:99-113 | the report opens with the title and the 39-dash rule and ends with the rule, with no trailing newline |
| Report.ListedAddresses | main.py:105-110 | with three types, lines 8 onwards list exactly the addresses given, one per line |
| Report.AnalysisReport | main.py:103-110 | the report of a whole analysis has 10 + max(1, number of distinct addresses) lines, and lists an address exactly when `re.findall` yields it for some log line |

## Left out

- `llegir_fitxer_registre` and `guardar_informe` (main.py:9-26, 115-127): file input and output, exceptions and printed diagnostics. The model takes the lines as a sequence of strings. Lines from `readlines` keep their trailing newline, and the model handles any string as a line.
- `main` (main.py:129-157): `input()`, `print`, the file-name constants and the early exit on an empty file. `Report.AnalysisReport` plays the role of `main`'s analysis and report steps, for a keyword without a newline, as `input()` returns.
- Full Unicode: `str.lower` is modelled on ASCII letters only; Python lowers other scripts too. `\b` uses ASCII word characters `[A-Za-z0-9_]`; Python's `\w` is Unicode-aware.
- The general `re` engine: only the one dotted-quad pattern is modelled, as a scanner.
- The Python dictionary of counts is an ordered sequence of (type, count) entries in insertion order.
- Set iteration order: `Report.GenerateReport` takes the addresses as a sequence in any order. `Report.AnalysisReport` asks that the sequence enumerate the set without repetitions.
- Report.ReportReadsBack: states the lines only when the keyword, the type names and the addresses hold no newline. Otherwise the split yields more lines than were appended.
