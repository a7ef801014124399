/** The review reports: the Markdown lines of `generate_base_report`, the
    pull-request comment of `GitPRPublisher.generate_report`, and the issue
    body that `GitIssuePublisher.generate_issue` keeps a score chart in. */
module Reports {
  import opened PyStr
  import opened Mermaid
  import opened Delimited

  /** A `{score, emoji, comment}` entry of the review data; scores are kept
      in the text they are shown as. */
  datatype Detail = Detail(score: string, emoji: string, comment: string)

  /** The review data the reports read. `solid` is `codeSOLID`, in insertion order. */
  datatype Review = Review(provided: string, generated: string, adherence: Detail,
                           complexity: string, vulnerability: Detail,
                           solid: seq<(string, Detail)>)

  /** The 16 lines that open every base report: the message table, the
      code-quality table and the head of the SOLID table. */
  function BaseHeader(d: Review): (r: seq<string>)
    ensures |r| == 16
  {
    MessageTable(d) + QualityTable(d) + SolidHead()
  }

  function MessageTable(d: Review): (r: seq<string>)
    ensures |r| == 7
  {
    [ "### 📝 Message Analysis",
      "| **Metric** | **Value** | **Score** |",
      "|------------|-----------|-----------|",
      "| **Provided Message** | `" + d.provided + "` | - |",
      "| **Generated Message** | `" + d.generated + "` | - |",
      "| **Adherence Score** | " + d.adherence.comment + " | " + d.adherence.score + " " + d.adherence.emoji + " |",
      "" ]
  }

  function QualityTable(d: Review): (r: seq<string>)
    ensures |r| == 6
  {
    [ "### 🏗️ Code Quality",
      "| **Aspect** | **Score** | **Details** |",
      "|------------|-----------|-------------|",
      "| **Complexity** | - | " + d.complexity + " |",
      "| **Vulnerability** | " + d.vulnerability.score + " " + d.vulnerability.emoji + " | " + d.vulnerability.comment + " |",
      "" ]
  }

  function SolidHead(): (r: seq<string>)
    ensures |r| == 3
  {
    [ "### 🎯 SOLID Principles",
      "| **Principle** | **Score** | **Assessment** |",
      "|----------------|-----------|---------------|" ]
  }

  /** `principle.replace('_', ' ').title()` */
  function PrincipleName(principle: string): string {
    Title(ReplaceChar(principle, '_', ' '))
  }

  /** The table row of one SOLID principle. */
  function PrincipleRow(p: (string, Detail)): string {
    "| " + PrincipleName(p.0) + " | " + p.1.score + " " + p.1.emoji + " | " + p.1.comment + " |"
  }

  /** The rows of the principles seen so far. */
  function PrincipleRows(solid: seq<(string, Detail)>): (r: seq<string>)
    ensures |r| == |solid|
  {
    if solid == [] then []
    else PrincipleRows(solid[..|solid| - 1]) + [PrincipleRow(solid[|solid| - 1])]
  }

  /** One row per principle, in insertion order. */
  lemma {:induction false} PrincipleRowsIndex(solid: seq<(string, Detail)>)
    ensures forall i :: 0 <= i < |solid| ==> PrincipleRows(solid)[i] == PrincipleRow(solid[i])
  {
    if solid != [] {
      PrincipleRowsIndex(solid[..|solid| - 1]);
    }
  }

  lemma PrincipleRowsNext(solid: seq<(string, Detail)>, i: nat, next: nat)
    requires i < |solid| && next == i + 1
    ensures PrincipleRows(solid[..next]) == PrincipleRows(solid[..i]) + [PrincipleRow(solid[i])]
  {
    assert solid[..next][..i] == solid[..i];
  }

  /** The lines `generate_base_report` returns. */
  function BaseLines(d: Review): seq<string> {
    BaseHeader(d) + PrincipleRows(d.solid)
  }

  /** `generate_base_report(data)` */
  method GenerateBaseReport(d: Review) returns (report: seq<string>)
    ensures report == BaseLines(d)
  {
    report := BaseHeader(d);
    var i := 0;
    while i < |d.solid|
      invariant 0 <= i <= |d.solid|
      invariant report == BaseHeader(d) + PrincipleRows(d.solid[..i])
    {
      report := report + [PrincipleRow(d.solid[i])];
      ghost var prev := i;
      i := i + 1;
      PrincipleRowsNext(d.solid, prev, i);
    }
    assert d.solid[..|d.solid|] == d.solid;
  }

  /** The base report is 16 fixed lines followed by one row per `codeSOLID`
      entry, in insertion order. */
  lemma BaseLinesShape(d: Review)
    ensures |BaseLines(d)| == 16 + |d.solid|
    ensures BaseLines(d)[..16] == BaseHeader(d)
    ensures forall i :: 0 <= i < |d.solid| ==> BaseLines(d)[16 + i] == PrincipleRow(d.solid[i])
  {
    PrincipleRowsIndex(d.solid);
  }

  /** The three lines above the base report in a pull-request comment. */
  function PrHeader(sha: string, branch: string): seq<string> {
    [ "## 🔍 Code Diff Review Summary",
      "**Commit:** `" + Take(sha, 8) + "` | **Branch:** `" + branch + "`",
      "" ]
  }

  /** The three lines below it. */
  function PrFooter(sha: string, branch: string): seq<string> {
    [ "",
      "---",
      "*Review generated by AI for commit " + Take(sha, 8) + " on branch `" + branch + "`*" ]
  }

  /** The lines of a pull-request comment. */
  function PrLines(sha: string, branch: string, d: Review): seq<string> {
    PrHeader(sha, branch) + BaseLines(d) + PrFooter(sha, branch)
  }

  /** `GitPRPublisher.generate_report(data)`: the lines joined by newlines. */
  method GeneratePrReport(sha: string, branch: string, d: Review) returns (text: string)
    ensures text == Join(PrLines(sha, branch, d), "\n")
  {
    var report := PrHeader(sha, branch);
    var base := GenerateBaseReport(d);
    report := report + base;
    report := report + PrFooter(sha, branch);
    text := Join(report, "\n");
  }

  /** The comment is 3 header lines showing `sha[:8]` and the branch, the
      base report, and 3 footer lines: 22 + |codeSOLID| lines in all, the
      principle rows at 19 onwards. */
  lemma PrReportShape(sha: string, branch: string, d: Review)
    ensures |PrLines(sha, branch, d)| == 22 + |d.solid|
    ensures PrLines(sha, branch, d)[..3] == PrHeader(sha, branch)
    ensures PrLines(sha, branch, d)[3..19 + |d.solid|] == BaseLines(d)
    ensures PrLines(sha, branch, d)[19 + |d.solid|..] == PrFooter(sha, branch)
    ensures forall i :: 0 <= i < |d.solid| ==> PrLines(sha, branch, d)[19 + i] == PrincipleRow(d.solid[i])
  {
    var L := PrLines(sha, branch, d);
    BaseLinesShape(d);
    forall i | 0 <= i < |d.solid| ensures L[19 + i] == PrincipleRow(d.solid[i]) {
      assert L[19 + i] == BaseLines(d)[16 + i];
    }
  }

  /** A principle name keeps its length, shows every underscore as a space,
      and keeps every other character that is not a letter. */
  lemma PrincipleNameSpec(principle: string, c: char)
    requires !IsAsciiLetter(c) && c != '_' && c != ' '
    ensures |PrincipleName(principle)| == |principle|
    ensures '_' !in PrincipleName(principle)
    ensures ' ' in PrincipleName(principle) <==> ' ' in principle || '_' in principle
    ensures c in PrincipleName(principle) <==> c in principle
  {
    var s := ReplaceChar(principle, '_', ' ');
    TitleFromKeeps(s, false, '_');
    TitleFromKeeps(s, false, ' ');
    TitleFromKeeps(s, false, c);
    if ' ' in principle {
      var i :| 0 <= i < |principle| && principle[i] == ' ';
      assert s[i] == ' ';
    }
    if '_' in principle {
      var i :| 0 <= i < |principle| && principle[i] == '_';
      assert s[i] == ' ';
    }
    if c in principle {
      var i :| 0 <= i < |principle| && principle[i] == c;
      assert s[i] == c;
    }
  }

  /** The chart title `generate_issue` uses. */
  const ScoresTitle: string := "Scores History"

  /** The keyword arguments `generate_issue` receives, in call order. */
  function Scores(message: string, vulnerability: string): seq<(string, string)> {
    [("message", message), ("vulnerability", vulnerability)]
  }

  /** `GitIssuePublisher.generate_issue(existing_body, message=…, vulnerability=…)`:
      one `sha` section with the two scores, attributed to `user`, added to
      the score chart of the issue body. */
  method GenerateIssue(existingBody: string, sha: string, user: string,
                       message: string, vulnerability: string) returns (body: string)
    ensures body == GenerateJourney(ScoresTitle, SectionText(sha, Scores(message, vulnerability), user), existingBody)
  {
    var data := Dict2Section(sha, Scores(message, vulnerability), user);
    body := GenerateJourney(ScoresTitle, data, existingBody);
  }

  /** A later run on an issue whose body holds one chart extends that chart
      by the new section and leaves the rest of the body as it was. */
  lemma IssueChartGrows(sha: string, user: string, message: string, vulnerability: string,
                        pre: string, chart: string, post: string)
    requires Leftmost(pre + Open + chart + Close + post, Open, Close, |pre|, |pre| + |Open| + |chart|)
    requires forall p, q :: !Between(post, Open, Close, p, q)
    ensures GenerateJourney(ScoresTitle, SectionText(sha, Scores(message, vulnerability), user),
                            pre + Open + chart + Close + post)
      == pre + Fenced(Append2Mermaid(chart, SectionText(sha, Scores(message, vulnerability), user))) + post
  {
    GenerateJourneySingle(ScoresTitle, SectionText(sha, Scores(message, vulnerability), user), pre, chart, post);
  }
}
