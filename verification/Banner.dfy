/** Filling a line budget from the front of a list of block sizes, without skipping any. */
module Packing {

  function PrefixSum(sizes: seq<nat>, k: nat): nat
    requires k <= |sizes|
  {
    if k == 0 then 0 else PrefixSum(sizes, k - 1) + sizes[k - 1]
  }

  /** How many blocks fit when the first k already take `used` lines. */
  function FitFrom(sizes: seq<nat>, budget: int, k: nat, used: nat): (n: nat)
    requires k <= |sizes|
    ensures k <= n <= |sizes|
    decreases |sizes| - k
  {
    if k == |sizes| || used + sizes[k] > budget then k
    else FitFrom(sizes, budget, k + 1, used + sizes[k])
  }

  function Fit(sizes: seq<nat>, budget: int): (n: nat)
    ensures n <= |sizes|
  {
    FitFrom(sizes, budget, 0, 0)
  }

  lemma {:induction false} FitFromIsTight(sizes: seq<nat>, budget: int, k: nat)
    requires k <= |sizes|
    ensures var n := FitFrom(sizes, budget, k, PrefixSum(sizes, k));
            && (n > k ==> PrefixSum(sizes, n) <= budget)
            && (n < |sizes| ==> PrefixSum(sizes, n + 1) > budget)
    decreases |sizes| - k
  {
    if k < |sizes| && PrefixSum(sizes, k + 1) <= budget {
      FitFromIsTight(sizes, budget, k + 1);
    }
  }

  lemma {:induction false} PrefixSumGrows(sizes: seq<nat>, j: nat, k: nat)
    requires j <= k <= |sizes|
    ensures PrefixSum(sizes, j) <= PrefixSum(sizes, k)
    decreases k
  {
    if j < k {
      PrefixSumGrows(sizes, j, k - 1);
    }
  }

  /** What fits is within the budget, and no longer prefix is. */
  lemma FitIsLongest(sizes: seq<nat>, budget: int, k: nat)
    requires k <= |sizes|
    ensures Fit(sizes, budget) > 0 ==> PrefixSum(sizes, Fit(sizes, budget)) <= budget
    ensures PrefixSum(sizes, k) <= budget ==> k <= Fit(sizes, budget)
  {
    FitFromIsTight(sizes, budget, 0);
    if k > Fit(sizes, budget) {
      PrefixSumGrows(sizes, Fit(sizes, budget) + 1, k);
    }
  }

  lemma {:induction false} PrefixSumBound(sizes: seq<nat>, k: nat, most: nat)
    requires k <= |sizes| && forall i :: 0 <= i < |sizes| ==> sizes[i] <= most
    ensures PrefixSum(sizes, k) <= most * k
  {
    if k == 0 {
    } else {
      PrefixSumBound(sizes, k - 1, most);
      assert most * (k - 1) + most == most * k;
    }
  }
}

/** The login banner: a header, as many findings as the line budget allows, and a footer. */
module Banner {
  import opened BannerWrap
  import opened Packing

  /** `words` are the words of the summary; `timestamp` orders findings by age. */
  datatype Finding = Finding(severity: string, words: seq<string>, timestamp: int)

  datatype Line =
    | Rule
    | Title(total: nat, critical: nat, warning: nat, info: nat)
    | Updated(now: string)
    | Hint
    | Dashes
    | Blank
    | Text(text: string)
    | More(remaining: int)

  datatype Content = Empty | AllClear(now: string) | Lines(lines: seq<Line>)

  const WIDTH: int := 52
  const LINES_PER_FINDING: int := 3
  const FRAME_LINES: int := 7

  function UpperChar(c: char): char {
    if 'a' <= c <= 'z' then c - 'a' + 'A' else c
  }

  function Upper(s: string): string {
    seq(|s|, i requires 0 <= i < |s| => UpperChar(s[i]))
  }

  function TextLines(texts: seq<string>): seq<Line> {
    seq(|texts|, i requires 0 <= i < |texts| => Text(texts[i]))
  }

  /** The lines of one finding, after a blank line. */
  function Block(f: Finding): seq<Line> {
    [Blank] + TextLines(Wrapped(Upper(f.severity), f.words, WIDTH, LINES_PER_FINDING))
  }

  function Blocks(findings: seq<Finding>): seq<Line> {
    if findings == [] then []
    else Blocks(findings[..|findings| - 1]) + Block(findings[|findings| - 1])
  }

  function Sizes(findings: seq<Finding>): seq<nat> {
    seq(|findings|, i requires 0 <= i < |findings| => |Block(findings[i])|)
  }

  /** How many findings fit into `budget` lines, taken from the front without skipping any. */
  function ShownCount(findings: seq<Finding>, budget: int): (n: nat)
    ensures n <= |findings|
  {
    Fit(Sizes(findings), budget)
  }

  function Severities(findings: seq<Finding>): seq<string> {
    seq(|findings|, i requires 0 <= i < |findings| => findings[i].severity)
  }

  function Header(findings: seq<Finding>, now: string): seq<Line> {
    var counts := multiset(Severities(findings));
    [Rule, Title(|findings|, counts["critical"], counts["warning"], counts["info"]), Updated(now), Hint, Dashes]
  }

  function Overflow(findings: seq<Finding>, shown: nat): seq<Line> {
    if shown < |findings| then [More(|findings| - shown)] else []
  }

  function Filled(header: seq<Line>, findings: seq<Finding>, shown: nat): seq<Line>
    requires shown <= |findings|
  {
    header + Blocks(findings[..shown]) + Overflow(findings, shown)
  }

  function BannerLines(findings: seq<Finding>, shown: nat, now: string): seq<Line>
    requires shown <= |findings|
  {
    Filled(Header(findings, now), findings, shown) + [Rule]
  }

  /** Splitting a summary at white space leaves no empty words. */
  ghost predicate Worded(f: Finding) {
    forall j :: 0 <= j < |f.words| ==> f.words[j] != ""
  }

  ghost predicate WellFormed(findings: seq<Finding>) {
    forall i :: 0 <= i < |findings| ==> Worded(findings[i])
  }

  // ---- Budget ---------------------------------------------------------------------

  lemma BlockSize(f: Finding)
    ensures 1 <= |Block(f)| <= 4
  {
    LinesAreALayout(f.words, 0, 3, WIDTH - |Prefix(Upper(f.severity))|, WIDTH - |INDENT|);
  }

  lemma {:induction false} BlocksSize(findings: seq<Finding>, k: nat)
    requires k <= |findings|
    ensures |Blocks(findings[..k])| == PrefixSum(Sizes(findings), k)
    decreases k
  {
    if k > 0 {
      BlocksSize(findings, k - 1);
      assert findings[..k][..k - 1] == findings[..k - 1];
    } else {
      assert findings[..0] == [];
    }
  }

  /** The shown findings fit the budget, no longer prefix does, and each finding costs at most four lines. */
  lemma ShownFits(findings: seq<Finding>, budget: int, k: nat)
    requires k <= |findings|
    ensures ShownCount(findings, budget) > 0 ==> |Blocks(findings[..ShownCount(findings, budget)])| <= budget
    ensures |Blocks(findings[..k])| <= budget ==> k <= ShownCount(findings, budget)
    ensures 4 * k <= budget ==> k <= ShownCount(findings, budget)
  {
    BlocksSize(findings, k);
    BlocksSize(findings, ShownCount(findings, budget));
    FitIsLongest(Sizes(findings), budget, k);
    forall i | 0 <= i < |findings| ensures Sizes(findings)[i] <= 4 {
      BlockSize(findings[i]);
    }
    PrefixSumBound(Sizes(findings), k, 4);
  }

  /** The overflow line is the last one before the closing rule, and there is no other. */
  lemma OneOverflowLine(findings: seq<Finding>, shown: nat, now: string)
    requires shown <= |findings|
    ensures var lines := BannerLines(findings, shown, now);
            && |lines| >= 2
            && (shown < |findings| ==> lines[|lines| - 2] == More(|findings| - shown))
            && forall i :: 0 <= i < |lines| ==> (lines[i].More? <==> i == |lines| - 2 && shown < |findings|)
  {
    var lines, header, blocks := BannerLines(findings, shown, now), Header(findings, now), Blocks(findings[..shown]);
    NoMoreInBlocks(findings[..shown]);
    assert lines == header + blocks + Overflow(findings, shown) + [Rule];
    forall i | 0 <= i < |header| + |blocks| ensures !lines[i].More? {
      assert lines[i] == if i < |header| then header[i] else blocks[i - |header|];
    }
  }

  /**
   Main result. The banner has at most max(7, max_lines) lines. It shows the longest prefix of the
   findings that fits, at least min(total, (max_lines - 7) / 4) of them, and it announces the rest in
   exactly one line when there is a rest, and in none otherwise.
   */
  lemma BannerBudget(findings: seq<Finding>, maxLines: int, now: string, k: nat)
    requires findings != [] && k <= |findings|
    ensures var shown := ShownCount(findings, maxLines - 7);
            var lines := BannerLines(findings, shown, now);
            && 2 <= |lines| <= (if maxLines > 7 then maxLines else 7)
            && (shown > 0 ==> |Blocks(findings[..shown])| <= maxLines - 7)
            && (4 * k <= maxLines - 7 ==> k <= shown)
            && (|Blocks(findings[..k])| <= maxLines - 7 ==> k <= shown)
            && (shown < |findings| ==> lines[|lines| - 2] == More(|findings| - shown))
            && forall i :: 0 <= i < |lines| ==> (lines[i].More? <==> i == |lines| - 2 && shown < |findings|)
  {
    var shown := ShownCount(findings, maxLines - FRAME_LINES);
    ShownFits(findings, maxLines - FRAME_LINES, k);
    if shown == 0 {
      assert Blocks(findings[..shown]) == [];
    }
    OneOverflowLine(findings, shown, now);
  }

  lemma {:induction false} NoMoreInBlocks(findings: seq<Finding>)
    ensures forall i :: 0 <= i < |Blocks(findings)| ==> !Blocks(findings)[i].More?
  {
    if findings == [] {
    } else {
      NoMoreInBlocks(findings[..|findings| - 1]);
    }
  }

  // ---- What is printed ------------------------------------------------------------------

  /** The findings of one severity, by position. */
  ghost function OfSeverity(findings: seq<Finding>, severity: string): set<int> {
    set i | 0 <= i < |findings| && findings[i].severity == severity
  }

  lemma {:induction false} SeverityCount(findings: seq<Finding>, severity: string)
    ensures multiset(Severities(findings))[severity] == |OfSeverity(findings, severity)|
  {
    if findings == [] {
    } else {
      var n := |findings| - 1;
      SeverityCount(findings[..n], severity);
      var here := if findings[n].severity == severity then {n} else {};
      assert OfSeverity(findings, severity) == OfSeverity(findings[..n], severity) + here;
      assert Severities(findings) == Severities(findings[..n]) + [findings[n].severity];
    }
  }

  /** The frame of a banner that shows `shown` of the findings: its fixed lines and the counts in its title. */
  ghost predicate Framed(lines: seq<Line>, findings: seq<Finding>, shown: nat, now: string)
    requires shown <= |findings|
  {
    && |lines| == 6 + |Blocks(findings[..shown])| + (if shown < |findings| then 1 else 0)
    && lines[0] == Rule && lines[1].Title? && lines[2] == Updated(now) && lines[3] == Hint && lines[4] == Dashes
    && lines[|lines| - 1] == Rule
    && lines[1].total == |findings|
    && lines[1].critical == |OfSeverity(findings, "critical")|
    && lines[1].warning == |OfSeverity(findings, "warning")|
    && lines[1].info == |OfSeverity(findings, "info")|
    && lines[5..5 + |Blocks(findings[..shown])|] == Blocks(findings[..shown])
    && (shown < |findings| ==> lines[|lines| - 2] == More(|findings| - shown))
  }

  lemma LinesAreFramed(findings: seq<Finding>, shown: nat, now: string)
    requires shown <= |findings|
    ensures Framed(BannerLines(findings, shown, now), findings, shown, now)
  {
    SeverityCount(findings, "critical");
    SeverityCount(findings, "warning");
    SeverityCount(findings, "info");
    var lines, header, blocks := BannerLines(findings, shown, now), Header(findings, now), Blocks(findings[..shown]);
    assert lines == header + blocks + Overflow(findings, shown) + [Rule];
    assert lines[5..5 + |blocks|] == blocks;
  }

  lemma UpperTags()
    ensures Upper("critical") == "CRITICAL" && Upper("warning") == "WARNING" && Upper("info") == "INFO"
  {
  }

  function Texts(lines: seq<Line>): seq<string>
    requires forall i :: 0 <= i < |lines| ==> lines[i].Text?
  {
    seq(|lines|, i requires 0 <= i < |lines| => lines[i].text)
  }

  /** One finding: a blank line, then its words in at most three lines of 52 characters behind the severity in capitals. */
  lemma BlockPrints(f: Finding, tag: string)
    requires tag == Upper(f.severity)
    ensures f.severity == "critical" ==> tag == "CRITICAL"
    ensures f.severity == "warning" ==> tag == "WARNING"
    ensures f.severity == "info" ==> tag == "INFO"
    ensures Block(f) != [] && Block(f)[0] == Blank && forall i :: 1 <= i < |Block(f)| ==> Block(f)[i].Text?
    ensures Prints(Texts(Block(f)[1..]), tag, BannerWrap.Lines(f.words, 0, 3, 52 - |tag| - 4, 49))
  {
    UpperTags();
    var texts := Wrapped(tag, f.words, 52, 3);
    WrappedPrints(tag, f.words, 52, 3);
    TextsOfBlock(Block(f), texts);
  }

  lemma TextsOfBlock(block: seq<Line>, texts: seq<string>)
    requires block == [Blank] + TextLines(texts)
    ensures block[0] == Blank && forall i :: 1 <= i < |block| ==> block[i].Text?
    ensures Texts(block[1..]) == texts
  {
    assert block[1..] == TextLines(texts);
  }

  /** The shown findings stand one after the other, in their order. */
  lemma {:induction false} BlocksInOrder(findings: seq<Finding>, k: nat, j: nat)
    requires j < k <= |findings|
    ensures PrefixSum(Sizes(findings), j) + |Block(findings[j])| <= |Blocks(findings[..k])|
    ensures var s := PrefixSum(Sizes(findings), j);
            Blocks(findings[..k])[s..s + |Block(findings[j])|] == Block(findings[j])
    decreases k
  {
    assert findings[..k][..k - 1] == findings[..k - 1];
    BlocksSize(findings, k - 1);
    if j < k - 1 {
      BlocksInOrder(findings, k - 1, j);
    }
  }

  // ---- The loop -----------------------------------------------------------------------

  method Format(findings: seq<Finding>, maxLines: int, showAllClear: bool, now: string) returns (content: Content)
    requires WellFormed(findings)
    ensures findings == [] ==> content == if showAllClear then AllClear(now) else Empty
    ensures findings != [] ==>
              && content == Lines(BannerLines(findings, ShownCount(findings, maxLines - 7), now))
              && Framed(content.lines, findings, ShownCount(findings, maxLines - 7), now)
  {
    if findings == [] {
      return if showAllClear then AllClear(now) else Empty;
    }
    var counts := CountSeverities(findings);
    var total := |counts|;
    var lines := [Rule, Title(total, counts["critical"], counts["warning"], counts["info"]), Updated(now), Hint, Dashes];

    lines := AppendFindings(lines, findings, total, maxLines - FRAME_LINES);
    LinesAreFramed(findings, ShownCount(findings, maxLines - 7), now);
    return Lines(lines + [Rule]);
  }

  /** The wrapped lines of one finding. */
  method FormatFinding(f: Finding) returns (texts: seq<string>)
    requires Worded(f)
    ensures [Blank] + TextLines(texts) == Block(f) && |texts| + 1 == |Block(f)|
  {
    texts := WrapFinding(Upper(f.severity), f.words, WIDTH, LINES_PER_FINDING);
  }

  method AppendOverflow(lines: seq<Line>, total: nat, shown: nat) returns (r: seq<Line>)
    requires shown <= total
    ensures r == lines + if shown < total then [More(total - shown)] else []
  {
    r := lines;
    var remaining := total - shown;
    if remaining > 0 {
      r := r + [More(remaining)];
    }
  }

  /** Appends findings while the budget lasts, then says how many were left out. */
  method AppendFindings(header: seq<Line>, findings: seq<Finding>, total: nat, maxFindingLines: int)
    returns (lines: seq<Line>)
    requires WellFormed(findings) && total == |findings|
    ensures lines == Filled(header, findings, ShownCount(findings, maxFindingLines))
  {
    lines := header;
    var usedLines := 0;
    var shown := 0;
    for k := 0 to |findings|
      invariant shown == k && usedLines >= 0
      invariant OnTrack(findings, maxFindingLines, k, usedLines)
      invariant lines == header + Blocks(findings[..k])
    {
      PackStep(findings, maxFindingLines, k, usedLines);
      if usedLines >= maxFindingLines {
        lines := AppendOverflow(lines, total, shown);
        return;
      }
      var findingLines := FormatFinding(findings[k]);
      if usedLines + |findingLines| + 1 > maxFindingLines {
        lines := AppendOverflow(lines, total, shown);
        return;
      }
      BlocksAppend(header, findings, k, findingLines);
      lines := lines + [Blank];
      lines := lines + TextLines(findingLines);
      usedLines := usedLines + |findingLines| + 1;
      shown := shown + 1;
    }
    PackEnd(findings, maxFindingLines, usedLines);
    assert findings[..|findings|] == findings;
  }

  /** The findings before k fit, in `used` lines. */
  ghost predicate OnTrack(findings: seq<Finding>, budget: int, k: nat, used: nat)
    requires k <= |findings|
  {
    ShownCount(findings, budget) == FitFrom(Sizes(findings), budget, k, used)
  }

  lemma PackStep(findings: seq<Finding>, budget: int, k: nat, used: nat)
    requires k < |findings| && OnTrack(findings, budget, k, used)
    ensures |Block(findings[k])| >= 1
    ensures used + |Block(findings[k])| > budget ==> ShownCount(findings, budget) == k
    ensures used + |Block(findings[k])| <= budget ==> OnTrack(findings, budget, k + 1, used + |Block(findings[k])|)
  {
  }

  lemma PackEnd(findings: seq<Finding>, budget: int, used: nat)
    requires OnTrack(findings, budget, |findings|, used)
    ensures ShownCount(findings, budget) == |findings|
  {
  }

  lemma BlocksAppend(header: seq<Line>, findings: seq<Finding>, k: nat, texts: seq<string>)
    requires k < |findings| && [Blank] + TextLines(texts) == Block(findings[k])
    ensures header + Blocks(findings[..k]) + [Blank] + TextLines(texts) == header + Blocks(findings[..k + 1])
  {
    assert findings[..k + 1][..k] == findings[..k];
    assert Blocks(findings[..k + 1]) == Blocks(findings[..k]) + ([Blank] + TextLines(texts));
  }

  /** The count of each severity; a severity that does not occur counts as 0. */
  method CountSeverities(findings: seq<Finding>) returns (counts: multiset<string>)
    ensures counts == multiset(Severities(findings)) && |counts| == |findings|
    ensures forall severity :: counts[severity] == |OfSeverity(findings, severity)|
  {
    counts := multiset{};
    for i := 0 to |findings|
      invariant counts == multiset(Severities(findings)[..i])
    {
      counts := counts[findings[i].severity := counts[findings[i].severity] + 1];
      assert Severities(findings)[..i + 1] == Severities(findings)[..i] + [findings[i].severity];
    }
    assert Severities(findings)[..|findings|] == Severities(findings);
    forall severity ensures counts[severity] == |OfSeverity(findings, severity)| {
      SeverityCount(findings, severity);
    }
  }
}
