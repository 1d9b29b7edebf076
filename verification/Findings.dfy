/**
 The findings table: findings are created active, later resolved, and listed for
 the login banner with the worst first.
 */
module Findings {
  import opened Banner
  import opened Wrappers

  datatype Row = Row(id: string, finding: Finding, active: bool)

  datatype Change = Create(id: string, finding: Finding) | Resolve(id: string)

  predicate KnownSeverity(severity: string) {
    severity == "info" || severity == "warning" || severity == "critical"
  }

  function Ids(rows: seq<Row>): set<string> {
    set r | r in rows :: r.id
  }

  /** The table rejects a finding with an id it has already or a severity it does not know. */
  predicate Insertable(rows: seq<Row>, id: string, finding: Finding) {
    id !in Ids(rows) && KnownSeverity(finding.severity)
  }

  function Deactivated(rows: seq<Row>, id: string): seq<Row> {
    seq(|rows|, i requires 0 <= i < |rows| => if rows[i].id == id then rows[i].(active := false) else rows[i])
  }

  function Changed(rows: seq<Row>, change: Change): seq<Row> {
    match change
    case Create(id, finding) => if Insertable(rows, id, finding) then rows + [Row(id, finding, true)] else rows
    case Resolve(id) => Deactivated(rows, id)
  }

  /** The table after a log of changes, starting empty. */
  function TableOf(log: seq<Change>): seq<Row> {
    if log == [] then [] else Changed(TableOf(log[..|log| - 1]), log[|log| - 1])
  }

  // ---- Which findings are active ----------------------------------------------------

  /** The change at position i created the finding; attempts to create the id before were rejected. */
  ghost predicate CreatedAt(log: seq<Change>, i: nat, id: string, finding: Finding) {
    i < |log| && log[i] == Create(id, finding) && Insertable(TableOf(log[..i]), id, finding)
  }

  ghost predicate ResolvedAfter(log: seq<Change>, i: nat, id: string) {
    exists j :: i < j < |log| && log[j] == Resolve(id)
  }

  ghost predicate Lives(log: seq<Change>, i: nat, id: string, finding: Finding) {
    CreatedAt(log, i, id, finding) && !ResolvedAfter(log, i, id)
  }

  lemma DeactivatedRows(rows: seq<Row>, id: string, r: Row)
    ensures r in Deactivated(rows, id) <==>
            (r.id != id && r in rows) || (r.id == id && !r.active && (r in rows || r.(active := true) in rows))
  {
    if r.id == id && (r in rows || r.(active := true) in rows) {
      var i :| 0 <= i < |rows| && (rows[i] == r || rows[i] == r.(active := true));
      assert Deactivated(rows, id)[i] == r.(active := false);
    }
    if r.id != id && r in rows {
      var i :| 0 <= i < |rows| && rows[i] == r;
      assert Deactivated(rows, id)[i] == r;
    }
  }

  lemma LivesBefore(log: seq<Change>, i: nat, id: string, finding: Finding)
    requires log != [] && i < |log| - 1
    ensures Lives(log, i, id, finding) <==> Lives(log[..|log| - 1], i, id, finding) && log[|log| - 1] != Resolve(id)
  {
    var init := log[..|log| - 1];
    assert init[..i] == log[..i];
    if log[|log| - 1] != Resolve(id) && ResolvedAfter(log, i, id) {
      var j :| i < j < |log| && log[j] == Resolve(id);
      assert init[j] == Resolve(id);
    }
    if ResolvedAfter(init, i, id) {
      var j :| i < j < |init| && init[j] == Resolve(id);
      assert log[j] == Resolve(id);
    }
  }

  ghost predicate SomeLife(log: seq<Change>, id: string, finding: Finding) {
    exists i: nat :: Lives(log, i, id, finding)
  }

  /** A life that began earlier goes on until the finding is resolved; a new one begins with an accepted creation. */
  lemma LifeStep(log: seq<Change>, id: string, finding: Finding)
    requires log != []
    ensures SomeLife(log, id, finding) <==>
            (SomeLife(log[..|log| - 1], id, finding) && log[|log| - 1] != Resolve(id))
            || CreatedAt(log, |log| - 1, id, finding)
  {
    var n := |log| - 1;
    if i: nat :| Lives(log, i, id, finding) {
      if i < n {
        LivesBefore(log, i, id, finding);
      }
    }
    if SomeLife(log[..n], id, finding) && log[n] != Resolve(id) {
      var i: nat :| Lives(log[..n], i, id, finding);
      LivesBefore(log, i, id, finding);
    }
    if CreatedAt(log, n, id, finding) {
      assert Lives(log, n, id, finding);
    }
  }

  /** Main result: a finding is active if and only if it was created and not resolved since. */
  lemma {:induction false} ActiveIff(log: seq<Change>, id: string, finding: Finding)
    ensures Row(id, finding, true) in TableOf(log) <==> exists i: nat :: Lives(log, i, id, finding)
  {
    if log == [] {
    } else {
      var n := |log| - 1;
      ActiveIff(log[..n], id, finding);
      LifeStep(log, id, finding);
      if log[n].Resolve? {
        DeactivatedRows(TableOf(log[..n]), log[n].id, Row(id, finding, true));
      }
      assert SomeLife(log, id, finding) <==> Row(id, finding, true) in TableOf(log);
    }
  }

  // ---- The listing --------------------------------------------------------------------

  function Rank(severity: string): nat {
    if severity == "critical" then 0 else if severity == "warning" then 1 else 2
  }

  /** `a` may stand before `b` in a listing: worse first, then newer first. */
  predicate Before(a: Finding, b: Finding) {
    Rank(a.severity) < Rank(b.severity) || (Rank(a.severity) == Rank(b.severity) && a.timestamp >= b.timestamp)
  }

  /** The active findings in the order of the table, of one severity or of all. */
  function ActiveOf(rows: seq<Row>, severity: Option<string>): seq<Finding> {
    if rows == [] then []
    else
      var rest, r := ActiveOf(rows[..|rows| - 1], severity), rows[|rows| - 1];
      if r.active && (severity.None? || r.finding.severity == severity.value) then rest + [r.finding] else rest
  }

  function Inserted(f: Finding, listing: seq<Finding>): seq<Finding> {
    if listing == [] || Before(f, listing[0]) then [f] + listing
    else [listing[0]] + Inserted(f, listing[1..])
  }

  function Ordered(findings: seq<Finding>): seq<Finding> {
    if findings == [] then [] else Inserted(findings[0], Ordered(findings[1..]))
  }

  ghost predicate Ranked(listing: seq<Finding>) {
    forall i, j :: 0 <= i < j < |listing| ==> Before(listing[i], listing[j])
  }

  lemma {:induction false} InsertedIsRanked(f: Finding, listing: seq<Finding>)
    requires Ranked(listing)
    ensures Ranked(Inserted(f, listing))
    ensures multiset(Inserted(f, listing)) == multiset{f} + multiset(listing)
  {
    if listing == [] {
    } else {
      assert listing == [listing[0]] + listing[1..];
      if Before(f, listing[0]) {
        assert forall j :: 0 <= j < |listing| ==> Before(f, listing[j]);
      } else {
        var rest := Inserted(f, listing[1..]);
        InsertedIsRanked(f, listing[1..]);
        forall j | 0 <= j < |rest| ensures Before(listing[0], rest[j]) {
          assert rest[j] in multiset(rest);
        }
      }
    }
  }

  lemma {:induction false} OrderedIsRanked(findings: seq<Finding>)
    ensures Ranked(Ordered(findings)) && multiset(Ordered(findings)) == multiset(findings)
  {
    if findings == [] {
    } else {
      OrderedIsRanked(findings[1..]);
      InsertedIsRanked(findings[0], Ordered(findings[1..]));
      assert findings == [findings[0]] + findings[1..];
    }
  }

  lemma {:induction false} ActiveRows(rows: seq<Row>, severity: Option<string>, f: Finding)
    ensures f in ActiveOf(rows, severity) <==>
            exists r :: r in rows && r.active && r.finding == f && (severity.None? || f.severity == severity.value)
  {
    if rows == [] {
    } else {
      ActiveRows(rows[..|rows| - 1], severity, f);
      assert rows == rows[..|rows| - 1] + [rows[|rows| - 1]];
    }
  }

  /** The rows of active findings, by position: all of them, or those of one severity. */
  ghost function ActiveAt(rows: seq<Row>): set<int> {
    set i | 0 <= i < |rows| && rows[i].active
  }

  ghost function ActiveWith(rows: seq<Row>, severity: string): set<int> {
    set i | 0 <= i < |rows| && rows[i].active && rows[i].finding.severity == severity
  }

  lemma {:induction false} ActiveTotal(rows: seq<Row>)
    ensures |ActiveOf(rows, None)| == |ActiveAt(rows)|
  {
    if rows == [] {
    } else {
      var n := |rows| - 1;
      ActiveTotal(rows[..n]);
      assert ActiveAt(rows) == ActiveAt(rows[..n]) + if rows[n].active then {n} else {};
    }
  }

  lemma {:induction false} ActiveSome(rows: seq<Row>, severity: string)
    ensures |ActiveOf(rows, Some(severity))| == |ActiveWith(rows, severity)|
  {
    if rows == [] {
    } else {
      var n := |rows| - 1;
      var here := if rows[n].active && rows[n].finding.severity == severity then {n} else {};
      ActiveSome(rows[..n], severity);
      assert ActiveWith(rows, severity) == ActiveWith(rows[..n], severity) + here;
    }
  }

  lemma {:induction false} ActiveSeverities(rows: seq<Row>, severity: string)
    ensures multiset(Severities(ActiveOf(rows, None)))[severity] == |ActiveWith(rows, severity)|
  {
    if rows == [] {
    } else {
      var n := |rows| - 1;
      var here := if rows[n].active && rows[n].finding.severity == severity then {n} else {};
      ActiveSeverities(rows[..n], severity);
      assert ActiveWith(rows, severity) == ActiveWith(rows[..n], severity) + here;
      if rows[n].active {
        assert Severities(ActiveOf(rows, None)) == Severities(ActiveOf(rows[..n], None)) + [rows[n].finding.severity];
      }
    }
  }

  /** Worse findings come first, and among equally bad ones the newer. */
  ghost predicate WorstFirst(listing: seq<Finding>) {
    forall i, j :: 0 <= i < j < |listing| ==> NotBelow(listing[i], listing[j])
  }

  ghost predicate NotBelow(a: Finding, b: Finding) {
    && (b.severity == "critical" ==> a.severity == "critical")
    && (b.severity == "warning" ==> a.severity != "info")
    && (a.severity == b.severity ==> a.timestamp >= b.timestamp)
  }

  lemma BeforeIsNotBelow(a: Finding, b: Finding)
    requires Before(a, b)
    ensures NotBelow(a, b)
  {
  }

  lemma RankedIsWorstFirst(listing: seq<Finding>)
    requires Ranked(listing)
    ensures WorstFirst(listing)
  {
    forall i, j | 0 <= i < j < |listing| ensures NotBelow(listing[i], listing[j]) {
      BeforeIsNotBelow(listing[i], listing[j]);
    }
  }

  // ---- Counts ---------------------------------------------------------------------------

  lemma {:induction false} TakeOut(findings: seq<Finding>, f: Finding) returns (rest: seq<Finding>)
    requires f in findings
    ensures multiset(rest) == multiset(findings) - multiset{f} && |rest| == |findings| - 1
    ensures multiset(Severities(findings)) == multiset{f.severity} + multiset(Severities(rest))
  {
    var k :| 0 <= k < |findings| && findings[k] == f;
    var before, after := findings[..k], findings[k + 1..];
    rest := before + after;
    assert findings == before + [f] + after;
    assert Severities(findings) == Severities(before) + [f.severity] + Severities(after);
    assert Severities(rest) == Severities(before) + Severities(after);
  }

  /** The same findings in another order have the same severities. */
  lemma {:induction false} SameSeverities(a: seq<Finding>, b: seq<Finding>)
    requires multiset(a) == multiset(b)
    ensures multiset(Severities(a)) == multiset(Severities(b))
    decreases |a|
  {
    if a == [] {
      assert |multiset(b)| == 0;
    } else {
      assert a[0] in multiset(b);
      var a' := TakeOut(a, a[0]);
      var b' := TakeOut(b, a[0]);
      SameSeverities(a', b');
    }
  }

  class FindingsStore {
    var rows: seq<Row>
    ghost var log: seq<Change>

    ghost predicate Valid()
      reads this
    {
      rows == TableOf(log) && forall r :: r in rows ==> Worded(r.finding)
    }

    constructor ()
      ensures Valid() && log == []
    {
      rows, log := [], [];
    }

    /** `ok` is false when the table rejects the finding; the caller gets an error then. */
    method CreateFinding(id: string, finding: Finding) returns (ok: bool)
      requires Valid() && Worded(finding)
      modifies this
      ensures Valid() && log == old(log) + [Create(id, finding)]
      ensures ok <==>
                && (forall i :: 0 <= i < |old(rows)| ==> old(rows)[i].id != id)
                && (finding.severity == "info" || finding.severity == "warning" || finding.severity == "critical")
      ensures ok ==>
                && |rows| == |old(rows)| + 1 && rows[..|old(rows)|] == old(rows)
                && rows[|old(rows)|].id == id && rows[|old(rows)|].finding == finding && rows[|old(rows)|].active
      ensures !ok ==> rows == old(rows)
    {
      log := log + [Create(id, finding)];
      assert log[..|log| - 1] == old(log);
      ok := Insertable(rows, id, finding);
      if ok {
        rows := rows + [Row(id, finding, true)];
      }
    }

    method ResolveFinding(id: string)
      requires Valid()
      modifies this
      ensures Valid() && log == old(log) + [Resolve(id)]
      ensures |rows| == |old(rows)|
      ensures forall i :: 0 <= i < |rows| ==>
                && rows[i].id == old(rows)[i].id && rows[i].finding == old(rows)[i].finding
                && rows[i].active == (old(rows)[i].active && old(rows)[i].id != id)
    {
      log := log + [Resolve(id)];
      assert log[..|log| - 1] == old(log);
      forall r | r in Deactivated(rows, id) ensures Worded(r.finding) {
        DeactivatedRows(rows, id, r);
      }
      rows := Deactivated(rows, id);
    }

    /** The active findings, worst first and then newest first. An empty severity asks for all of them. */
    method GetActive(severity: Option<string>) returns (findings: seq<Finding>)
      requires Valid()
      ensures var wanted := if severity == Some("") then None else severity;
              && Ranked(findings) && multiset(findings) == multiset(ActiveOf(TableOf(log), wanted))
      ensures forall f :: f in findings <==>
                exists r :: r in TableOf(log) && r.active && r.finding == f
                            && (severity.None? || severity.value == "" || f.severity == severity.value)
      ensures severity.None? || severity.value == "" ==> |findings| == |ActiveAt(TableOf(log))|
      ensures severity.Some? && severity.value != "" ==> |findings| == |ActiveWith(TableOf(log), severity.value)|
      ensures WorstFirst(findings)
      ensures WellFormed(findings)
    {
      var wanted := if severity == Some("") then None else severity;
      findings := Ordered(ActiveOf(rows, wanted));
      ListingTells(rows, wanted, findings);
    }

    method CountActive() returns (counts: multiset<string>)
      requires Valid()
      ensures counts == multiset(Severities(ActiveOf(TableOf(log), None)))
      ensures forall severity :: counts[severity] == |ActiveWith(TableOf(log), severity)|
      ensures |counts| == |ActiveAt(TableOf(log))|
    {
      counts := CountSeverities(ActiveOf(rows, None));
      ActiveTotal(rows);
      forall severity ensures counts[severity] == |ActiveWith(rows, severity)| {
        ActiveSeverities(rows, severity);
      }
    }

    /**
     Main result: one update of the banner. The active findings split into the shown and the hidden
     ones; each shown finding ranks at least as high as each hidden one; the banner prints exactly
     the shown ones, as many as fit; and its title counts the active rows of the table by severity.
     */
    method UpdateBanner(maxLines: int, showAllClear: bool, now: string) returns (active: seq<Finding>, content: Content)
      requires Valid()
      ensures multiset(active) == multiset(ActiveOf(TableOf(log), None))
      ensures active == [] ==> content == if showAllClear then AllClear(now) else Empty
      ensures active != [] ==>
                var k := ShownCount(active, maxLines - 7);
                && content.Lines? && Framed(content.lines, active, k, now)
                && content.lines[1].total == |ActiveAt(TableOf(log))|
                && content.lines[1].critical == |ActiveWith(TableOf(log), "critical")|
                && content.lines[1].warning == |ActiveWith(TableOf(log), "warning")|
                && content.lines[1].info == |ActiveWith(TableOf(log), "info")|
                && (forall f, g :: f in active[..k] && g in active[k..] ==> NotBelow(f, g))
                && (k < |active| ==> |Blocks(active[..k] + [active[k]])| > maxLines - 7)
    {
      active := GetActive(None);
      content := Format(active, maxLines, showAllClear, now);
      SplitRanks(active, ShownCount(active, maxLines - 7));
      NextDoesNotFit(active, maxLines - 7);
      TitleCounts(rows, active, "critical");
      TitleCounts(rows, active, "warning");
      TitleCounts(rows, active, "info");
    }
  }

  /** Any listing of the active findings counts what the table has. */
  lemma TitleCounts(rows: seq<Row>, active: seq<Finding>, severity: string)
    requires multiset(active) == multiset(ActiveOf(rows, None))
    ensures |active| == |ActiveAt(rows)| && |OfSeverity(active, severity)| == |ActiveWith(rows, severity)|
  {
    assert |active| == |multiset(active)| == |ActiveOf(rows, None)|;
    ActiveTotal(rows);
    SameSeverities(active, ActiveOf(rows, None));
    SeverityCount(active, severity);
    ActiveSeverities(rows, severity);
  }

  lemma ListingTells(rows: seq<Row>, wanted: Option<string>, listing: seq<Finding>)
    requires listing == Ordered(ActiveOf(rows, wanted))
    ensures Ranked(listing) && WorstFirst(listing) && multiset(listing) == multiset(ActiveOf(rows, wanted))
    ensures forall f :: f in listing <==>
              exists r :: r in rows && r.active && r.finding == f && (wanted.None? || f.severity == wanted.value)
    ensures |listing| == if wanted.None? then |ActiveAt(rows)| else |ActiveWith(rows, wanted.value)|
    ensures (forall r :: r in rows ==> Worded(r.finding)) ==> WellFormed(listing)
  {
    var active := ActiveOf(rows, wanted);
    OrderedIsRanked(active);
    RankedIsWorstFirst(listing);
    assert |listing| == |multiset(listing)| == |multiset(active)|;
    if wanted.None? {
      ActiveTotal(rows);
    } else {
      ActiveSome(rows, wanted.value);
    }
    forall f ensures f in listing <==> exists r :: r in rows && r.active && r.finding == f && (wanted.None? || f.severity == wanted.value) {
      assert f in listing <==> f in multiset(listing);
      assert f in active <==> f in multiset(active);
      ActiveRows(rows, wanted, f);
    }
    if forall r :: r in rows ==> Worded(r.finding) {
      forall i | 0 <= i < |listing| ensures Worded(listing[i]) {
        assert listing[i] in listing;
      }
    }
  }

  lemma NextDoesNotFit(findings: seq<Finding>, budget: int)
    ensures var k := ShownCount(findings, budget);
            k < |findings| ==> |Blocks(findings[..k] + [findings[k]])| > budget
  {
    var k := ShownCount(findings, budget);
    if k < |findings| {
      ShownFits(findings, budget, k + 1);
      assert findings[..k + 1] == findings[..k] + [findings[k]];
    }
  }

  lemma SplitRanks(findings: seq<Finding>, k: nat)
    requires Ranked(findings) && k <= |findings|
    ensures forall f, g :: f in findings[..k] && g in findings[k..] ==> NotBelow(f, g)
  {
    forall f, g | f in findings[..k] && g in findings[k..] ensures NotBelow(f, g) {
      var i :| 0 <= i < k && findings[i] == f;
      var j :| 0 <= j < |findings| - k && findings[k..][j] == g;
      assert findings[k + j] == g;
      BeforeIsNotBelow(f, g);
    }
  }
}
