/** The compliance dashboard and `mark_met` (backend/app/services/compliance_service.py)
    and the counts of the compliance PDF (backend/app/routers/reports.py).

    Queries are functions on the list of records; the order in which the database
    returns groups and ties is that of the list. Percentages are
    rounded exactly, ties to even; the floating-point error of the division before
    the rounding is not modelled. */
module Compliance {
  import opened Wrappers

  datatype Record = Record(id: nat, project: Option<string>, regulation: string, isMet: bool,
                           metAt: Option<real>, deadline: real, notes: string)

  /** No restriction, one project, or the list of accessible projects. */
  datatype Scope = Everything | OneProject(project: string) | Projects(projects: seq<string>)

  datatype Summary = Summary(regulation: string, total: nat, met: nat, overdue: nat, pending: int,
                             percentage: Option<nat>, hasData: bool)

  datatype Dashboard = Dashboard(summaries: seq<Summary>, overdueRecords: seq<Record>, upcoming: seq<Record>,
                                 totalRecords: nat, metRecords: nat,
                                 overallPercentage: Option<nat>, hasData: bool)

  /** Total, met, overdue and pending as the PDF prints them. */
  datatype PdfTotals = PdfTotals(total: nat, met: nat, overdue: nat, pending: int)

  datatype Error = NotFound

  const RULEBOOK := ["GDPR", "HIPAA", "DPDPA"]
  const LIST_LIMIT := 20
  const UPCOMING_HOURS: real := 48.0

  // ------------------------------------------------------------------- queries

  predicate InScope(r: Record, scope: Scope) {
    match scope
    case Everything => true
    case OneProject(p) => r.project == Some(p)
    case Projects(ps) => r.project.Some? && r.project.value in ps
  }

  function Filter(rs: seq<Record>, p: Record -> bool): seq<Record> {
    if rs == [] then [] else (if p(rs[0]) then [rs[0]] else []) + Filter(rs[1..], p)
  }

  function Count(rs: seq<Record>, p: Record -> bool): nat {
    |Filter(rs, p)|
  }

  function Scoped(table: seq<Record>, scope: Scope): seq<Record> {
    Filter(table, (r: Record) => InScope(r, scope))
  }

  function Of(reg: string): Record -> bool {
    (r: Record) => r.regulation == reg
  }

  function MetOf(reg: string): Record -> bool {
    (r: Record) => r.regulation == reg && r.isMet
  }

  function OverdueOf(reg: string, now: real): Record -> bool {
    (r: Record) => r.regulation == reg && !r.isMet && r.deadline < now
  }

  function Met(): Record -> bool {
    (r: Record) => r.isMet
  }

  function Overdue(now: real): Record -> bool {
    (r: Record) => !r.isMet && r.deadline < now
  }

  function Upcoming(now: real): Record -> bool {
    (r: Record) => !r.isMet && now <= r.deadline <= now + UPCOMING_HOURS
  }

  /** n / d rounded to a whole number, ties to even. */
  function Rounded(n: nat, d: nat): nat
    requires d > 0
    decreases n
  {
    if n >= 2 * d then 2 + Rounded(n - 2 * d, d)
    else if 2 * n <= d then 0
    else if 2 * n < 3 * d then 1
    else 2
  }

  /** compliance_percentage, in hundredths of a percent */
  function PercentageOf(met: nat, total: nat): Option<nat> {
    if total == 0 then None else Some(Rounded(10000 * met, total))
  }

  /** The whole percent that format_compliance_pct prints. */
  function WholePercent(hundredths: nat): nat {
    Rounded(hundredths, 100)
  }

  function SummaryOf(rs: seq<Record>, reg: string, now: real): Summary {
    var total, met, overdue := Count(rs, Of(reg)), Count(rs, MetOf(reg)), Count(rs, OverdueOf(reg, now));
    Summary(reg, total, met, overdue, total - met - overdue, PercentageOf(met, total), total > 0)
  }

  /** GROUP BY regulation: each regulation once. */
  function Regulations(rs: seq<Record>): seq<string> {
    if rs == [] then []
    else
      var before, r := Regulations(rs[..|rs| - 1]), rs[|rs| - 1];
      if r.regulation in before then before else before + [r.regulation]
  }

  function Insert(r: Record, sorted: seq<Record>): seq<Record> {
    if sorted == [] then [r]
    else if r.deadline <= sorted[0].deadline then [r] + sorted
    else [sorted[0]] + Insert(r, sorted[1..])
  }

  /** ORDER BY deadline */
  function ByDeadline(rs: seq<Record>): seq<Record> {
    if rs == [] then [] else Insert(rs[0], ByDeadline(rs[1..]))
  }

  /** LIMIT 20 */
  function Limit(rs: seq<Record>): seq<Record> {
    if |rs| <= LIST_LIMIT then rs else rs[..LIST_LIMIT]
  }

  /** The rulebook regulations followed by the others that have records. */
  function Listed(rs: seq<Record>): seq<string> {
    RULEBOOK + Outside(Regulations(rs))
  }

  function Outside(regs: seq<string>): seq<string> {
    if regs == [] then []
    else Outside(regs[..|regs| - 1]) + (if regs[|regs| - 1] in RULEBOOK then [] else [regs[|regs| - 1]])
  }

  function Summaries(rs: seq<Record>, regs: seq<string>, now: real): (ss: seq<Summary>)
    ensures |ss| == |regs|
  {
    if regs == [] then []
    else Summaries(rs, regs[..|regs| - 1], now) + [SummaryOf(rs, regs[|regs| - 1], now)]
  }

  function DashboardOf(rs: seq<Record>, now: real): Dashboard {
    Dashboard(Summaries(rs, Listed(rs), now),
              Limit(ByDeadline(Filter(rs, Overdue(now)))),
              Limit(ByDeadline(Filter(rs, Upcoming(now)))),
              |rs|, Count(rs, Met()), PercentageOf(Count(rs, Met()), |rs|), |rs| > 0)
  }

  function PdfOf(rs: seq<Record>, now: real): PdfTotals {
    var met, overdue := Count(rs, Met()), Count(rs, Overdue(now));
    PdfTotals(|rs|, met, overdue, |rs| - met - overdue)
  }

  function Marked(r: Record, notes: string, now: real): Record {
    r.(isMet := true, metAt := Some(now), notes := if notes != "" then notes else r.notes)
  }

  /** What mark_met leaves in the table. */
  function MarkMet(rs: seq<Record>, id: nat, scope: Scope, notes: string, now: real): seq<Record> {
    if rs == [] then []
    else
      var r := rs[0];
      [if r.id == id && InScope(r, scope) then Marked(r, notes, now) else r] + MarkMet(rs[1..], id, scope, notes, now)
  }

  class ComplianceService {
    var records: seq<Record>

    constructor ()
      ensures records == []
    {
      records := [];
    }

    method GetDashboard(scope: Scope, now: real) returns (d: Dashboard)
      ensures d == DashboardOf(Scoped(records, scope), now)
    {
      var rs := Scoped(records, scope);
      var summaries := [];
      for i := 0 to |RULEBOOK|
        invariant summaries == Summaries(rs, RULEBOOK[..i], now)
      {
        SummariesAppend(rs, RULEBOOK[..i], RULEBOOK[i], now);
        assert RULEBOOK[..i] + [RULEBOOK[i]] == RULEBOOK[..i + 1];
        summaries := summaries + [SummaryOf(rs, RULEBOOK[i], now)];
      }
      assert RULEBOOK[..|RULEBOOK|] == RULEBOOK;
      var overdue := Limit(ByDeadline(Filter(rs, Overdue(now))));
      var upcoming := Limit(ByDeadline(Filter(rs, Upcoming(now))));
      summaries := AddOtherRegulations(rs, summaries, now);
      var met := Count(rs, Met());
      d := Dashboard(summaries, overdue, upcoming, |rs|, met, PercentageOf(met, |rs|), |rs| > 0);
    }

    /** The loop over the grouped query: regulations outside the rulebook. */
    method AddOtherRegulations(rs: seq<Record>, rulebook: seq<Summary>, now: real) returns (summaries: seq<Summary>)
      requires rulebook == Summaries(rs, RULEBOOK, now)
      ensures summaries == Summaries(rs, Listed(rs), now)
    {
      summaries := rulebook;
      var groups := Regulations(rs);
      assert RULEBOOK + Outside(groups[..0]) == RULEBOOK;
      for i := 0 to |groups|
        invariant summaries == Summaries(rs, RULEBOOK + Outside(groups[..i]), now)
      {
        AddListed(rs, groups, i, now);
        if groups[i] !in RULEBOOK {
          summaries := summaries + [SummaryOf(rs, groups[i], now)];
        }
      }
      assert groups[..|groups|] == groups;
    }

    method MarkRecordMet(id: nat, scope: Scope, notes: string, now: real) returns (r: Result<Record, Error>)
      requires UniqueIds(records)
      modifies this
      ensures r.Ok? <==> exists x :: x in old(records) && x.id == id && InScope(x, scope)
      ensures records == MarkMet(old(records), id, scope, notes, now)
      ensures r.Ok? ==> r.value.id == id && r.value.isMet && r.value.metAt == Some(now) && r.value in records
    {
      var found := set i | 0 <= i < |records| && records[i].id == id && InScope(records[i], scope);
      if found == {} {
        assert forall i :: 0 <= i < |records| && records[i].id == id && InScope(records[i], scope) ==> i in found;
        MarkMetNone(records, id, scope, notes, now);
        return Err(NotFound);
      }
      var i :| i in found;
      var x := records[i].(isMet := true, metAt := Some(now));
      if notes != "" {
        x := x.(notes := notes);
      }
      MarkMetIsUpdate(records, scope, notes, now, i);
      records := records[i := x];
      assert records[i] == x;
      return Ok(x);
    }
  }

  lemma SummariesAppend(rs: seq<Record>, regs: seq<string>, reg: string, now: real)
    ensures Summaries(rs, regs + [reg], now) == Summaries(rs, regs, now) + [SummaryOf(rs, reg, now)]
  {
  }

  /** The next group adds its summary exactly when it is outside the rulebook. */
  lemma AddListed(rs: seq<Record>, groups: seq<string>, i: nat, now: real)
    requires i < |groups|
    ensures var before := Summaries(rs, RULEBOOK + Outside(groups[..i]), now);
            Summaries(rs, RULEBOOK + Outside(groups[..i + 1]), now)
            == if groups[i] in RULEBOOK then before else before + [SummaryOf(rs, groups[i], now)]
  {
    OutsideAppend(groups, i);
    if groups[i] !in RULEBOOK {
      SummariesAppend(rs, RULEBOOK + Outside(groups[..i]), groups[i], now);
      AppendLast(RULEBOOK, Outside(groups[..i]), groups[i]);
    }
  }

  lemma AppendLast(a: seq<string>, b: seq<string>, x: string)
    ensures a + (b + [x]) == a + b + [x]
  {
  }

  lemma OutsideAppend(groups: seq<string>, i: nat)
    requires i < |groups|
    ensures Outside(groups[..i + 1])
            == if groups[i] in RULEBOOK then Outside(groups[..i]) else Outside(groups[..i]) + [groups[i]]
  {
    assert groups[..i + 1][..i] == groups[..i];
    assert Outside(groups[..i]) + [] == Outside(groups[..i]);
  }

  /** The PDF's `regs` dictionary, filled in one pass. */
  method GroupByRegulation(rs: seq<Record>) returns (groups: map<string, seq<Record>>)
    ensures forall reg :: reg in groups <==> reg in Regulations(rs)
    ensures forall reg :: reg in groups ==> groups[reg] == Filter(rs, Of(reg))
  {
    groups := map[];
    for i := 0 to |rs|
      invariant forall reg :: reg in groups <==> reg in Regulations(rs[..i])
      invariant forall reg :: reg in groups ==> groups[reg] == Filter(rs[..i], Of(reg))
    {
      var reg := rs[i].regulation;
      assert rs[..i + 1][..i] == rs[..i] && rs[..i + 1] == rs[..i] + [rs[i]];
      forall g ensures Filter(rs[..i + 1], Of(g)) == Filter(rs[..i], Of(g)) + (if g == reg then [rs[i]] else []) {
        FilterAppend(rs[..i], rs[i], Of(g));
      }
      if reg !in groups {
        UnlistedIsEmpty(rs[..i], reg);
      }
      groups := groups[reg := (if reg in groups then groups[reg] else []) + [rs[i]]];
    }
    assert rs[..|rs|] == rs;
  }

  // ----------------------------------------------------------------- small facts

  lemma {:induction false} FilterAppend(rs: seq<Record>, r: Record, p: Record -> bool)
    ensures Filter(rs + [r], p) == Filter(rs, p) + (if p(r) then [r] else [])
  {
    if rs == [] {
      assert [r][1..] == [];
    } else {
      assert (rs + [r])[1..] == rs[1..] + [r];
      FilterAppend(rs[1..], r, p);
      var head := if p(rs[0]) then [rs[0]] else [];
      var last := if p(r) then [r] else [];
      assert head + (Filter(rs[1..], p) + last) == (head + Filter(rs[1..], p)) + last;
    }
  }

  lemma {:induction false} UnlistedIsEmpty(rs: seq<Record>, reg: string)
    requires reg !in Regulations(rs)
    ensures Filter(rs, Of(reg)) == []
  {
    if rs != [] {
      var n := |rs| - 1;
      UnlistedIsEmpty(rs[..n], reg);
      assert rs == rs[..n] + [rs[n]];
      FilterAppend(rs[..n], rs[n], Of(reg));
      assert rs[n].regulation in Regulations(rs);
    }
  }

  lemma {:induction false} FilterSelects(rs: seq<Record>, p: Record -> bool)
    ensures forall r :: r in Filter(rs, p) <==> r in rs && p(r)
  {
    if rs != [] {
      FilterSelects(rs[1..], p);
    }
  }

  /** Scoping by one project is scoping by the list of that project; scoping by no
      project shows nothing; what is shown of a list belongs to one of its projects. */
  lemma ScopeExact(table: seq<Record>, p: string, ps: seq<string>)
    ensures Scoped(table, OneProject(p)) == Scoped(table, Projects([p]))
    ensures Scoped(table, Projects([])) == []
    ensures Scoped(table, Everything) == table
    ensures forall r :: r in Scoped(table, Projects(ps)) <==> r in table && r.project.Some? && r.project.value in ps
  {
    var one, list := (r: Record) => InScope(r, OneProject(p)), (r: Record) => InScope(r, Projects([p]));
    FilterAgrees(table, one, list);
    FilterNone(table, (r: Record) => InScope(r, Projects([])));
    FilterAll(table, (r: Record) => InScope(r, Everything));
    FilterSelects(table, (r: Record) => InScope(r, Projects(ps)));
  }

  lemma {:induction false} FilterAgrees(rs: seq<Record>, p: Record -> bool, q: Record -> bool)
    requires forall r :: p(r) == q(r)
    ensures Filter(rs, p) == Filter(rs, q)
  {
    if rs != [] {
      FilterAgrees(rs[1..], p, q);
    }
  }

  lemma {:induction false} FilterNone(rs: seq<Record>, p: Record -> bool)
    requires forall r :: !p(r)
    ensures Filter(rs, p) == []
  {
    if rs != [] {
      FilterNone(rs[1..], p);
    }
  }

  lemma {:induction false} FilterAll(rs: seq<Record>, p: Record -> bool)
    requires forall r :: p(r)
    ensures Filter(rs, p) == rs
  {
    if rs != [] {
      FilterAll(rs[1..], p);
    }
  }

  // ---------------------------------------------------------------- conservation

  ghost predicate DistinctNames(xs: seq<string>) {
    forall i, j :: 0 <= i < j < |xs| ==> xs[i] != xs[j]
  }

  lemma {:induction false} RegulationsFacts(rs: seq<Record>)
    ensures DistinctNames(Regulations(rs))
    ensures forall r :: r in rs ==> r.regulation in Regulations(rs)
  {
    if rs != [] {
      RegulationsFacts(rs[..|rs| - 1]);
      assert rs == rs[..|rs| - 1] + [rs[|rs| - 1]];
    }
  }

  lemma {:induction false} OutsideFacts(regs: seq<string>)
    requires DistinctNames(regs)
    ensures DistinctNames(Outside(regs))
    ensures forall x :: x in Outside(regs) <==> x in regs && x !in RULEBOOK
  {
    if regs != [] {
      OutsideFacts(regs[..|regs| - 1]);
      assert regs == regs[..|regs| - 1] + [regs[|regs| - 1]];
    }
  }

  /** Each regulation is listed once and every record's regulation is listed. */
  lemma ListedFacts(rs: seq<Record>)
    ensures DistinctNames(Listed(rs))
    ensures forall r :: r in rs ==> r.regulation in Listed(rs)
  {
    RegulationsFacts(rs);
    OutsideFacts(Regulations(rs));
    assert RULEBOOK[0] != RULEBOOK[1] by {
      assert RULEBOOK[0][0] != RULEBOOK[1][0];
    }
    assert RULEBOOK[0] != RULEBOOK[2] by {
      assert RULEBOOK[0][0] != RULEBOOK[2][0];
    }
    assert RULEBOOK[1] != RULEBOOK[2] by {
      assert RULEBOOK[1][0] != RULEBOOK[2][0];
    }
    var out := Outside(Regulations(rs));
    assert forall i :: 0 <= i < |RULEBOOK| ==> RULEBOOK[i] in RULEBOOK;
    assert forall i :: 0 <= i < |out| ==> out[i] in out;
  }

  function SumTotal(ss: seq<Summary>): nat {
    if ss == [] then 0 else SumTotal(ss[..|ss| - 1]) + ss[|ss| - 1].total
  }

  function SumMet(ss: seq<Summary>): nat {
    if ss == [] then 0 else SumMet(ss[..|ss| - 1]) + ss[|ss| - 1].met
  }

  function SumOverdue(ss: seq<Summary>): nat {
    if ss == [] then 0 else SumOverdue(ss[..|ss| - 1]) + ss[|ss| - 1].overdue
  }

  function SumPending(ss: seq<Summary>): int {
    if ss == [] then 0 else SumPending(ss[..|ss| - 1]) + ss[|ss| - 1].pending
  }

  function Bit(b: bool): nat {
    if b then 1 else 0
  }

  lemma CountCons(r: Record, rs: seq<Record>, p: Record -> bool)
    ensures Count([r] + rs, p) == Bit(p(r)) + Count(rs, p)
  {
  }

  /** One more record adds to the sums of its own regulation, if that is listed. */
  lemma {:induction false} AddRecord(r: Record, rs: seq<Record>, regs: seq<string>, now: real)
    requires DistinctNames(regs)
    ensures var ss, ss' := Summaries(rs, regs, now), Summaries([r] + rs, regs, now);
            var here := r.regulation in regs;
            && SumTotal(ss') == SumTotal(ss) + Bit(here)
            && SumMet(ss') == SumMet(ss) + Bit(here && r.isMet)
            && SumOverdue(ss') == SumOverdue(ss) + Bit(here && !r.isMet && r.deadline < now)
  {
    if regs != [] {
      var n := |regs| - 1;
      AddRecord(r, rs, regs[..n], now);
      assert r.regulation in regs <==> r.regulation in regs[..n] || r.regulation == regs[n] by {
        assert regs == regs[..n] + [regs[n]];
      }
      SumsOfLast(rs, regs, now);
      SumsOfLast([r] + rs, regs, now);
      CountCons(r, rs, Of(regs[n]));
      CountCons(r, rs, MetOf(regs[n]));
      CountCons(r, rs, OverdueOf(regs[n], now));
    }
  }

  lemma SumsOfLast(rs: seq<Record>, regs: seq<string>, now: real)
    requires regs != []
    ensures var n := |regs| - 1;
            var ss, front := Summaries(rs, regs, now), Summaries(rs, regs[..n], now);
            && SumTotal(ss) == SumTotal(front) + Count(rs, Of(regs[n]))
            && SumMet(ss) == SumMet(front) + Count(rs, MetOf(regs[n]))
            && SumOverdue(ss) == SumOverdue(front) + Count(rs, OverdueOf(regs[n], now))
  {
  }

  lemma {:induction false} NoRecords(regs: seq<string>, now: real)
    ensures var ss := Summaries([], regs, now);
            SumTotal(ss) == 0 && SumMet(ss) == 0 && SumOverdue(ss) == 0
  {
    if regs != [] {
      NoRecords(regs[..|regs| - 1], now);
      SumsOfLast([], regs, now);
    }
  }

  ghost predicate Partitioned(ss: seq<Summary>, rs: seq<Record>, now: real) {
    SumTotal(ss) == |rs| && SumMet(ss) == Count(rs, Met()) && SumOverdue(ss) == Count(rs, Overdue(now))
  }

  lemma PartitionStep(r: Record, rest: seq<Record>, regs: seq<string>, now: real)
    requires DistinctNames(regs) && r.regulation in regs
    requires Partitioned(Summaries(rest, regs, now), rest, now)
    ensures Partitioned(Summaries([r] + rest, regs, now), [r] + rest, now)
  {
    AddRecord(r, rest, regs, now);
    CountCons(r, rest, Met());
    CountCons(r, rest, Overdue(now));
  }

  lemma {:induction false} SumsPartition(rs: seq<Record>, regs: seq<string>, now: real)
    requires DistinctNames(regs) && forall r :: r in rs ==> r.regulation in regs
    ensures Partitioned(Summaries(rs, regs, now), rs, now)
  {
    if rs == [] {
      NoRecords(regs, now);
    } else {
      SumsPartition(rs[1..], regs, now);
      PartitionStep(rs[0], rs[1..], regs, now);
      assert [rs[0]] + rs[1..] == rs;
    }
  }

  lemma {:induction false} MetAndOverdueWithinTotal(rs: seq<Record>, reg: string, now: real)
    ensures Count(rs, MetOf(reg)) + Count(rs, OverdueOf(reg, now)) <= Count(rs, Of(reg))
  {
    if rs != [] {
      MetAndOverdueWithinTotal(rs[1..], reg, now);
    }
  }

  lemma {:induction false} SummariesFacts(rs: seq<Record>, regs: seq<string>, now: real)
    ensures forall i :: 0 <= i < |regs| ==> Summaries(rs, regs, now)[i] == SummaryOf(rs, regs[i], now)
  {
    if regs != [] {
      var n := |regs| - 1;
      SummariesFacts(rs, regs[..n], now);
      assert Summaries(rs, regs, now)[..n] == Summaries(rs, regs[..n], now);
    }
  }

  lemma {:induction false} PendingIsRest(ss: seq<Summary>)
    requires forall i :: 0 <= i < |ss| ==> ss[i].pending == ss[i].total - ss[i].met - ss[i].overdue
    ensures SumPending(ss) == SumTotal(ss) - SumMet(ss) - SumOverdue(ss)
  {
    if ss != [] {
      PendingIsRest(ss[..|ss| - 1]);
    }
  }

  /** No regulation is summarised twice, every pending count is natural, and the
      summaries add up to the dashboard's totals and to the PDF's, for the same
      records and the same clock. */
  lemma DashboardMatchesPdf(rs: seq<Record>, now: real)
    ensures var d, pdf := DashboardOf(rs, now), PdfOf(rs, now);
            && (forall i, j :: 0 <= i < j < |d.summaries| ==> d.summaries[i].regulation != d.summaries[j].regulation)
            && (forall i :: 0 <= i < |d.summaries| ==>
                  var s := d.summaries[i];
                  s.pending >= 0 && s.met + s.overdue + s.pending == s.total && s.total == Count(rs, Of(s.regulation)))
            && SumTotal(d.summaries) == d.totalRecords == pdf.total
            && SumMet(d.summaries) == d.metRecords == pdf.met
            && SumOverdue(d.summaries) == pdf.overdue
            && SumPending(d.summaries) == pdf.pending >= 0
  {
    var regs := Listed(rs);
    ListedFacts(rs);
    SumsPartition(rs, regs, now);
    SummariesFacts(rs, regs, now);
    forall i | 0 <= i < |regs| ensures SummaryOf(rs, regs[i], now).pending >= 0 {
      MetAndOverdueWithinTotal(rs, regs[i], now);
    }
    PendingIsRest(Summaries(rs, regs, now));
    PendingNonnegative(Summaries(rs, regs, now));
  }

  lemma {:induction false} PendingNonnegative(ss: seq<Summary>)
    requires forall i :: 0 <= i < |ss| ==> ss[i].pending >= 0
    ensures SumPending(ss) >= 0
  {
    if ss != [] {
      PendingNonnegative(ss[..|ss| - 1]);
    }
  }

  /** Where a rounded number lies, in halves of `d`. */
  lemma {:induction false} RoundedMeaning(n: nat, d: nat)
    requires d > 0
    ensures var h := Rounded(n, d);
            && (2 * h - 1) * d <= 2 * n <= (2 * h + 1) * d
            && ((2 * h - 1) * d == 2 * n || 2 * n == (2 * h + 1) * d ==> h % 2 == 0)
    decreases n
  {
    if n >= 2 * d {
      RoundedMeaning(n - 2 * d, d);
      var g := Rounded(n - 2 * d, d);
      assert (2 * (g + 2) - 1) * d == (2 * g - 1) * d + 4 * d;
      assert (2 * (g + 2) + 1) * d == (2 * g + 1) * d + 4 * d;
    } else if 2 * n > d && 2 * n < 3 * d {
      assert (2 * 1 - 1) * d == d && (2 * 1 + 1) * d == 3 * d;
    } else if 2 * n > d {
      assert (2 * 2 - 1) * d == 3 * d && (2 * 2 + 1) * d == 5 * d;
    }
  }

  /** Nothing else is as near: `h` is the rounding if and only if it is nearest, and
      even in a tie. */
  lemma RoundedExactly(n: nat, d: nat, h: nat)
    requires d > 0
    ensures Rounded(n, d) == h
       <==> (2 * h - 1) * d <= 2 * n <= (2 * h + 1) * d
            && ((2 * h - 1) * d == 2 * n || 2 * n == (2 * h + 1) * d ==> h % 2 == 0)
  {
    RoundedMeaning(n, d);
    var g := Rounded(n, d);
    if (2 * h - 1) * d <= 2 * n <= (2 * h + 1) * d {
      if g > h {
        Ordered(h, g, d);
      } else if h > g {
        Ordered(g, h, d);
      }
    }
  }

  lemma Ordered(g: nat, h: nat, d: nat)
    requires d > 0 && g < h
    ensures (2 * g + 1) * d <= (2 * h - 1) * d
    ensures (2 * g + 1) * d == (2 * h - 1) * d ==> h == g + 1
  {
    var k := h - g - 1;
    assert (2 * h - 1) * d == (2 * g + 1) * d + 2 * (k * d);
    if k > 0 {
      assert k * d >= d;
    }
  }

  /** A rounded number reaches an even one halfway from the one below. */
  lemma RoundedAtLeast(n: nat, d: nat, k: nat)
    requires d > 0 && k > 0 && k % 2 == 0
    ensures Rounded(n, d) >= k <==> (2 * k - 1) * d <= 2 * n
  {
    RoundedMeaning(n, d);
    var h := Rounded(n, d);
    if h > k {
      Ordered(k, h, d);
    } else if h < k {
      Ordered(h, k, d);
    }
  }

  lemma PercentageBounded(met: nat, total: nat)
    requires met <= total && total > 0
    ensures PercentageOf(met, total).value <= 10000
  {
    RoundedAtLeast(10000 * met, total, 10002);
    RoundedMeaning(10000 * met, total);
  }

  /** The percentage is the nearest hundredth, the even one in a tie. */
  lemma PercentageNearest(met: nat, total: nat, h: nat)
    requires total > 0
    ensures PercentageOf(met, total) == Some(h) <==>
              && (2 * h - 1) * total <= 20000 * met <= (2 * h + 1) * total
              && ((2 * h - 1) * total == 20000 * met || 20000 * met == (2 * h + 1) * total ==> h % 2 == 0)
  {
    RoundedExactly(10000 * met, total, h);
  }

  /** The printed percent is the nearest whole one to that, the even one in a tie. */
  lemma WholePercentNearest(hundredths: nat, w: nat)
    ensures WholePercent(hundredths) == w <==>
              && 200 * w - 100 <= 2 * hundredths <= 200 * w + 100
              && (200 * w - 100 == 2 * hundredths || 2 * hundredths == 200 * w + 100 ==> w % 2 == 0)
  {
    RoundedExactly(hundredths, 100, w);
  }

  /** The percentage shows 100.00 if and only if at most one record in 20000 is unmet:
      it is 100 exactly where all are met only below 20000 records. */
  lemma FullExactly(met: nat, total: nat)
    requires met <= total && total > 0
    ensures PercentageOf(met, total) == Some(10000) <==> 20000 * (total - met) <= total
    ensures total < 20000 ==> (PercentageOf(met, total) == Some(10000) <==> met == total)
  {
    RoundedAtLeast(10000 * met, total, 10000);
    PercentageBounded(met, total);
  }

  /** From 20000 records on it may show 100.00 with a record unmet. */
  lemma FullWithOneUnmet(total: nat)
    requires total >= 20000
    ensures PercentageOf(total - 1, total) == Some(10000)
  {
    FullExactly(total - 1, total);
  }

  lemma WholeOf(h: nat)
    requires h <= 10000
    ensures WholePercent(h) == 100 <==> h >= 9950
  {
    RoundedAtLeast(h, 100, 100);
    RoundedAtLeast(h, 100, 102);
    RoundedMeaning(h, 100);
  }

  /** The whole percent of the PDF is rounded a second time, and shows 100 if and only
      if at most 101 records in 20000 are unmet. */
  lemma WholeFullExactly(met: nat, total: nat)
    requires met <= total && total > 0
    ensures WholePercent(PercentageOf(met, total).value) == 100 <==> 20000 * (total - met) <= 101 * total
    ensures total < 199 ==> (WholePercent(PercentageOf(met, total).value) == 100 <==> met == total)
  {
    PercentageBounded(met, total);
    WholeOf(PercentageOf(met, total).value);
    RoundedAtLeast(10000 * met, total, 9950);
  }

  /** One record of 199 unmet: the PDF prints 100%. */
  lemma WholeFullWithOneUnmet()
    ensures WholePercent(PercentageOf(198, 199).value) == 100
  {
    WholeFullExactly(198, 199);
  }

  /** A percentage is missing exactly where there are no records, lies between 0 and
      100, and shows 100.00 exactly where at most one record in 20000 is unmet. */
  ghost predicate PercentageOk(p: Option<nat>, rs: seq<Record>) {
    && (p == None <==> rs == [])
    && (p.Some? ==>
          && p.value <= 10000
          && (p.value == 10000 <==> 20000 * (|rs| - Count(rs, Met())) <= |rs|)
          && (|rs| < 20000 ==> (p.value == 10000 <==> forall r :: r in rs ==> r.isMet)))
  }

  lemma {:induction false} CountBounded(rs: seq<Record>, p: Record -> bool)
    ensures Count(rs, p) <= |rs|
    ensures Count(rs, p) == |rs| <==> forall r :: r in rs ==> p(r)
  {
    if rs != [] {
      CountBounded(rs[1..], p);
      assert rs == [rs[0]] + rs[1..];
    }
  }

  lemma PercentageOfMet(rs: seq<Record>)
    ensures PercentageOk(PercentageOf(Count(rs, Met()), |rs|), rs)
  {
    CountBounded(rs, Met());
    if rs != [] {
      PercentageBounded(Count(rs, Met()), |rs|);
      FullExactly(Count(rs, Met()), |rs|);
    }
  }

  lemma {:induction false} FilterTwice(rs: seq<Record>, reg: string)
    ensures Count(Filter(rs, Of(reg)), Met()) == Count(rs, MetOf(reg))
  {
    if rs != [] {
      FilterTwice(rs[1..], reg);
      if Of(reg)(rs[0]) {
        CountCons(rs[0], Filter(rs[1..], Of(reg)), Met());
      } else {
        assert [] + Filter(rs[1..], Of(reg)) == Filter(rs[1..], Of(reg));
      }
      assert rs == [rs[0]] + rs[1..];
      CountCons(rs[0], rs[1..], MetOf(reg));
    }
  }

  lemma SummaryPercentage(rs: seq<Record>, reg: string, now: real)
    ensures var s := SummaryOf(rs, reg, now);
            PercentageOk(s.percentage, Filter(rs, Of(reg))) && (s.hasData <==> s.percentage.Some?)
  {
    FilterTwice(rs, reg);
    PercentageOfMet(Filter(rs, Of(reg)));
  }

  /** The percentage of each summary is that of its regulation's records, and the
      overall one that of all records in scope. */
  lemma PercentagesOk(rs: seq<Record>, now: real)
    ensures var d := DashboardOf(rs, now);
            && (forall i :: 0 <= i < |d.summaries| ==>
                  var s := d.summaries[i];
                  PercentageOk(s.percentage, Filter(rs, Of(s.regulation))) && (s.hasData <==> s.percentage.Some?))
            && PercentageOk(d.overallPercentage, rs) && (d.hasData <==> d.overallPercentage.Some?)
  {
    EachPercentageOk(rs, Listed(rs), now);
    PercentageOfMet(rs);
  }

  lemma EachPercentageOk(rs: seq<Record>, regs: seq<string>, now: real)
    ensures forall i :: 0 <= i < |regs| ==>
              var s := Summaries(rs, regs, now)[i];
              PercentageOk(s.percentage, Filter(rs, Of(s.regulation))) && (s.hasData <==> s.percentage.Some?)
  {
    SummariesFacts(rs, regs, now);
    forall i | 0 <= i < |regs|
      ensures var s := Summaries(rs, regs, now)[i];
              PercentageOk(s.percentage, Filter(rs, Of(s.regulation))) && (s.hasData <==> s.percentage.Some?)
    {
      SummaryPercentage(rs, regs[i], now);
    }
  }

  // ------------------------------------------------------------- deadline lists

  ghost predicate DeadlineSorted(rs: seq<Record>) {
    forall i, j :: 0 <= i < j < |rs| ==> rs[i].deadline <= rs[j].deadline
  }

  lemma {:induction false} InsertPermutes(r: Record, sorted: seq<Record>)
    ensures multiset(Insert(r, sorted)) == multiset{r} + multiset(sorted)
  {
    if sorted != [] && r.deadline > sorted[0].deadline {
      InsertPermutes(r, sorted[1..]);
      assert sorted == [sorted[0]] + sorted[1..];
      assert multiset([sorted[0]] + Insert(r, sorted[1..])) == multiset{sorted[0]} + multiset(Insert(r, sorted[1..]));
    }
  }

  lemma {:induction false} InsertSorts(r: Record, sorted: seq<Record>)
    requires DeadlineSorted(sorted)
    ensures DeadlineSorted(Insert(r, sorted))
    ensures forall i :: 0 <= i < |Insert(r, sorted)| ==> Insert(r, sorted)[i] == r || Insert(r, sorted)[i] in sorted
  {
    if sorted != [] && r.deadline > sorted[0].deadline {
      InsertSorts(r, sorted[1..]);
    }
  }

  lemma {:induction false} ByDeadlineFacts(rs: seq<Record>)
    ensures DeadlineSorted(ByDeadline(rs))
    ensures multiset(ByDeadline(rs)) == multiset(rs)
  {
    if rs != [] {
      ByDeadlineFacts(rs[1..]);
      InsertSorts(rs[0], ByDeadline(rs[1..]));
      InsertPermutes(rs[0], ByDeadline(rs[1..]));
      assert rs == [rs[0]] + rs[1..];
    }
  }

  /** What a list of at most 20 shows of the records that satisfy `p`: sorted by
      deadline, together with what is omitted it is exactly those records, nothing
      is omitted below 20, and nothing omitted is due earlier than anything shown. */
  ghost predicate Earliest(shown: seq<Record>, omitted: seq<Record>, rs: seq<Record>, p: Record -> bool) {
    && DeadlineSorted(shown)
    && multiset(shown) + multiset(omitted) == multiset(Filter(rs, p))
    && |shown| <= LIST_LIMIT && (|shown| < LIST_LIMIT ==> omitted == [])
    && forall i, j :: 0 <= i < |shown| && 0 <= j < |omitted| ==> shown[i].deadline <= omitted[j].deadline
  }

  lemma LimitIsEarliest(rs: seq<Record>, p: Record -> bool) returns (omitted: seq<Record>)
    ensures Earliest(Limit(ByDeadline(Filter(rs, p))), omitted, rs, p)
  {
    var sorted := ByDeadline(Filter(rs, p));
    ByDeadlineFacts(Filter(rs, p));
    var n := |Limit(sorted)|;
    omitted := sorted[n..];
    assert Limit(sorted) == sorted[..n];
    SplitSorted(sorted, n);
  }

  lemma SplitSorted(sorted: seq<Record>, n: nat)
    requires n <= |sorted| && DeadlineSorted(sorted)
    ensures DeadlineSorted(sorted[..n])
    ensures multiset(sorted[..n]) + multiset(sorted[n..]) == multiset(sorted)
    ensures forall i, j :: 0 <= i < n && 0 <= j < |sorted| - n ==> sorted[..n][i].deadline <= sorted[n..][j].deadline
  {
    assert sorted == sorted[..n] + sorted[n..];
  }

  lemma ShownSatisfies(shown: seq<Record>, omitted: seq<Record>, rs: seq<Record>, p: Record -> bool)
    requires Earliest(shown, omitted, rs, p)
    ensures forall r :: r in shown ==> r in rs && p(r)
  {
    FilterSelects(rs, p);
    forall r | r in shown ensures r in rs && p(r) {
      assert r in multiset(shown) + multiset(omitted);
      assert r in multiset(Filter(rs, p));
    }
  }

  lemma AllShown(shown: seq<Record>, omitted: seq<Record>, rs: seq<Record>, p: Record -> bool)
    requires Earliest(shown, omitted, rs, p)
    ensures |shown| < LIST_LIMIT ==> forall r :: r in rs && p(r) ==> r in shown
  {
    FilterSelects(rs, p);
    if |shown| < LIST_LIMIT {
      assert multiset(shown) == multiset(Filter(rs, p));
      forall r | r in rs && p(r) ensures r in shown {
        assert r in multiset(shown) <==> r in multiset(Filter(rs, p));
      }
    }
  }

  /** The overdue and the upcoming list are each the earliest deadlines of their
      kind, and no record is on both. */
  lemma DeadlineLists(rs: seq<Record>, now: real)
    ensures var d := DashboardOf(rs, now);
            && (exists omitted :: Earliest(d.overdueRecords, omitted, rs, Overdue(now)))
            && (exists omitted :: Earliest(d.upcoming, omitted, rs, Upcoming(now)))
            && |d.overdueRecords| <= 20 && |d.upcoming| <= 20
            && (|d.overdueRecords| < 20 ==>
                  forall r :: r in rs && !r.isMet && r.deadline < now ==> r in d.overdueRecords)
            && (|d.upcoming| < 20 ==>
                  forall r :: r in rs && !r.isMet && now <= r.deadline <= now + 48.0 ==> r in d.upcoming)
            && (forall r :: r in d.overdueRecords ==> r in rs && !r.isMet && r.deadline < now)
            && (forall r :: r in d.upcoming ==> r in rs && !r.isMet && now <= r.deadline <= now + 48.0)
            && forall r :: !(r in d.overdueRecords && r in d.upcoming)
  {
    var d := DashboardOf(rs, now);
    var later := LimitIsEarliest(rs, Overdue(now));
    ShownSatisfies(d.overdueRecords, later, rs, Overdue(now));
    AllShown(d.overdueRecords, later, rs, Overdue(now));
    var later' := LimitIsEarliest(rs, Upcoming(now));
    ShownSatisfies(d.upcoming, later', rs, Upcoming(now));
    AllShown(d.upcoming, later', rs, Upcoming(now));
  }

  /** The rulebook regulations come first, with or without records, in this order. */
  lemma RulebookFirst(rs: seq<Record>, now: real)
    ensures var ss := DashboardOf(rs, now).summaries;
            |ss| >= 3 && ss[0].regulation == "GDPR" && ss[1].regulation == "HIPAA" && ss[2].regulation == "DPDPA"
  {
    SummariesFacts(rs, Listed(rs), now);
    assert Listed(rs)[0] == RULEBOOK[0] && Listed(rs)[1] == RULEBOOK[1] && Listed(rs)[2] == RULEBOOK[2];
  }

  // ------------------------------------------------------------------- mark_met

  /** Only the rows of that number in scope change, and of those the three columns; an
      empty note leaves the old one. */
  lemma {:induction false} MarkMetExactly(rs: seq<Record>, id: nat, scope: Scope, notes: string, now: real, i: nat)
    requires i < |rs|
    ensures var ts := MarkMet(rs, id, scope, notes, now);
            && |ts| == |rs|
            && (rs[i].id == id && InScope(rs[i], scope) ==>
                  && ts[i].isMet && ts[i].metAt == Some(now)
                  && ts[i].notes == (if notes == "" then rs[i].notes else notes)
                  && ts[i].id == id && ts[i].project == rs[i].project && ts[i].regulation == rs[i].regulation
                  && ts[i].deadline == rs[i].deadline)
            && (rs[i].id != id || !InScope(rs[i], scope) ==> ts[i] == rs[i])
  {
    if i > 0 {
      MarkMetExactly(rs[1..], id, scope, notes, now, i - 1);
    } else if |rs| > 1 {
      MarkMetExactly(rs[1..], id, scope, notes, now, 0);
    }
  }

  ghost predicate UniqueIds(rs: seq<Record>) {
    forall i, j :: 0 <= i < j < |rs| ==> rs[i].id != rs[j].id
  }

  lemma {:induction false} MarkMetIsUpdate(rs: seq<Record>, scope: Scope, notes: string, now: real, i: nat)
    requires UniqueIds(rs) && i < |rs| && InScope(rs[i], scope)
    ensures MarkMet(rs, rs[i].id, scope, notes, now)
         == rs[i := Marked(rs[i], notes, now)]
  {
    var rest := rs[1..];
    UniqueTail(rs);
    if i == 0 {
      MarkMetNone(rest, rs[0].id, scope, notes, now);
    } else {
      assert rest[i - 1] in rest && rest[i - 1] == rs[i];
      MarkMetIsUpdate(rest, scope, notes, now, i - 1);
      UpdateTail(rs, i, Marked(rs[i], notes, now));
    }
  }

  lemma UpdateTail(rs: seq<Record>, i: nat, x: Record)
    requires 0 < i < |rs|
    ensures [rs[0]] + rs[1..][i - 1 := x] == rs[i := x]
  {
  }

  lemma UniqueTail(rs: seq<Record>)
    requires UniqueIds(rs) && rs != []
    ensures UniqueIds(rs[1..]) && forall x :: x in rs[1..] ==> x.id != rs[0].id
  {
  }

  lemma {:induction false} MarkMetNone(rs: seq<Record>, id: nat, scope: Scope, notes: string, now: real)
    requires forall j :: 0 <= j < |rs| ==> !(rs[j].id == id && InScope(rs[j], scope))
    ensures MarkMet(rs, id, scope, notes, now) == rs
  {
    if rs != [] {
      MarkMetNone(rs[1..], id, scope, notes, now);
    }
  }

  /** Meeting record `x` moves it from overdue or pending to met in its own
      regulation and changes no other count. */
  lemma {:induction false} MarkMetMovesOne(rs: seq<Record>, x: Record, scope: Scope, notes: string, now: real,
                                           reg: string, at: real)
    requires UniqueIds(rs) && x in rs && InScope(x, scope)
    ensures var ts := MarkMet(rs, x.id, scope, notes, now);
            && Count(ts, Of(reg)) == Count(rs, Of(reg))
            && Count(ts, MetOf(reg)) == Count(rs, MetOf(reg)) + Bit(x.regulation == reg && !x.isMet)
            && Count(ts, OverdueOf(reg, at))
               == Count(rs, OverdueOf(reg, at)) - Bit(x.regulation == reg && !x.isMet && x.deadline < at)
  {
    var rest := rs[1..];
    var ts := MarkMet(rs, x.id, scope, notes, now);
    assert ts[1..] == MarkMet(rest, x.id, scope, notes, now);
    UniqueTail(rs);
    if rs[0] == x {
      MarkMetNone(rest, x.id, scope, notes, now);
    } else {
      assert x in rest;
      MarkMetMovesOne(rest, x, scope, notes, now, reg, at);
    }
  }
}
