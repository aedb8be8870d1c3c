/** Attendance statistics over all of a student's records: overall counts and a per-month
    breakdown, each with a percentage kept as an exact fraction. */
module AttendanceStats {
  import opened Outcomes
  import opened Lists
  import opened StudentModel
  import opened AttendanceService

  /** A percentage kept exact: its value is 100 · num / den (no rounding to two places). */
  datatype Rate = Rate(num: nat, den: nat)

  /** The share of present records as a percentage, 0 when there are no records. */
  function Percentage(present: nat, total: nat): (p: Rate)
    ensures p.den > 0
    ensures total == 0 ==> p.num == 0
    ensures total > 0 ==> p.num * total == 100 * present * p.den
    ensures present <= total ==> p.num <= 100 * p.den
  {
    if total == 0 then Rate(0, 1) else Rate(100 * present, total)
  }

  /** The counters kept per month while scanning the records. */
  datatype Tally = Tally(total: nat, present: nat, absent: nat)

  datatype MonthStats = MonthStats(total: nat, present: nat, absent: nat, percentage: Rate)

  datatype Overall = Overall(totalRecords: nat, presentRecords: nat, absentRecords: nat, attendancePercentage: Rate)

  datatype Stats = Stats(overall: Overall, monthlyBreakdown: map<int, MonthStats>)

  // ---------------------------------------------------------------- what is counted

  function IsPresent(e: Entry): bool {
    e.status
  }

  /** The months that occur among the records. */
  function Months(s: seq<Entry>): set<int> {
    if s == [] then {} else Months(s[..|s| - 1]) + {s[|s| - 1].month}
  }

  lemma {:induction false} MonthsOccur(s: seq<Entry>, m: int)
    ensures m in Months(s) <==> exists k :: 0 <= k < |s| && s[k].month == m
  {
    if s != [] {
      var s' := s[..|s| - 1];
      MonthsOccur(s', m);
      if m in Months(s') {
        var k :| 0 <= k < |s'| && s'[k].month == m;
        assert s[k] == s'[k];
      }
      if exists k :: 0 <= k < |s| && s[k].month == m {
        var k :| 0 <= k < |s| && s[k].month == m;
        if k < |s'| {
          assert s'[k] == s[k];
        }
      }
    }
  }

  function CountInMonth(s: seq<Entry>, m: int): nat {
    if s == [] then 0
    else CountInMonth(s[..|s| - 1], m) + (if s[|s| - 1].month == m then 1 else 0)
  }

  function CountPresentInMonth(s: seq<Entry>, m: int): nat {
    if s == [] then 0
    else CountPresentInMonth(s[..|s| - 1], m) + (if s[|s| - 1].month == m && s[|s| - 1].status then 1 else 0)
  }

  function CountAbsentInMonth(s: seq<Entry>, m: int): nat {
    if s == [] then 0
    else CountAbsentInMonth(s[..|s| - 1], m) + (if s[|s| - 1].month == m && !s[|s| - 1].status then 1 else 0)
  }

  /** A month with no record has nothing counted. */
  lemma {:induction false} UnseenMonthCountsNothing(s: seq<Entry>, m: int)
    requires m !in Months(s)
    ensures CountInMonth(s, m) == 0 && CountPresentInMonth(s, m) == 0 && CountAbsentInMonth(s, m) == 0
  {
    if s != [] {
      UnseenMonthCountsNothing(s[..|s| - 1], m);
    }
  }

  /** Every record of a month is either present or absent. */
  lemma {:induction false} MonthSplits(s: seq<Entry>, m: int)
    ensures CountPresentInMonth(s, m) + CountAbsentInMonth(s, m) == CountInMonth(s, m)
  {
    if s != [] {
      MonthSplits(s[..|s| - 1], m);
    }
  }

  /** The per-month counters the scan is meant to produce, stated by counting. */
  function MonthlyTallies(s: seq<Entry>): map<int, Tally> {
    map m | m in Months(s) :: Tally(CountInMonth(s, m), CountPresentInMonth(s, m), CountAbsentInMonth(s, m))
  }

  /** Counting one more record into a month's counters. */
  function CountRecord(t: Tally, e: Entry): Tally {
    if e.status then Tally(t.total + 1, t.present + 1, t.absent)
    else Tally(t.total + 1, t.present, t.absent + 1)
  }

  function TallyOf(m: map<int, Tally>, month: int): Tally {
    if month in m then m[month] else Tally(0, 0, 0)
  }

  /** Appending a record changes only its own month's counters, by one. */
  lemma {:induction false} TalliesSnoc(s: seq<Entry>, e: Entry)
    ensures MonthlyTallies(s + [e]) == MonthlyTallies(s)[e.month := CountRecord(TallyOf(MonthlyTallies(s), e.month), e)]
  {
    var s' := s + [e];
    assert s'[..|s'| - 1] == s;
    if e.month !in Months(s) {
      UnseenMonthCountsNothing(s, e.month);
    }
  }

  // ---------------------------------------------------------------- the months add up

  lemma KeyOfNonEmpty(m: map<int, Tally>)
    requires m != map[]
    ensures exists k :: k in m
  {
    if forall k :: k !in m {
      assert false;
    }
  }

  /** The sum of the monthly totals. */
  ghost function SumTotals(m: map<int, Tally>): nat
    decreases m.Keys
  {
    if m == map[] then 0
    else
      KeyOfNonEmpty(m);
      var k :| k in m;
      m[k].total + SumTotals(m - {k})
  }

  lemma {:induction false} SumTotalsRemove(m: map<int, Tally>, k: int)
    requires k in m
    ensures SumTotals(m) == m[k].total + SumTotals(m - {k})
    decreases m.Keys
  {
    var j :| j in m && SumTotals(m) == m[j].total + SumTotals(m - {j});
    if j != k {
      SumTotalsRemove(m - {j}, k);
      SumTotalsRemove(m - {k}, j);
      assert m - {j} - {k} == m - {k} - {j};
    }
  }

  lemma {:induction false} SumTotalsUpdate(m: map<int, Tally>, k: int, t: Tally)
    ensures SumTotals(m[k := t]) + TallyOf(m, k).total == SumTotals(m) + t.total
  {
    SumTotalsRemove(m[k := t], k);
    assert m[k := t] - {k} == m - {k};
    if k in m {
      SumTotalsRemove(m, k);
    } else {
      assert m - {k} == m;
    }
  }

  /** The monthly totals add up to the number of records. */
  lemma {:induction false} MonthlyTotalsSum(s: seq<Entry>)
    ensures SumTotals(MonthlyTallies(s)) == |s|
  {
    if s == [] {
      assert MonthlyTallies(s) == map[];
    } else {
      var s', e := s[..|s| - 1], s[|s| - 1];
      assert s == s' + [e];
      MonthlyTotalsSum(s');
      TalliesSnoc(s', e);
      SumTotalsUpdate(MonthlyTallies(s'), e.month, CountRecord(TallyOf(MonthlyTallies(s'), e.month), e));
    }
  }

  // ---------------------------------------------------------------- the statistics

  function WithPercentage(t: Tally): MonthStats {
    MonthStats(t.total, t.present, t.absent, Percentage(t.present, t.total))
  }

  /** The statistics of a list of records, as the scan below computes them. */
  function StatsOf(s: seq<Entry>): (st: Stats)
    ensures st.overall.totalRecords == |s|
    ensures st.overall.presentRecords + st.overall.absentRecords == st.overall.totalRecords
    ensures forall e :: multiset(Filter(s, IsPresent))[e] == if e.status then multiset(s)[e] else 0
    ensures st.overall.presentRecords == |Filter(s, IsPresent)|
    ensures st.overall.attendancePercentage == Percentage(st.overall.presentRecords, st.overall.totalRecords)
    ensures |s| == 0 ==> st.overall.attendancePercentage == Rate(0, 1) && st.monthlyBreakdown == map[]
    ensures forall m :: m in st.monthlyBreakdown <==> exists k :: 0 <= k < |s| && s[k].month == m
    ensures forall m :: m in st.monthlyBreakdown ==>
      var ms := st.monthlyBreakdown[m];
      && ms.total == CountInMonth(s, m) > 0
      && ms.present == CountPresentInMonth(s, m)
      && ms.present + ms.absent == ms.total
      && ms.percentage == Percentage(ms.present, ms.total)
    ensures SumTotals(MonthlyTallies(s)) == |s|
  {
    var present := |Filter(s, IsPresent)|;
    var tallies := MonthlyTallies(s);
    FilterCounts(s, IsPresent);
    MonthlyTotalsSum(s);
    TalliesAgree(s);
    Stats(
      Overall(|s|, present, |s| - present, Percentage(present, |s|)),
      map m | m in tallies :: WithPercentage(tallies[m]))
  }

  /** The months of the counters are the months of the records, and each month's counters
      split its non-zero total into present and absent. */
  lemma TalliesAgree(s: seq<Entry>)
    ensures forall m :: m in MonthlyTallies(s) <==> exists k :: 0 <= k < |s| && s[k].month == m
    ensures forall m :: m in MonthlyTallies(s) ==>
      MonthlyTallies(s)[m].present + MonthlyTallies(s)[m].absent == MonthlyTallies(s)[m].total > 0
  {
    var tallies := MonthlyTallies(s);
    forall m ensures m in tallies <==> exists k :: 0 <= k < |s| && s[k].month == m {
      MonthsOccur(s, m);
    }
    forall m | m in tallies ensures tallies[m].present + tallies[m].absent == tallies[m].total > 0 {
      MonthSplits(s, m);
      MonthsOccur(s, m);
      var k :| 0 <= k < |s| && s[k].month == m;
      CountedRecordIsCounted(s, k);
    }
  }

  /** Three records over two months: 2 of 3 present overall (66.67 %), month 1 half present,
      month 2 fully present. */
  lemma StatsExample(a: string, b: string, c: string)
    ensures var s := [Entry(a, 1, 1, 1, true, 10), Entry(b, 2, 1, 1, false, 20), Entry(c, 1, 2, 2, true, 30)];
      var st := StatsOf(s);
      && st.overall == Overall(3, 2, 1, Rate(200, 3))
      && st.monthlyBreakdown == map[1 := MonthStats(2, 1, 1, Rate(100, 2)), 2 := MonthStats(1, 1, 0, Rate(100, 1))]
  {
    var s := [Entry(a, 1, 1, 1, true, 10), Entry(b, 2, 1, 1, false, 20), Entry(c, 1, 2, 2, true, 30)];
    ExampleCounts(s);
    var tallies := MonthlyTallies(s);
    assert (map m | m in tallies :: WithPercentage(tallies[m]))
      == map[1 := MonthStats(2, 1, 1, Rate(100, 2)), 2 := MonthStats(1, 1, 0, Rate(100, 1))];
  }

  lemma ExampleCounts(s: seq<Entry>)
    requires |s| == 3 && s[0].month == 1 && s[1].month == 1 && s[2].month == 2
    requires s[0].status && !s[1].status && s[2].status
    ensures |Filter(s, IsPresent)| == 2
    ensures MonthlyTallies(s) == map[1 := Tally(2, 1, 1), 2 := Tally(1, 1, 0)]
  {
    var s0, s1 := s[..1], s[..2];
    assert s0[..0] == [] && s1[..1] == s0 && s[..2] == s1;
    assert |Filter(s1, IsPresent)| == 1 by {
      assert Filter(s0, IsPresent) == [s[0]];
    }
    assert Months(s) == {1, 2} by {
      assert Months(s0) == {1};
      assert Months(s1) == {1};
    }
    assert CountInMonth(s, 1) == 2 && CountPresentInMonth(s, 1) == 1 && CountAbsentInMonth(s, 1) == 1 by {
      assert CountInMonth(s0, 1) == 1 && CountPresentInMonth(s0, 1) == 1 && CountAbsentInMonth(s0, 1) == 0;
      assert CountInMonth(s1, 1) == 2 && CountPresentInMonth(s1, 1) == 1 && CountAbsentInMonth(s1, 1) == 1;
    }
    assert CountInMonth(s, 2) == 1 && CountPresentInMonth(s, 2) == 1 && CountAbsentInMonth(s, 2) == 0 by {
      assert CountInMonth(s0, 2) == 0 && CountPresentInMonth(s0, 2) == 0 && CountAbsentInMonth(s0, 2) == 0;
      assert CountInMonth(s1, 2) == 0 && CountPresentInMonth(s1, 2) == 0 && CountAbsentInMonth(s1, 2) == 0;
    }
  }

  /** A month that occurs has at least one record counted. */
  lemma {:induction false} CountedRecordIsCounted(s: seq<Entry>, k: nat)
    requires k < |s|
    ensures CountInMonth(s, s[k].month) > 0
  {
    if k < |s| - 1 {
      CountedRecordIsCounted(s[..|s| - 1], k);
    }
  }

  /** The `forEach` over the records in stored order: each record opens its month's counters
      on first sight and then counts as present or absent there. */
  method ScanMonths(attendance: seq<Entry>) returns (monthly: map<int, Tally>)
    ensures monthly == MonthlyTallies(attendance)
  {
    monthly := map[];
    for i := 0 to |attendance|
      invariant monthly == MonthlyTallies(attendance[..i])
    {
      var record := attendance[i];
      if record.month !in monthly {
        monthly := monthly[record.month := Tally(0, 0, 0)];
      }
      var t := monthly[record.month];
      if record.status {
        t := t.(total := t.total + 1, present := t.present + 1);
      } else {
        t := t.(total := t.total + 1, absent := t.absent + 1);
      }
      monthly := monthly[record.month := t];
      TalliesSnoc(attendance[..i], record);
      assert attendance[..i + 1] == attendance[..i] + [record];
    }
    assert attendance[..|attendance|] == attendance;
  }

  /** `getAttendanceStats`: resolve the student, count the present records, scan the records
      for the monthly counters, and add the percentages. */
  method GetAttendanceStats(studentId: string, lookup: Student?) returns (r: Result<Stats, ServiceError>)
    ensures FindStudentById(studentId, lookup).Failure? ==> r == Failure(FindStudentById(studentId, lookup).error)
    ensures FindStudentById(studentId, lookup).Success? ==> r == Success(StatsOf(lookup.attendance))
  {
    var found := FindStudentById(studentId, lookup);
    if found.Failure? {
      return Failure(found.error);
    }
    var attendance := found.value.attendance;
    var totalRecords := |attendance|;
    var presentRecords := |Filter(attendance, IsPresent)|;
    var absentRecords := totalRecords - presentRecords;
    var monthly := ScanMonths(attendance);
    var breakdown := map m | m in monthly :: WithPercentage(monthly[m]);
    r := Success(Stats(Overall(totalRecords, presentRecords, absentRecords, Percentage(presentRecords, totalRecords)), breakdown));
  }
}
