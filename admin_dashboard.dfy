/** The administrator's dashboard: counts by status and priority, the closure
    rate, the ward and category filter over the report list, and the quick
    assignment to a department. */
module AdminDashboard {
  import opened Domain
  import opened Seqs
  import Lifecycle

  // ---------------------------------------------------------------- counts

  /** `getStatusCount(s)`: how many reports have status `s`. */
  function StatusCount(rs: seq<Report>, s: Status): (n: nat)
    ensures n <= |rs|
  {
    |Filter(rs, StatusIs(s))|
  }

  /** `getPriorityCount(p)`. */
  function PriorityCount(rs: seq<Report>, p: Priority): (n: nat)
    ensures n <= |rs|
  {
    |Filter(rs, PriorityIs(p))|
  }

  predicate HasUnknownStatus(r: Report) {
    r.status.Unknown?
  }

  /** How many reports carry a status outside the lifecycle. */
  function UnknownCount(rs: seq<Report>): nat {
    |Filter(rs, HasUnknownStatus)|
  }

  /** Counting one report more adds one to the count of its own status and
      nothing to the others. */
  lemma StatusCountCons(r: Report, rs: seq<Report>, s: Status)
    ensures StatusCount([r] + rs, s) == StatusCount(rs, s) + (if r.status == s then 1 else 0)
  {
    assert ([r] + rs)[1..] == rs;
  }

  /** The four lifecycle counts and the count of other statuses add up to
      the number of reports; when every status is a lifecycle one, the four
      status tiles alone add up to the total. */
  lemma {:induction false} StatusCountsSum(rs: seq<Report>)
    ensures StatusCount(rs, Submitted) + StatusCount(rs, Assigned) + StatusCount(rs, InProgress)
      + StatusCount(rs, Resolved) + UnknownCount(rs) == |rs|
    ensures UnknownCount(rs) == 0 <==> forall i :: 0 <= i < |rs| ==> !rs[i].status.Unknown?
  {
    if rs != [] {
      StatusCountsSum(rs[1..]);
      assert rs == [rs[0]] + rs[1..];
      StatusCountCons(rs[0], rs[1..], Submitted);
      StatusCountCons(rs[0], rs[1..], Assigned);
      StatusCountCons(rs[0], rs[1..], InProgress);
      StatusCountCons(rs[0], rs[1..], Resolved);
      if UnknownCount(rs) == 0 {
        forall i | 0 <= i < |rs| ensures !rs[i].status.Unknown? {
          if i > 0 {
            assert rs[i] == rs[1..][i - 1];
          }
        }
      }
    }
  }

  /** The three priority counts add up to the number of reports. */
  lemma {:induction false} PriorityCountsSum(rs: seq<Report>)
    ensures PriorityCount(rs, Low) + PriorityCount(rs, Medium) + PriorityCount(rs, High) == |rs|
  {
    if rs != [] {
      PriorityCountsSum(rs[1..]);
      assert rs == [rs[0]] + rs[1..];
    }
  }

  /** A count is the multiplicity of the matching reports: each report with
      status `s` counts as often as it occurs, and no other report counts. */
  lemma StatusCountExact(rs: seq<Report>, s: Status)
    ensures StatusCount(rs, s) == |multiset(Filter(rs, StatusIs(s)))|
    ensures forall r :: multiset(Filter(rs, StatusIs(s)))[r] == if r.status == s then multiset(rs)[r] else 0
  {
    forall r ensures multiset(Filter(rs, StatusIs(s)))[r] == if r.status == s then multiset(rs)[r] else 0 {
      FilterMultiplicity(rs, StatusIs(s), r);
    }
  }

  // ---------------------------------------------------------- closure rate

  /** `getClosureRate()`: `Math.round(resolved / total * 100)`, and 0 for an
      empty list. Rounding half up of `100r/t` is `(200r + t) div 2t`. */
  function ClosureRate(rs: seq<Report>): nat {
    var t := |rs|;
    if t > 0 then (200 * StatusCount(rs, Resolved) + t) / (2 * t) else 0
  }

  /** The rate is the percentage of resolved reports rounded to the nearest
      integer, halves rounding up. */
  lemma ClosureRateRounds(rs: seq<Report>)
    requires |rs| > 0
    ensures var exact := 100.0 * (StatusCount(rs, Resolved) as real) / (|rs| as real);
      (ClosureRate(rs) as real) - 0.5 <= exact < (ClosureRate(rs) as real) + 0.5
  {
    RoundHalfUp(StatusCount(rs, Resolved), |rs|);
  }

  /** The rate is a percentage; it is 0 with nothing resolved (including the
      empty list) and 100 with everything resolved. */
  lemma ClosureRateBounds(rs: seq<Report>)
    ensures ClosureRate(rs) <= 100
    ensures StatusCount(rs, Resolved) == 0 ==> ClosureRate(rs) == 0
    ensures |rs| > 0 && StatusCount(rs, Resolved) == |rs| ==> ClosureRate(rs) == 100
  {
    if |rs| > 0 {
      RoundHalfUpInt(StatusCount(rs, Resolved), |rs|);
    }
  }

  /** `(200r + t) div 2t` as an integer: the quotient brackets `200r + t`,
      stays within 100, and hits both ends. */
  lemma RoundHalfUpInt(r: nat, t: nat)
    requires 0 < t && r <= t
    ensures var q := (200 * r + t) / (2 * t);
      && 2 * t * q <= 200 * r + t < 2 * t * q + 2 * t
      && q <= 100
      && (r == 0 ==> q == 0)
      && (r == t ==> q == 100)
  {
    var n := 200 * r + t;
    var d := 2 * t;
    var q := n / d;
    DivBracket(n, d);
    assert d * (q + 1) == d * q + d;
    MulCancel(d, -1, q + 1);
    assert n < d * 101;
    MulCancel(d, q, 101);
    if r == 0 {
      MulCancel(d, q, 1);
    }
    if r == t {
      assert d * 99 < d * (q + 1);
      MulCancel(d, 99, q + 1);
    }
  }

  /** `(200r + t) div 2t` is `100r/t` rounded half up. */
  lemma RoundHalfUp(r: nat, t: nat)
    requires 0 < t && r <= t
    ensures var q := (200 * r + t) / (2 * t);
      (q as real) - 0.5 <= 100.0 * (r as real) / (t as real) < (q as real) + 0.5
  {
    var q := (200 * r + t) / (2 * t);
    RoundHalfUpInt(r, t);
    var tr := t as real;
    assert ((2 * t * q) as real) == 2.0 * tr * (q as real);
    assert ((q as real) - 0.5) * tr <= 100.0 * (r as real);
    LeDiv(100.0 * (r as real), (q as real) - 0.5, tr);
    assert 100.0 * (r as real) < ((q as real) + 0.5) * tr;
    DivLt(100.0 * (r as real), (q as real) + 0.5, tr);
  }

  lemma DivBracket(n: int, d: int)
    requires d > 0
    ensures d * (n / d) <= n < d * (n / d) + d
  {
  }

  lemma MulCancel(d: int, a: int, b: int)
    requires d > 0 && d * a < d * b
    ensures a < b
  {
    assert d * b - d * a == d * (b - a);
  }

  lemma LeDiv(a: real, b: real, c: real)
    requires c > 0.0 && b * c <= a
    ensures b <= a / c
  {
    assert (a / c) * c == a;
  }

  lemma DivLt(a: real, b: real, c: real)
    requires c > 0.0 && a < b * c
    ensures a / c < b
  {
    assert (a / c) * c == a;
  }

  // ---------------------------------------------------------- quick assign

  /** `handleQuickAssign(reportId)`: the report id is forwarded with the
      department at the random index `pick` (`Math.floor(Math.random() * 4)`). */
  function QuickAssign(reportId: string, pick: nat): (a: (string, string))
    requires pick < |Lifecycle.Departments|
    ensures a.0 == reportId && a.1 in Lifecycle.Departments
  {
    (reportId, Lifecycle.Departments[pick])
  }

  /** Every department can be drawn, and nothing else can: the possible
      assignees are exactly the four departments. */
  lemma QuickAssignChoices(reportId: string)
    ensures (set pick | 0 <= pick < 4 :: QuickAssign(reportId, pick).1)
      == {"Public Works", "Sanitation Dept", "Safety Team", "Traffic Division"}
  {
    assert QuickAssign(reportId, 0).1 == "Public Works";
    assert QuickAssign(reportId, 1).1 == "Sanitation Dept";
    assert QuickAssign(reportId, 2).1 == "Safety Team";
    assert QuickAssign(reportId, 3).1 == "Traffic Division";
  }

  // --------------------------------------------------------------- filters

  /** The ward and category selections: `'all'`, or one ward number (the
      select offers `ward.toString()` for wards 1 to 10, and a ward matches
      when its decimal string equals the selection) and one category. */
  function WardCategoryMatch(ward: Selection<int>, category: Selection<string>): Report -> bool {
    (r: Report) => Selects(ward, r.ward) && Selects(category, r.category)
  }

  /** `filteredReports`. */
  function FilteredReports(rs: seq<Report>, ward: Selection<int>, category: Selection<string>): seq<Report> {
    Filter(rs, WardCategoryMatch(ward, category))
  }

  /** With both selections on "all" the list is shown as it is. */
  lemma FilteredReportsAll(rs: seq<Report>)
    ensures FilteredReports(rs, All, All) == rs
  {
    FilterIdentity(rs, WardCategoryMatch(All, All));
  }

  /** Exactly the reports matching both selections are kept, each as often
      as it occurs. */
  lemma FilteredReportsExact(rs: seq<Report>, ward: Selection<int>, category: Selection<string>)
    ensures forall r :: r in FilteredReports(rs, ward, category) <==>
      r in rs && Selects(ward, r.ward) && Selects(category, r.category)
    ensures forall r :: multiset(FilteredReports(rs, ward, category))[r] == (if Selects(ward, r.ward) && Selects(category, r.category) then multiset(rs)[r] else 0)
  {
    FilterMembers(rs, WardCategoryMatch(ward, category));
    forall r ensures multiset(FilteredReports(rs, ward, category))[r] ==
      if Selects(ward, r.ward) && Selects(category, r.category) then multiset(rs)[r] else 0
    {
      FilterMultiplicity(rs, WardCategoryMatch(ward, category), r);
    }
  }

  /** The kept reports stay in list order: filtering a concatenation is the
      concatenation of the filtered parts. */
  lemma FilteredReportsOrder(a: seq<Report>, b: seq<Report>, ward: Selection<int>, category: Selection<string>)
    ensures FilteredReports(a + b, ward, category) == FilteredReports(a, ward, category) + FilteredReports(b, ward, category)
  {
    FilterAppend(a, b, WardCategoryMatch(ward, category));
  }
}
