/** The citizen's list of their own reports: the status tabs, their counts,
    the latest entry shown on each card and the empty state. */
module MyReports {
  import opened Domain
  import opened Seqs
  import Lifecycle
  import AdminDashboard

  /** `filterReports(tab)`: the whole list for the "all" tab, otherwise the
      reports with the tab's status. */
  function FilterReports(rs: seq<Report>, tab: Selection<Status>): seq<Report> {
    if tab.All? then rs else Filter(rs, StatusIs(tab.value))
  }

  /** `getTabCount(tab)`. */
  function TabCount(rs: seq<Report>, tab: Selection<Status>): nat {
    |FilterReports(rs, tab)|
  }

  /** A status tab shows exactly the reports with that status, in list
      order, each as often as it occurs; the "all" tab shows the list. */
  lemma FilterReportsExact(rs: seq<Report>, tab: Selection<Status>)
    ensures tab.All? ==> FilterReports(rs, tab) == rs
    ensures forall r :: multiset(FilterReports(rs, tab))[r] == (if Selects(tab, r.status) then multiset(rs)[r] else 0)
  {
    if tab.Only? {
      forall r ensures multiset(FilterReports(rs, tab))[r] == (if Selects(tab, r.status) then multiset(rs)[r] else 0) {
        FilterMultiplicity(rs, StatusIs(tab.value), r);
      }
    }
  }

  /** Tab contents keep list order: the tab of a concatenation is the
      concatenation of the tabs. */
  lemma FilterReportsOrder(a: seq<Report>, b: seq<Report>, tab: Selection<Status>)
    ensures FilterReports(a + b, tab) == FilterReports(a, tab) + FilterReports(b, tab)
  {
    if tab.Only? {
      FilterAppend(a, b, StatusIs(tab.value));
    }
  }

  /** The tab badges count what the tabs show: the "all" tab counts every
      report, a status tab agrees with the dashboard's count for that status,
      and the four status tabs together count every report whose status is a
      lifecycle one. */
  lemma TabCountsSum(rs: seq<Report>)
    ensures TabCount(rs, All) == |rs|
    ensures forall s :: TabCount(rs, Only(s)) == AdminDashboard.StatusCount(rs, s)
    ensures TabCount(rs, Only(Submitted)) + TabCount(rs, Only(Assigned)) + TabCount(rs, Only(InProgress))
      + TabCount(rs, Only(Resolved)) == |rs| - AdminDashboard.UnknownCount(rs)
  {
    AdminDashboard.StatusCountsSum(rs);
  }

  /** The entry shown under "latest update": the last entry of the ledger,
      shown only when the ledger has entries. */
  function LatestUpdate(r: Report): Option<Update> {
    if |r.updates| > 0 then Some(r.updates[|r.updates| - 1]) else None
  }

  /** After a status update or a comment on a report, its card shows the new
      entry; other cards are unchanged. */
  lemma LatestUpdateAfterAppend(rs: seq<Report>, reportId: string, status: Option<Status>, entry: Update, i: nat)
    requires i < |rs|
    ensures |Lifecycle.AfterAppend(rs, reportId, status, entry)| == |rs|
    ensures rs[i].id == reportId ==> LatestUpdate(Lifecycle.AfterAppend(rs, reportId, status, entry)[i]) == Some(entry)
    ensures rs[i].id != reportId ==> LatestUpdate(Lifecycle.AfterAppend(rs, reportId, status, entry)[i]) == LatestUpdate(rs[i])
  {
    var after := Lifecycle.AfterAppend(rs, reportId, status, entry)[i];
    if rs[i].id == reportId {
      assert after.updates == rs[i].updates + [entry];
    }
  }

  /** The card's progress bar after a status update reads as the switch on
      the status string: 25, 50, 75 and 100 for the four lifecycle names and
      0 for any other string. */
  lemma CardProgressAfterStatusUpdate(rs: seq<Report>, reportId: string, status: string, entryId: string, timestamp: string, i: nat)
    requires i < |rs| && rs[i].id == reportId
    ensures var p := StatusProgress(Lifecycle.AfterStatusUpdate(rs, reportId, status, entryId, timestamp)[i].status);
      && (status == "submitted" ==> p == 25)
      && (status == "assigned" ==> p == 50)
      && (status == "in-progress" ==> p == 75)
      && (status == "resolved" ==> p == 100)
      && (status !in LifecycleNames ==> p == 0)
  {
    var after := Lifecycle.AfterStatusUpdate(rs, reportId, status, entryId, timestamp);
    assert after[i].status == ParseStatus(status);
    ProgressOfName(status);
  }

  /** The progress of the status a string parses to. */
  lemma ProgressOfName(status: string)
    ensures var p := StatusProgress(ParseStatus(status));
      && (status == "submitted" ==> p == 25)
      && (status == "assigned" ==> p == 50)
      && (status == "in-progress" ==> p == 75)
      && (status == "resolved" ==> p == 100)
      && (status !in LifecycleNames ==> p == 0)
  {
  }

  /** The empty-state panel: shown when there are no reports. */
  predicate ShowEmptyState(rs: seq<Report>) {
    |rs| == 0
  }

  /** The panel is shown exactly when every tab, the "all" tab included, is
      empty. */
  lemma EmptyStateIffTabsEmpty(rs: seq<Report>)
    ensures ShowEmptyState(rs) <==> forall tab :: TabCount(rs, tab) == 0
  {
    if !ShowEmptyState(rs) {
      assert TabCount(rs, All) != 0;
    }
  }
}
