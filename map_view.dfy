/** The map screen: the category and status filters over the report list,
    the first eight filtered reports drawn as markers on a four-by-two grid,
    the selected marker and the "no reports" message. */
module MapView {
  import opened Domain
  import opened Seqs

  // ---------------------------------------------------------------- filter

  function CategoryIs(c: string): Report -> bool {
    (r: Report) => r.category == c
  }

  /** What the two selections together let through. */
  function MapMatch(category: Selection<string>, status: Selection<Status>): Report -> bool {
    (r: Report) => Selects(category, r.category) && Selects(status, r.status)
  }

  /** The filtered list as one filter over the reports. */
  function MapFilter(rs: seq<Report>, category: Selection<string>, status: Selection<Status>): seq<Report> {
    Filter(rs, MapMatch(category, status))
  }

  /** With both selections on "all" the list is shown as it is. */
  lemma MapFilterAll(rs: seq<Report>)
    ensures MapFilter(rs, All, All) == rs
  {
    FilterIdentity(rs, MapMatch(All, All));
  }

  /** Every shown report matches each selection that is not "all", and every
      matching report is shown, as often as it occurs. */
  lemma MapFilterExact(rs: seq<Report>, category: Selection<string>, status: Selection<Status>)
    ensures forall r :: r in MapFilter(rs, category, status) <==> (r in rs && Selects(category, r.category) && Selects(status, r.status))
    ensures forall r :: multiset(MapFilter(rs, category, status))[r] == (if Selects(category, r.category) && Selects(status, r.status) then multiset(rs)[r] else 0)
  {
    FilterMembers(rs, MapMatch(category, status));
    forall r ensures multiset(MapFilter(rs, category, status))[r] == (if Selects(category, r.category) && Selects(status, r.status) then multiset(rs)[r] else 0) {
      FilterMultiplicity(rs, MapMatch(category, status), r);
    }
  }

  /** The shown reports keep list order: filtering a concatenation is the
      concatenation of the filtered parts. */
  lemma MapFilterOrder(a: seq<Report>, b: seq<Report>, category: Selection<string>, status: Selection<Status>)
    ensures MapFilter(a + b, category, status) == MapFilter(a, category, status) + MapFilter(b, category, status)
  {
    FilterAppend(a, b, MapMatch(category, status));
  }

  /** Filtering by category and then by status is filtering by status and
      then by category. */
  lemma CategoryStatusCommute(rs: seq<Report>, c: string, s: Status)
    ensures Filter(Filter(rs, CategoryIs(c)), StatusIs(s)) == Filter(Filter(rs, StatusIs(s)), CategoryIs(c))
  {
    FilterCommutes(rs, CategoryIs(c), StatusIs(s));
  }

  /** "No reports match the current filters" is shown when the filtered list
      is empty. */
  predicate NoReports(filtered: seq<Report>) {
    |filtered| == 0
  }

  /** The message appears exactly when no report matches both selections. */
  lemma NoReportsIffNoMatch(rs: seq<Report>, category: Selection<string>, status: Selection<Status>)
    ensures NoReports(MapFilter(rs, category, status)) <==>
      forall i :: 0 <= i < |rs| ==> !(Selects(category, rs[i].category) && Selects(status, rs[i].status))
  {
    FilterMembers(rs, MapMatch(category, status));
    var f := MapFilter(rs, category, status);
    if f != [] {
      assert f[0] in rs;
      var i :| 0 <= i < |rs| && rs[i] == f[0];
      assert MapMatch(category, status)(rs[i]);
    } else {
      forall i | 0 <= i < |rs| ensures !(Selects(category, rs[i].category) && Selects(status, rs[i].status)) {
        assert rs[i] in rs;
        assert rs[i] !in f;
      }
    }
  }

  // --------------------------------------------------------------- markers

  /** At most eight markers are drawn. */
  const MaxMarkers: nat := 8

  /** `filteredReports.slice(0, 8)`. */
  function Markers(filtered: seq<Report>): seq<Report> {
    if |filtered| <= MaxMarkers then filtered else filtered[..MaxMarkers]
  }

  /** The markers are the first `min(8, n)` shown reports, in order: marker
      `i` is shown report `i`, and a list of eight or fewer is drawn whole. */
  lemma MarkersPrefix(filtered: seq<Report>)
    ensures |Markers(filtered)| == if |filtered| < MaxMarkers then |filtered| else MaxMarkers
    ensures forall i :: 0 <= i < |Markers(filtered)| ==> Markers(filtered)[i] == filtered[i]
    ensures |filtered| <= MaxMarkers ==> Markers(filtered) == filtered
  {
  }

  /** Horizontal position of marker `index`, in percent. */
  function MarkerLeft(index: nat): nat {
    20 + (index % 4) * 20
  }

  /** Vertical position of marker `index`, in percent. */
  function MarkerTop(index: nat): nat {
    30 + (index / 4) * 40
  }

  /** The eight markers sit on a four-by-two grid. */
  lemma MarkerGrid(index: nat)
    requires index < MaxMarkers
    ensures MarkerLeft(index) in {20, 40, 60, 80}
    ensures MarkerTop(index) in {30, 70}
    ensures MarkerTop(index) == 30 <==> index < 4
  {
  }

  /** Two different markers never share a position. */
  lemma MarkersApart(i: nat, j: nat)
    requires i != j
    ensures MarkerLeft(i) != MarkerLeft(j) || MarkerTop(i) != MarkerTop(j)
  {
  }

  // ---------------------------------------------------------------- screen

  class MapScreen {
    /** The list the screen was last rendered with. */
    var reports: seq<Report>
    var categoryFilter: Selection<string>
    var statusFilter: Selection<Status>
    var filtered: seq<Report>
    var selectedMarker: Option<Report>

    /** The shown list is the filter of the reports by both selections. */
    predicate Valid()
      reads this
    {
      filtered == MapFilter(reports, categoryFilter, statusFilter)
    }

    /** First render: both selections "all", every report shown. */
    constructor (rs: seq<Report>)
      ensures Valid()
      ensures reports == rs && categoryFilter == All && statusFilter == All
      ensures filtered == rs && selectedMarker.None?
    {
      reports, categoryFilter, statusFilter := rs, All, All;
      filtered, selectedMarker := rs, None;
      MapFilterAll(rs);
    }

    /** The filtering effect: starting from the reports, each selection that
        is not "all" narrows the list, and the result is stored. */
    method Refresh(rs: seq<Report>)
      modifies this
      ensures Valid()
      ensures reports == rs && filtered == MapFilter(rs, categoryFilter, statusFilter)
      ensures categoryFilter == old(categoryFilter) && statusFilter == old(statusFilter)
      ensures selectedMarker == old(selectedMarker)
    {
      reports := rs;
      var f := rs;
      if categoryFilter.Only? {
        f := Filter(f, CategoryIs(categoryFilter.value));
      }
      if statusFilter.Only? {
        f := Filter(f, StatusIs(statusFilter.value));
      }
      filtered := f;
      var both := MapMatch(categoryFilter, statusFilter);
      if categoryFilter.Only? && statusFilter.Only? {
        FilterFuse(rs, CategoryIs(categoryFilter.value), StatusIs(statusFilter.value), both);
      } else if categoryFilter.Only? {
        FilterExt(rs, CategoryIs(categoryFilter.value), both);
      } else if statusFilter.Only? {
        FilterExt(rs, StatusIs(statusFilter.value), both);
      } else {
        FilterIdentity(rs, both);
      }
    }

    /** The category select: the selection changes and the effect reruns. */
    method SetCategoryFilter(c: Selection<string>)
      modifies this
      ensures Valid()
      ensures categoryFilter == c && statusFilter == old(statusFilter) && reports == old(reports)
      ensures filtered == MapFilter(reports, c, statusFilter) && selectedMarker == old(selectedMarker)
    {
      categoryFilter := c;
      Refresh(reports);
    }

    /** The status select: the selection changes and the effect reruns. */
    method SetStatusFilter(s: Selection<Status>)
      modifies this
      ensures Valid()
      ensures statusFilter == s && categoryFilter == old(categoryFilter) && reports == old(reports)
      ensures filtered == MapFilter(reports, categoryFilter, s) && selectedMarker == old(selectedMarker)
    {
      statusFilter := s;
      Refresh(reports);
    }

    /** A click on marker `index` selects the report it stands for; the
        selection is kept when later filtering hides that report. */
    method SelectMarker(index: nat)
      requires Valid() && index < MaxMarkers && index < |filtered|
      modifies this
      ensures reports == old(reports) && filtered == old(filtered)
      ensures categoryFilter == old(categoryFilter) && statusFilter == old(statusFilter)
      ensures Valid()
      ensures selectedMarker == Some(Markers(filtered)[index]) && selectedMarker.value == filtered[index]
      ensures selectedMarker.value in reports
    {
      MarkersPrefix(filtered);
      MapFilterExact(reports, categoryFilter, statusFilter);
      assert filtered[index] in filtered;
      selectedMarker := Some(filtered[index]);
    }
  }
}
