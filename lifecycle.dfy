/** What the report collection of src/App.tsx looks like after each handler, as
    functions of the collection before it (its value, as every screen reads
    it). The store in module App is proved to follow these functions. */
module Lifecycle {
  import opened Domain
  import opened Seqs

  /** The department list used by the background step and by quick assign. */
  const Departments: seq<string> := ["Public Works", "Sanitation Dept", "Safety Team", "Traffic Division"]

  // ---------------------------------------------------------------- assign

  function AssignOne(r: Report, reportId: string, assignee: string): Report {
    if r.id == reportId then r.(status := Assigned, assignedTo := Some(assignee)) else r
  }

  /** The collection after `handleAssignReport(reportId, assignee)`. */
  function AfterAssign(rs: seq<Report>, reportId: string, assignee: string): seq<Report> {
    Map(rs, (r: Report) => AssignOne(r, reportId, assignee))
  }

  /** Assigning rewrites status and department of every report with the id,
      and nothing else: no field of another report, no ledger entry, neither
      length nor order. */
  lemma AfterAssignEffect(rs: seq<Report>, reportId: string, assignee: string)
    ensures |AfterAssign(rs, reportId, assignee)| == |rs|
    ensures forall i :: 0 <= i < |rs| ==>
      AfterAssign(rs, reportId, assignee)[i] ==
        if rs[i].id == reportId then rs[i].(status := Assigned, assignedTo := Some(assignee)) else rs[i]
    ensures forall i :: 0 <= i < |rs| ==> AfterAssign(rs, reportId, assignee)[i].updates == rs[i].updates
  {
  }

  // ------------------------------------------------- status update, comment

  /** A report after one ledger append: when its id matches, the entry goes at
      the end of its ledger and, for a status update, the status is replaced. */
  function WithEntry(r: Report, reportId: string, status: Option<Status>, entry: Update): Report {
    if r.id != reportId then r
    else r.(status := if status.Some? then status.value else r.status, updates := r.updates + [entry])
  }

  function AfterAppend(rs: seq<Report>, reportId: string, status: Option<Status>, entry: Update): seq<Report> {
    Map(rs, (r: Report) => WithEntry(r, reportId, status, entry))
  }

  /** The ledger message of a status change: the first '-' of the raw status
      string becomes a space. */
  function StatusMessage(status: string): string {
    "Status changed to " + ReplaceFirst(status, '-', ' ')
  }

  function StatusEntry(entryId: string, timestamp: string, status: string): Update {
    Update(entryId, StatusMessage(status), timestamp, "System", StatusChange)
  }

  /** `user?.name || 'Anonymous'`: an absent user and an empty name both give
      "Anonymous". */
  function CommentAuthor(user: Option<User>): (a: string)
    ensures a == "Anonymous" <==> user.None? || user.value.name in {"", "Anonymous"}
    ensures user.Some? && user.value.name != "" ==> a == user.value.name
  {
    if user.Some? && user.value.name != "" then user.value.name else "Anonymous"
  }

  function CommentEntry(entryId: string, timestamp: string, message: string, user: Option<User>): Update {
    Update(entryId, message, timestamp, CommentAuthor(user), Comment)
  }

  /** The collection after `handleUpdateStatus(reportId, status)`. */
  function AfterStatusUpdate(rs: seq<Report>, reportId: string, status: string, entryId: string, timestamp: string): seq<Report> {
    AfterAppend(rs, reportId, Some(ParseStatus(status)), StatusEntry(entryId, timestamp, status))
  }

  /** The collection after `handleAddUpdate(reportId, message)` by `user`. */
  function AfterComment(rs: seq<Report>, reportId: string, message: string, user: Option<User>, entryId: string, timestamp: string): seq<Report> {
    AfterAppend(rs, reportId, None, CommentEntry(entryId, timestamp, message, user))
  }

  /** A status update writes the requested status whatever the prior status
      (there is no transition guard), and appends exactly one status-change
      entry authored "System" after the entries already present. */
  lemma AfterStatusUpdateEffect(rs: seq<Report>, reportId: string, status: string, entryId: string, timestamp: string, i: nat)
    requires i < |rs|
    ensures |AfterStatusUpdate(rs, reportId, status, entryId, timestamp)| == |rs|
    ensures rs[i].id == reportId ==>
      var r := AfterStatusUpdate(rs, reportId, status, entryId, timestamp)[i];
      && StatusName(r.status) == status
      && r.updates == rs[i].updates + [Update(entryId, StatusMessage(status), timestamp, "System", StatusChange)]
      && r == rs[i].(status := r.status, updates := r.updates)
    ensures rs[i].id != reportId ==> AfterStatusUpdate(rs, reportId, status, entryId, timestamp)[i] == rs[i]
  {
  }

  /** Backward moves are accepted: a resolved report can be sent back to
      "submitted". */
  lemma ResolvedCanReturnToSubmitted(r: Report, entryId: string, timestamp: string)
    requires r.status == Resolved
    ensures AfterStatusUpdate([r], r.id, "submitted", entryId, timestamp)[0].status == Submitted
  {
  }

  /** The ledger message of a hyphenated status reads with its first hyphen
      as a space ("in-progress" gives "in progress"); later hyphens stay. */
  lemma HyphenatedStatusMessage(head: string, tail: string)
    requires '-' !in head
    ensures StatusMessage(head + "-" + tail) == "Status changed to " + head + " " + tail
  {
    ReplaceFirstSplit(head, tail, '-', ' ');
  }

  /** A comment appends exactly one comment entry by the given user (or
      "Anonymous") and leaves status and earlier entries as they were. */
  lemma AfterCommentEffect(rs: seq<Report>, reportId: string, message: string, user: Option<User>, entryId: string, timestamp: string, i: nat)
    requires i < |rs|
    ensures |AfterComment(rs, reportId, message, user, entryId, timestamp)| == |rs|
    ensures rs[i].id == reportId ==>
      AfterComment(rs, reportId, message, user, entryId, timestamp)[i] ==
        rs[i].(updates := rs[i].updates + [Update(entryId, message, timestamp, CommentAuthor(user), Comment)])
    ensures rs[i].id != reportId ==> AfterComment(rs, reportId, message, user, entryId, timestamp)[i] == rs[i]
  {
  }

  /** Ledgers only grow: every ledger after an append starts with the ledger
      before it, and is at most one entry longer. */
  lemma {:induction false} AppendOnly(rs: seq<Report>, reportId: string, status: Option<Status>, entry: Update, i: nat)
    requires i < |rs|
    ensures var after := AfterAppend(rs, reportId, status, entry)[i].updates;
      && |rs[i].updates| <= |after| <= |rs[i].updates| + 1
      && after[..|rs[i].updates|] == rs[i].updates
  {
    var after := AfterAppend(rs, reportId, status, entry)[i].updates;
    if rs[i].id == reportId {
      assert after == rs[i].updates + [entry];
      assert after[..|rs[i].updates|] == rs[i].updates;
    }
  }

  /** A report id that matches no report leaves the whole collection as it
      was, for assign, status update and comment alike. */
  lemma {:induction false} UnknownIdIsNoOp(rs: seq<Report>, reportId: string, assignee: string, status: Option<Status>, entry: Update)
    requires forall i :: 0 <= i < |rs| ==> rs[i].id != reportId
    ensures AfterAssign(rs, reportId, assignee) == rs
    ensures AfterAppend(rs, reportId, status, entry) == rs
  {
    var a := AfterAssign(rs, reportId, assignee);
    assert forall i :: 0 <= i < |rs| ==> a[i] == rs[i];
    var b := AfterAppend(rs, reportId, status, entry);
    assert forall i :: 0 <= i < |rs| ==> b[i] == rs[i];
  }

  // ------------------------------------------------------------- visibility

  function OwnedBy(userId: string): Report -> bool {
    (r: Report) => r.userId == userId
  }

  /** `userReports`: a citizen sees the reports carrying their id, anyone else
      sees the whole collection. */
  function Visible(user: Option<User>, rs: seq<Report>): seq<Report> {
    if user.Some? && user.value.role == Citizen then Filter(rs, OwnedBy(user.value.id)) else rs
  }

  /** A citizen sees exactly their own reports, each as often as it occurs and
      in the original order; an administrator sees everything. */
  lemma VisibleExactly(user: User, rs: seq<Report>, a: seq<Report>, b: seq<Report>)
    ensures user.role == Admin ==> Visible(Some(user), rs) == rs
    ensures user.role == Citizen ==>
      forall r :: multiset(Visible(Some(user), rs))[r] == if r.userId == user.id then multiset(rs)[r] else 0
    ensures user.role == Citizen ==>
      Visible(Some(user), a + b) == Visible(Some(user), a) + Visible(Some(user), b)
  {
    if user.role == Citizen {
      forall r ensures multiset(Visible(Some(user), rs))[r] == if r.userId == user.id then multiset(rs)[r] else 0 {
        FilterMultiplicity(rs, OwnedBy(user.id), r);
      }
      FilterAppend(a, b, OwnedBy(user.id));
    }
  }

  // ----------------------------------------------------------- notification

  /** The initial notification flag: some report is submitted and of high
      priority. */
  predicate HasUrgent(rs: seq<Report>) {
    exists i :: 0 <= i < |rs| && rs[i].status == Submitted && rs[i].priority == High
  }

  // ------------------------------------------------------ background step

  function SubmittedCount(rs: seq<Report>): nat {
    |Filter(rs, StatusIs(Submitted))|
  }

  /** Position in `rs` of the `n`-th submitted report (counting from 0), that
      is, of `rs.filter(r => r.status === 'submitted')[n]`. */
  function NthSubmitted(rs: seq<Report>, n: nat): (k: nat)
    requires n < SubmittedCount(rs)
    ensures k < |rs| && rs[k].status == Submitted
  {
    assert Filter(rs, StatusIs(Submitted)) != [];
    if rs[0].status == Submitted && n == 0 then 0
    else
      var m := if rs[0].status == Submitted then n - 1 else n;
      NthSubmitted(rs[1..], m) + 1
  }

  /** Exactly `n` submitted reports precede the `n`-th one, which is element
      `n` of `rs.filter(r => r.status === 'submitted')`. */
  lemma {:induction false} NthSubmittedPlace(rs: seq<Report>, n: nat)
    requires n < SubmittedCount(rs)
    ensures var k := NthSubmitted(rs, n);
      && SubmittedCount(rs[..k]) == n
      && Filter(rs, StatusIs(Submitted))[n] == rs[k]
  {
    var k := NthSubmitted(rs, n);
    assert Filter(rs, StatusIs(Submitted)) != [];
    if rs[0].status == Submitted && n == 0 {
      assert rs[..0] == [];
    } else {
      var m := if rs[0].status == Submitted then n - 1 else n;
      NthSubmittedPlace(rs[1..], m);
      assert rs[..k] == [rs[0]] + rs[1..][..k - 1];
      SubmittedCountAppend([rs[0]], rs[1..][..k - 1]);
    }
    assert rs == rs[..k] + [rs[k]] + rs[k + 1..];
    FilterAppend(rs[..k] + [rs[k]], rs[k + 1..], StatusIs(Submitted));
    FilterAppend(rs[..k], [rs[k]], StatusIs(Submitted));
  }

  /** The collection after one tick of the background step: when it fires and
      some report is submitted, the `pick`-th submitted report becomes assigned
      to `department`; otherwise nothing changes. */
  function AfterTick(rs: seq<Report>, fire: bool, pick: nat, department: string): seq<Report>
    requires fire && SubmittedCount(rs) > 0 ==> pick < SubmittedCount(rs)
  {
    if fire && SubmittedCount(rs) > 0 then
      var k := NthSubmitted(rs, pick);
      rs[k := rs[k].(status := Assigned, assignedTo := Some(department))]
    else rs
  }

  lemma {:induction false} SubmittedCountAppend(a: seq<Report>, b: seq<Report>)
    ensures SubmittedCount(a + b) == SubmittedCount(a) + SubmittedCount(b)
  {
    FilterAppend(a, b, StatusIs(Submitted));
  }

  /** A firing tick moves exactly one submitted report to assigned and changes
      no other report; a tick that does not fire changes nothing. */
  lemma AfterTickEffect(rs: seq<Report>, fire: bool, pick: nat, department: string)
    requires fire && SubmittedCount(rs) > 0 ==> pick < SubmittedCount(rs)
    ensures var after := AfterTick(rs, fire, pick, department);
      && |after| == |rs|
      && (fire && SubmittedCount(rs) > 0 ==> SubmittedCount(after) == SubmittedCount(rs) - 1)
      && (!(fire && SubmittedCount(rs) > 0) ==> after == rs)
      && forall i :: 0 <= i < |rs| && after[i] != rs[i] ==>
           rs[i].status == Submitted && after[i] == rs[i].(status := Assigned, assignedTo := Some(department))
  {
    if fire && SubmittedCount(rs) > 0 {
      var k := NthSubmitted(rs, pick);
      var after := AfterTick(rs, fire, pick, department);
      assert after[..k] == rs[..k] && after[k + 1..] == rs[k + 1..];
      SubmittedCountAround(rs, k);
      SubmittedCountAround(after, k);
    }
  }

  /** The submitted count splits around any position. */
  lemma SubmittedCountAround(rs: seq<Report>, k: nat)
    requires k < |rs|
    ensures SubmittedCount(rs) ==
      SubmittedCount(rs[..k]) + (if rs[k].status == Submitted then 1 else 0) + SubmittedCount(rs[k + 1..])
  {
    assert rs == rs[..k] + [rs[k]] + rs[k + 1..];
    SubmittedCountAppend(rs[..k] + [rs[k]], rs[k + 1..]);
    SubmittedCountAppend(rs[..k], [rs[k]]);
  }
  // ------------------------------------------------------ canonical statuses

  /** Assigning keeps the statuses canonical: it writes `Assigned`. */
  lemma AssignKeepsCanonical(rs: seq<Report>, reportId: string, assignee: string)
    requires AllCanonical(rs)
    ensures AllCanonical(AfterAssign(rs, reportId, assignee))
  {
  }

  /** A ledger append keeps the statuses canonical when the status it writes,
      if any, is canonical, as the status a string parses to is. */
  lemma AppendKeepsCanonical(rs: seq<Report>, reportId: string, status: Option<Status>, entry: Update)
    requires AllCanonical(rs)
    requires status.Some? ==> CanonicalStatus(status.value)
    ensures AllCanonical(AfterAppend(rs, reportId, status, entry))
  {
  }

  /** The background step keeps the statuses canonical: it writes
      `Assigned`. */
  lemma TickKeepsCanonical(rs: seq<Report>, fire: bool, pick: nat, department: string)
    requires AllCanonical(rs)
    requires fire && SubmittedCount(rs) > 0 ==> pick < SubmittedCount(rs)
    ensures AllCanonical(AfterTick(rs, fire, pick, department))
  {
  }

  /** On canonical statuses the urgency test agrees with the string test of
      the source: some report's status string is "submitted" and its
      priority is high. */
  lemma UrgentByName(rs: seq<Report>)
    requires AllCanonical(rs)
    ensures HasUrgent(rs) <==> exists i :: 0 <= i < |rs| && StatusName(rs[i].status) == "submitted" && rs[i].priority == High
  {
    forall i | 0 <= i < |rs| ensures StatusName(rs[i].status) == "submitted" <==> rs[i].status == Submitted {
      CanonicalSameName(rs[i].status, Submitted);
    }
  }
}
