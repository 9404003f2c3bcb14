/** How the screens' timer callbacks reach the top-level component: the
    submission form's timer calls `onSubmit` (the store's
    `handleSubmitReport`) with the report it captured, and the comment box's
    timer calls `onAddUpdate` (the store's `handleAddUpdate`) with the
    comment it captured, under the user of the render that handler came
    from. */
module Wiring {
  import opened Domain
  import Lifecycle
  import App
  import ReportSubmission
  import ReportDetail

  /** The submission form's timer, end to end: the oldest queued report goes
      in front of the store's collection and the screen switches to "My
      Reports". A citizen whose id is the hard-coded submitter id sees it at
      the top of their list; any other citizen's list stays as it was. */
  method DeliverReport(form: ReportSubmission.SubmissionForm, store: App.ReportStore) returns (report: Report)
    requires form.Valid() && form.pending != [] && store.Valid()
    modifies form, store
    ensures form.Valid() && store.Valid()
    ensures report == old(form.pending)[0] && form.pending == old(form.pending)[1..] && !form.isSubmitting
    ensures report.status == Submitted && report.userId == ReportSubmission.SubmitterId
    ensures store.Reports() == [report] + old(store.Reports()) && store.activeTab == "my-reports"
    ensures store.user == old(store.user) && store.Selected() == old(store.Selected())
    ensures store.user.Some? && store.user.value.role == Citizen ==>
      store.UserReports() ==
        if store.user.value.id == ReportSubmission.SubmitterId then [report] + old(store.UserReports())
        else old(store.UserReports())
  {
    report := form.SubmitTimerFired();
    store.SubmitReport(report);
    if store.user.Some? && store.user.value.role == Citizen {
      ReportSubmission.SubmissionVisibility(store.user.value, old(store.Reports()), report);
    }
  }

  /** The comment box's timer, end to end: the oldest captured comment is
      appended to the ledger of every report with its id, authored by the
      user captured with it (whoever is logged in when the timer fires), and
      the comment box is cleared. The entry is never blank. */
  method DeliverComment(box: ReportDetail.CommentBox, store: App.ReportStore, entryId: string, timestamp: string)
    returns (sent: ReportDetail.Outgoing)
    requires box.Valid() && box.pending != [] && store.Valid()
    modifies box, store
    ensures box.Valid() && store.Valid()
    ensures sent == old(box.pending)[0] && box.pending == old(box.pending)[1..]
    ensures box.comment == "" && !box.isSubmitting
    ensures !ReportDetail.IsBlank(sent.message)
    ensures store.Reports() == Lifecycle.AfterComment(old(store.Reports()), sent.reportId, sent.message, sent.author, entryId, timestamp)
    ensures forall i :: 0 <= i < |old(store.Reports())| && old(store.Reports())[i].id == sent.reportId ==>
      store.Reports()[i].updates == old(store.Reports())[i].updates + [Update(entryId, sent.message, timestamp, Lifecycle.CommentAuthor(sent.author), Comment)]
    ensures store.user == old(store.user)
  {
    sent := box.SendTimerFired();
    store.AddUpdate(sent.reportId, sent.message, sent.author, entryId, timestamp);
    forall i | 0 <= i < |old(store.Reports())| && old(store.Reports())[i].id == sent.reportId
      ensures store.Reports()[i].updates == old(store.Reports())[i].updates + [Update(entryId, sent.message, timestamp, Lifecycle.CommentAuthor(sent.author), Comment)]
    {
      Lifecycle.AfterCommentEffect(old(store.Reports()), sent.reportId, sent.message, sent.author, entryId, timestamp, i);
    }
  }
}
