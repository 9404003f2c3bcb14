# Civic issue reporting client: a verified model of its core

This project models the report-handling core of a React client for civic
issue reports. Citizens submit reports (category, title, description,
location, photo, voice note). Administrators assign them to departments and
move them through the lifecycle submitted → assigned → in progress →
resolved. Everyone can follow a report's ledger of status changes and
comments.

What is modelled, one Dafny module per part of the program:

- **Domain** (`domain.dfy`): the report record and its vocabularies.
  - The status parsing that accepts any string. A status string is held in
    one canonical form: `Unknown` never carries a lifecycle name, so two
    statuses are equal exactly when their strings are.
  - The progress percentage per status.
  - The first-occurrence `String.prototype.replace` used in ledger messages.
- **Seqs** (`seqs.dfy`): `Array.prototype.filter` and `map`, with the laws
  the screens rely on.
- **Lifecycle** (`lifecycle.dfy`): the report collection after each handler
  of the top-level component, as functions of the collection before it.
  - Assign, status update and comment.
  - The background step that assigns a random submitted report.
  - What a citizen sees.
- **App** (`app.dfy`): the top-level component's state as a class,
  `ReportStore`.
  - The reports live in an explicit heap of objects and `updates` arrays, so
    the model reproduces JavaScript aliasing.
  - A spread copy `{...report}` shares the original's `updates` array.
  - `push` grows that shared array in place.
  - The background step mutates an object in place.
  - The report held open by the detail screen therefore sees some of these
    changes and not others. Each handler is proved to follow its
    Lifecycle function, to keep the array free of sharing, and to keep
    every status canonical.
- **AdminDashboard** (`admin_dashboard.dfy`): status and priority counts, the
  closure rate, quick assignment, and the ward/category filter.
- **MyReports** (`my_reports.dfy`): status tabs and their counts, the latest
  update shown on a card, and the empty state.
- **ReportSubmission** (`report_submission.dfy`): the report the form builds
  and its priority rule. The form's state is a class: location lookup,
  voice recording, and submission behind a timer.
- **ReportDetail** (`report_detail.dfy`): the progress timeline, the
  `trim`-based blank-comment guard, and the comment box as a class. Also the
  avatar initials and the sections shown only in some states.
- **MapView** (`map_view.dfy`): the category/status filtering effect as a
  class whose `Refresh` narrows a local list step by step. Also the first
  eight markers and their grid positions, and the "no reports" message.
- **Wiring** (`wiring.dfy`): the two timer callbacks end to end. The
  submission form's timer hands its report to the store's submit handler.
  The comment box's timer hands its comment to the store's comment handler
  it captured, with the user of the render that handler came from.

Timer callbacks, the random draws, `Date.now()` ids and timestamps, and the
device position are inputs of the methods. Each callback is one atomic step.

## Model

| member | source | states |
|---|---|---|
| Domain.ParseStatus | src/App.tsx:189-192 | every status string is accepted and kept: the parsed status names back to exactly that string, and a status outside the lifecycle never carries a lifecycle name |
| Domain.ParseStatusName | src/App.tsx:31 | naming a canonical status and parsing the name gives the status back |
| Domain.StatusProgress | src/components/ReportDetail.tsx:48-56 | the progress percentage never exceeds 100 |
| Domain.CanonicalSameName | src/App.tsx:134 | two canonical statuses are equal exactly when their status strings are, so comparing statuses is comparing the strings |
| Domain.ProgressByStage | src/components/ReportDetail.tsx:48-56 | progress is 25 per lifecycle stage (0 outside the lifecycle), so one status is further along than another exactly when its progress is larger |
| Domain.ReplaceFirst | src/App.tsx:198 | the replacement keeps the length, and a string without the pattern character is returned unchanged |
| Domain.ReplaceFirstAt | src/App.tsx:198 | position by position, a character is replaced exactly when it is the first occurrence of the pattern |
| Domain.ReplaceFirstSplit | src/App.tsx:198 | in `a + [from] + b` with no `from` in `a`, exactly that character is replaced |
| Seqs.Map | src/App.tsx:181-185 | `map` keeps the length and applies the callback at every position |
| Seqs.FilterMembers | src/components/MapView.tsx:36-42 | `filter` keeps exactly the elements that satisfy the predicate |
| Seqs.FilterAppend | src/components/MapView.tsx:36-42 | filtering a concatenation is concatenating the filtered parts, so order is kept |
| Seqs.FilterMultiplicity | src/components/AdminDashboard.tsx:65-67 | every element that passes is kept as often as it occurs, and every other element is dropped |
| Seqs.FilterIdentity | src/components/MapView.tsx:33-45 | a filter returns its input exactly when every element passes |
| Seqs.FilterCommutes | src/components/MapView.tsx:36-42 | two filters applied in either order give the same list |
| Seqs.FilterFuse | src/components/MapView.tsx:36-42 | two successive filters are one filter by the conjunction |
| Lifecycle.AfterAssignEffect | src/App.tsx:180-187 | assigning sets status "assigned" and the department on every report with the id; no other report, no ledger, and neither length nor order change |
| Lifecycle.CommentAuthor | src/App.tsx:222 | the author is "Anonymous" exactly when there is no user or the name is empty or "Anonymous"; otherwise it is the user's name |
| Lifecycle.AfterStatusUpdateEffect | src/App.tsx:189-210 | the matching report gets the requested status string, whatever it is, plus exactly one "System" status-change entry after its existing entries; its other fields and all other reports are unchanged |
| Lifecycle.ResolvedCanReturnToSubmitted | src/App.tsx:189-192 | there is no transition guard: a resolved report can be set back to submitted |
| Lifecycle.HyphenatedStatusMessage | src/App.tsx:198 | the status message shows the first hyphen of the status as a space ("in-progress" reads "in progress"); later hyphens stay |
| Lifecycle.AfterCommentEffect | src/App.tsx:212-232 | a comment appends exactly one comment entry by the given user (or "Anonymous") and changes nothing else |
| Lifecycle.AppendOnly | src/App.tsx:195-202 | ledgers only grow: every new ledger starts with the old one and is at most one entry longer |
| Lifecycle.UnknownIdIsNoOp | src/App.tsx:180-229 | an id that matches no report leaves the collection as it was, for assign, status update and comment |
| Lifecycle.VisibleExactly | src/App.tsx:247-250 | a citizen sees exactly their own reports, each as often as it occurs and in order; an administrator sees all of them |
| Lifecycle.NthSubmitted | src/App.tsx:142-145 | the pick lands on a report inside the array that is submitted |
| Lifecycle.NthSubmittedPlace | src/App.tsx:142-145 | the picked position is element `n` of the submitted sub-list, with exactly `n` submitted reports before it |
| Lifecycle.AfterTickEffect | src/App.tsx:138-159 | a step that fires, with some report submitted, moves exactly one submitted report to assigned and changes nothing else; the submitted count drops by one; a step that does not fire changes nothing |
| Lifecycle.AssignKeepsCanonical | src/App.tsx:180-187 | assigning writes "assigned", so canonical statuses stay canonical |
| Lifecycle.AppendKeepsCanonical | src/App.tsx:189-229 | a ledger append whose status, if any, is canonical (as a parsed status string is) keeps every status canonical |
| Lifecycle.TickKeepsCanonical | src/App.tsx:138-159 | the background step writes "assigned", so canonical statuses stay canonical |
| Lifecycle.UrgentByName | src/App.tsx:134 | on canonical statuses the urgency test is exactly the source's: some report's status string is "submitted" and its priority is high |
| App.Allocate | src/App.tsx:174-175 | a new object reads as the given report, gets a new `updates` array exactly when the report has entries, and leaves every existing object and array alone |
| App.AllocateAllReads | src/App.tsx:60-133 | the literal array of reports reads back as given, with no object and no `updates` array shared |
| App.AssignObject | src/App.tsx:181-185 | the callback returns the report itself or a new spread copy that reads as the assigned report and shares the original's `updates` array; no array changes |
| App.AssignAll | src/App.tsx:181-185 | each result object is the old one or a new one with the same `updates` array, and no array changes |
| App.AssignAllViews | src/App.tsx:180-187 | the new array reads as `Lifecycle.AfterAssign` of the old one |
| App.AssignAllApart | src/App.tsx:181-185 | assigning keeps the array free of shared objects and shared `updates` arrays |
| App.AppendObjectFacts | src/App.tsx:190-207 | the copy reads as the report with the entry appended and the status set; the only existing array that changes is the matching report's own, which gets the entry at its end |
| App.AppendAllArrays | src/App.tsx:195-202 | every existing array that a matching report points at gets the entry once at its end, and every other array is untouched |
| App.AppendAllViews | src/App.tsx:189-229 | the new array reads as `Lifecycle.AfterAppend` of the old one |
| App.AppendAllFresh | src/App.tsx:192-195 | each result object is the old one or a new one, pointing at the old `updates` array or at a new array |
| App.AppendAllApart | src/App.tsx:213-229 | appending keeps the array free of sharing |
| App.AssignInPlace | src/App.tsx:147-148 | the object itself changes in place (status and department) and no other object does |
| App.AssignInPlaceViews | src/App.tsx:141-148 | changing the k-th object changes the k-th report read from the array and no other |
| App.TickTarget | src/App.tsx:142-145 | the object the step picks is in the array and reads as submitted |
| App.TickHeapEffect | src/App.tsx:138-159 | the step follows `Lifecycle.AfterTick` and keeps the array free of sharing; every holder of the picked object sees the change, and no other object changes |
| App.SelfAliased | src/App.tsx:195-196 | the object a holder keeps sees an entry pushed for its own id exactly when it already had an `updates` array |
| App.AppendAllSeenBy | src/App.tsx:195-202 | an object that existed before reads the entry at its end when it shares an array with a matching report, and otherwise reads exactly as before |
| App.ReportStore.constructor | src/App.tsx:50-55 | nobody is logged in, the tab is "home", no report is open, the collection is empty, and the flag is off |
| App.ReportStore.Mount | src/App.tsx:57-135 | the collection reads as the initial reports (their statuses in canonical form, as every status string has one); the flag is set exactly when one of them is submitted with high priority |
| App.ReportStore.Login | src/App.tsx:161-165 | the user is stored; the tab is "dashboard" for an administrator and "home" for a citizen |
| App.ReportStore.Logout | src/App.tsx:167-172 | the user and the open report are cleared and the tab returns to "home" |
| App.ReportStore.ReportClick | src/App.tsx:234-236 | the detail screen holds that very object and shows what it reads |
| App.ReportStore.CloseDetail | src/App.tsx:268 | the detail screen is closed and nothing else changes |
| App.ReportStore.OpenTab | src/App.tsx:326 | the tab is set without closing the open report or touching the flag |
| App.ReportStore.TabChange | src/App.tsx:238-245 | the tab is set and the open report closed; the flag is cleared only when an administrator opens "reports" |
| App.ReportStore.SubmitReport | src/App.tsx:174-178 | the new report (its status in canonical form) goes in front, the tab becomes "my-reports", and the open report reads as before |
| App.ReportStore.AssignReport | src/App.tsx:180-187 | the collection follows `Lifecycle.AfterAssign`; copy-on-write, so the open report reads as before |
| App.ReportStore.UpdateStatus | src/App.tsx:189-210 | the collection follows `Lifecycle.AfterStatusUpdate`; the open report shows the new entry (but not the new status) exactly when it shares an `updates` array with a matching report |
| App.ReportStore.AddUpdate | src/App.tsx:212-232 | the collection follows `Lifecycle.AfterComment` with the author of the render the caller's handler came from, not necessarily the current user; the same sharing rule holds for the open report |
| App.ReportStore.Append | src/App.tsx:213-229 | the shared `prev.map` of the two ledger handlers follows `Lifecycle.AfterAppend` and keeps the store valid, statuses canonical included |
| App.ReportStore.Tick | src/App.tsx:138-159 | the step follows `Lifecycle.AfterTick` on the same array; the flag is raised when a report was picked; the open report changes exactly when it is the picked object |
| AdminDashboard.StatusCount | src/components/AdminDashboard.tsx:65-67 | a status count never exceeds the number of reports |
| AdminDashboard.PriorityCount | src/components/AdminDashboard.tsx:69-71 | a priority count never exceeds the number of reports |
| AdminDashboard.StatusCountCons | src/components/AdminDashboard.tsx:65-67 | one more report adds one to its own status count and nothing to the others |
| AdminDashboard.StatusCountsSum | src/components/AdminDashboard.tsx:228-240 | the four status tiles plus the reports with other statuses add up to the total; the other count is 0 exactly when every status is a lifecycle one |
| AdminDashboard.PriorityCountsSum | src/components/AdminDashboard.tsx:69-71 | the three priority counts add up to the total |
| AdminDashboard.StatusCountExact | src/components/AdminDashboard.tsx:65-67 | the count is the number of reports with that status, each counted as often as it occurs |
| AdminDashboard.ClosureRateRounds | src/components/AdminDashboard.tsx:73-77 | for a non-empty list the rate is the exact resolved percentage rounded to the nearest integer, halves up |
| AdminDashboard.ClosureRateBounds | src/components/AdminDashboard.tsx:73-77 | the rate is at most 100; it is 0 with nothing resolved (the empty list included) and 100 with everything resolved |
| AdminDashboard.RoundHalfUp | src/components/AdminDashboard.tsx:76 | `(200r + t) div 2t` is `100r/t` rounded half up |
| AdminDashboard.QuickAssign | src/components/AdminDashboard.tsx:84-88 | the report id is forwarded with one of the four departments |
| AdminDashboard.QuickAssignChoices | src/components/AdminDashboard.tsx:85-86 | the possible assignees are exactly the four departments |
| AdminDashboard.FilteredReportsAll | src/components/AdminDashboard.tsx:94-98 | with both selections on "all" the list is shown as it is |
| AdminDashboard.FilteredReportsExact | src/components/AdminDashboard.tsx:94-98 | exactly the reports matching the ward and the category are kept, each as often as it occurs |
| AdminDashboard.FilteredReportsOrder | src/components/AdminDashboard.tsx:94-98 | the kept reports stay in list order |
| MyReports.FilterReportsExact | src/components/MyReports.tsx:78-81 | the "all" tab is the whole list; a status tab holds exactly the reports with that status, each as often as it occurs |
| MyReports.FilterReportsOrder | src/components/MyReports.tsx:78-81 | tab contents keep list order |
| MyReports.TabCountsSum | src/components/MyReports.tsx:83-85 | the "all" badge counts every report; a status badge equals the dashboard's count for that status; the four status badges add up to the reports with a lifecycle status |
| MyReports.LatestUpdateAfterAppend | src/components/MyReports.tsx:149-154 | after a status update or a comment the matching card shows the new entry as its latest, and other cards are unchanged |
| MyReports.CardProgressAfterStatusUpdate | src/components/MyReports.tsx:39-47 | after a status update the card's bar reads as the switch on the raw string: 25, 50, 75, 100 for the four lifecycle names, 0 for any other string |
| MyReports.EmptyStateIffTabsEmpty | src/components/MyReports.tsx:226 | the empty-state panel shows exactly when every tab is empty |
| ReportSubmission.PriorityForCases | src/components/ReportSubmission.tsx:86 | emergency gives high, infrastructure gives medium, and every other category gives low |
| ReportSubmission.BuildReport | src/components/ReportSubmission.tsx:71-90 | a report is built exactly when category, title and location are present; it is submitted, carries user id "1", a ward from 1 to 10, the derived priority and the form's fields, and has no ledger, department or estimate |
| ReportSubmission.WardChoices | src/components/ReportSubmission.tsx:89 | the ten random draws give exactly the wards 1 to 10 |
| ReportSubmission.SubmissionVisibility | src/components/ReportSubmission.tsx:88 | a citizen whose id is not "1" does not see the report they submit; a citizen with id "1" sees it first |
| ReportSubmission.SubmitEnabledMatchesGuard | src/components/ReportSubmission.tsx:242 | the button is enabled exactly when nothing is being submitted and the handler's guard builds a report |
| ReportSubmission.SubmissionForm.constructor | src/components/ReportSubmission.tsx:17-25 | the fields start empty, the position is loading, and the button is disabled |
| ReportSubmission.SubmissionForm.LocationFound | src/components/ReportSubmission.tsx:30-36 | the device position is used and the status is success; nothing else changes |
| ReportSubmission.SubmissionForm.LocationFailed | src/components/ReportSubmission.tsx:37-42 | the default position is used and the status is error; nothing else changes |
| ReportSubmission.SubmissionForm.Edit | src/components/ReportSubmission.tsx:144-176 | the three text fields take the typed values; nothing else changes |
| ReportSubmission.SubmissionForm.SetPhoto | src/components/ReportSubmission.tsx:47-55 | the photo is set (or removed); nothing else changes |
| ReportSubmission.SubmissionForm.VoiceRecord | src/components/ReportSubmission.tsx:57-69 | stopping keeps the mock note; starting begins recording and arms one stop timer |
| ReportSubmission.SubmissionForm.RecordingTimerFired | src/components/ReportSubmission.tsx:64-67 | a stop timer ends recording and keeps the note, even after a manual stop or a restart |
| ReportSubmission.SubmissionForm.HandleSubmit | src/components/ReportSubmission.tsx:71-96 | when the guard passes, the report built from the current fields is queued and submitting is on; otherwise nothing changes |
| ReportSubmission.SubmissionForm.SubmitTimerFired | src/components/ReportSubmission.tsx:93-96 | the oldest queued report, submitted and with user id "1", is returned for the store's submit handler, and submitting ends; the fields are not cleared |
| ReportDetail.HighlightedUpToCurrent | src/components/ReportDetail.tsx:146-159 | the highlighted timeline stages are exactly those up to the current one; none for a status outside the lifecycle |
| ReportDetail.TrimStartFacts | src/components/ReportDetail.tsx:89 | trimming the start cuts only white space and leaves no leading white space |
| ReportDetail.TrimEndFacts | src/components/ReportDetail.tsx:89 | trimming the end cuts only white space and leaves no trailing white space |
| ReportDetail.TrimSlice | src/components/ReportDetail.tsx:89 | `trim()` is a slice of the original with only white space cut off either side, neither starting nor ending with white space |
| ReportDetail.BlankIffAllWhitespace | src/components/ReportDetail.tsx:89 | a comment is blank exactly when every character is white space |
| ReportDetail.CommentBox.constructor | src/components/ReportDetail.tsx:45-46 | the box starts empty and the send button is disabled |
| ReportDetail.CommentBox.Edit | src/components/ReportDetail.tsx:269 | the text takes the typed value; nothing else changes |
| ReportDetail.CommentBox.Submit | src/components/ReportDetail.tsx:87-91 | a blank comment is dropped; otherwise the report id, the untrimmed comment and the user of the handler the timer will call are queued and sending is on; nothing blank is ever queued |
| ReportDetail.CommentBox.SendTimerFired | src/components/ReportDetail.tsx:93-96 | the oldest queued comment, never blank and with the user captured with it, is returned for the store's comment handler; the box is cleared and sending ends |
| ReportDetail.AvatarInitial | src/components/ReportDetail.tsx:284 | the avatar shows at most one character |
| ReportDetail.AvatarOfStoreEntries | src/components/ReportDetail.tsx:284 | a status-change entry shows "S"; a comment shows its author's first letter ("A" when anonymous) |
| ReportDetail.RoutedToAfterAssign | src/components/ReportDetail.tsx:320 | a report with no department names "the appropriate department"; once assigned to a department it names that department |
| ReportDetail.SectionsByProgress | src/components/ReportDetail.tsx:224-238 | the ETA shows exactly at 75% progress; the contact card shows exactly for a citizen below 100% |
| MapView.MapFilterAll | src/components/MapView.tsx:33-45 | with both filters on "all" the list is shown as it is |
| MapView.MapFilterExact | src/components/MapView.tsx:36-42 | every shown report matches each filter that is not "all", and every matching report is shown as often as it occurs |
| MapView.MapFilterOrder | src/components/MapView.tsx:36-42 | the shown reports keep input order |
| MapView.CategoryStatusCommute | src/components/MapView.tsx:37-41 | filtering by category then status equals filtering by status then category |
| MapView.NoReportsIffNoMatch | src/components/MapView.tsx:206-211 | the "no reports" message shows exactly when no report matches both filters |
| MapView.MarkersPrefix | src/components/MapView.tsx:125 | the markers are the first min(8, n) shown reports in order |
| MapView.MarkerGrid | src/components/MapView.tsx:130-133 | the eight markers sit at left 20/40/60/80% and top 30/70%, the first four on the top row |
| MapView.MarkersApart | src/components/MapView.tsx:130-133 | different marker indices never share a position |
| MapView.MapScreen.constructor | src/components/MapView.tsx:28-31 | both filters are "all", every report is shown, and no marker is selected |
| MapView.MapScreen.Refresh | src/components/MapView.tsx:33-45 | the list narrowed filter by filter equals the single combined filter of the reports |
| MapView.MapScreen.SetCategoryFilter | src/components/MapView.tsx:85 | the category changes and the shown list is refiltered |
| MapView.MapScreen.SetStatusFilter | src/components/MapView.tsx:100 | the status changes and the shown list is refiltered |
| MapView.MapScreen.SelectMarker | src/components/MapView.tsx:134 | the clicked marker's report is selected, and it is one of the reports |
| Wiring.DeliverReport | src/components/ReportSubmission.tsx:93-96 | the queued report goes in front of the store's collection and the tab becomes "my-reports"; a citizen sees it at the top of their list exactly when their id is "1", otherwise their list is unchanged |
| Wiring.DeliverComment | src/components/ReportDetail.tsx:93-97 | the captured comment, never blank, is appended to every report with its id, authored by the user captured with it whoever is logged in when the timer fires; the comment box is cleared |

## Left out

- Screens with no model:
  - the login screen (`AuthScreen`) and the bottom navigation bar;
  - the backend client;
  - all rendering: class strings, colours, icons and toasts.
- The dashboard's performance widgets are left out: SLA targets, average
  resolution time, and the random progress bars and counts. They are
  constants or random display values that feed nothing.
- `AdminDashboard.handleStatusUpdate` is left out. It forwards its arguments
  unchanged to the store's `UpdateStatus`, which is modelled.
- AdminDashboard.ClosureRateRounds: states the exact rounding of `100r/t`,
  not the IEEE double computation `Math.round((r / t) * 100)`. At a few
  half-way points the two differ, for example 23 resolved of 40: the double
  product is 57.49999999999999, giving 57 where exact rounding gives 58.
- Coordinates are opaque real pairs. No distance or map projection is computed.
- Mount takes the mock reports as its argument. Their contents are demo data.
- Each timer delay and each random draw is an argument of the step that uses it.
  - The 30-second interval, the 3-second recording stop and the 2-second
    and 1-second submission delays are not modelled as time.
  - `Math.random()` becomes the `fire`, `pick`, `department`, `wardDraw`
    and quick-assign `pick` arguments.
- `Date.now()` ids and ISO timestamps are arguments.
- Geolocation is only partly modelled. A browser without
  `navigator.geolocation` leaves the form loading forever, with no location;
  that is the constructor state, and no step leaves it.
- ReportSubmission.SubmissionForm.SetPhoto: the `FileReader` is not
  modelled. Its load callback is the step, with the data URL as argument.
- Strings are sequences of Unicode scalar values, not UTF-16 code units. This
  matters for `charAt(0)` in the avatar initial, which yields half of a
  surrogate pair where the model yields the whole character.
- An absent `updates` property and an empty array read the same on every
  screen. In the heap, a report literal with no entries gets no array, as a
  submitted report does.
- `report.ward.toString() === selectedWard` is modelled as equality of the
  ward number with the selected number.
- React's rendering cycle is not modelled beyond the one handler a timer
  closure captures (the comment's author). This covers batching of state
  updates and the double invocation of updaters in strict mode.
