/** The report submission form: the report it builds, the rule that derives
    a priority from the category, and the form's own state (location lookup,
    voice recording, submission in flight). The device position, the random
    ward draw, the id and the timestamp are inputs; each timer callback is
    one step. */
module ReportSubmission {
  import opened Domain
  import Lifecycle

  datatype LocationStatus = Loading | Success | Failed

  /** The position used when the device position cannot be read. */
  const DefaultLocation: Coord := Coord(40.7128, -74.0060)

  /** What the mock recorder leaves as the voice note. */
  const RecordedNote: string := "Voice note recorded (mock)"

  /** The user id every submitted report carries. */
  const SubmitterId: string := "1"

  // ------------------------------------------------------------- the report

  function PriorityFor(category: string): Priority {
    if category == "emergency" then High
    else if category == "infrastructure" then Medium
    else Low
  }

  /** Emergencies are high priority, infrastructure medium, everything else
      (including categories the form does not offer) low. */
  lemma PriorityForCases(category: string)
    ensures PriorityFor(category) == High <==> category == "emergency"
    ensures PriorityFor(category) == Medium <==> category == "infrastructure"
    ensures PriorityFor(category) == Low <==> category != "emergency" && category != "infrastructure"
  {
  }

  /** The submit guard: a category, a title and a location are required. */
  predicate Complete(category: string, title: string, location: Option<Coord>) {
    category != "" && title != "" && location.Some?
  }

  /** The report `handleSubmit` builds, or nothing when the guard stops it.
      `wardDraw` is `Math.floor(Math.random() * 10)`. */
  function BuildReport(category: string, title: string, description: string, location: Option<Coord>,
                       photo: Option<string>, voiceNote: Option<string>, id: string, createdAt: string,
                       wardDraw: nat): (r: Option<Report>)
    requires wardDraw < 10
    ensures r.Some? <==> Complete(category, title, location)
    ensures r.Some? ==>
      && r.value.status == Submitted && r.value.userId == SubmitterId
      && 1 <= r.value.ward <= 10
      && r.value.priority == PriorityFor(category)
      && r.value.title == title && r.value.description == description && r.value.category == category
      && r.value.location == location.value && r.value.photo == photo && r.value.voiceNote == voiceNote
      && r.value.id == id && r.value.createdAt == createdAt
      && r.value.updates == [] && r.value.assignedTo.None? && r.value.estimatedCompletion.None?
  {
    if !Complete(category, title, location) then None
    else Some(Report(id, title, description, category, Submitted, PriorityFor(category), location.value,
                     createdAt, photo, voiceNote, wardDraw + 1, SubmitterId, None, None, []))
  }

  /** The ten draws give exactly the wards 1 to 10. */
  lemma WardChoices(category: string, title: string, description: string, location: Option<Coord>,
                    photo: Option<string>, voiceNote: Option<string>, id: string, createdAt: string)
    requires Complete(category, title, location)
    ensures var wards := set d | 0 <= d < 10 :: BuildReport(category, title, description, location, photo, voiceNote, id, createdAt, d).value.ward;
      forall w :: w in wards <==> 1 <= w <= 10
  {
    var draws := set d | 0 <= d < 10 :: BuildReport(category, title, description, location, photo, voiceNote, id, createdAt, d).value.ward;
    forall w | 1 <= w <= 10 ensures w in draws {
      assert BuildReport(category, title, description, location, photo, voiceNote, id, createdAt, w - 1).value.ward == w;
    }
  }

  /** Every new report carries the user id "1", so a citizen with any other
      id does not see what they submit: prepending it leaves their list as it
      was. A citizen with id "1" sees it first. */
  lemma SubmissionVisibility(u: User, rs: seq<Report>, r: Report)
    requires u.role == Citizen && r.userId == SubmitterId
    ensures u.id != SubmitterId ==> Lifecycle.Visible(Some(u), [r] + rs) == Lifecycle.Visible(Some(u), rs)
    ensures u.id == SubmitterId ==> Lifecycle.Visible(Some(u), [r] + rs) == [r] + Lifecycle.Visible(Some(u), rs)
  {
    assert ([r] + rs)[1..] == rs;
  }

  /** The submit button is disabled while submitting or when a required
      field is missing; enabled means the handler's guard lets the report
      through. */
  predicate SubmitDisabled(isSubmitting: bool, category: string, title: string, location: Option<Coord>) {
    isSubmitting || category == "" || title == "" || location.None?
  }

  lemma SubmitEnabledMatchesGuard(isSubmitting: bool, category: string, title: string, description: string,
                                  location: Option<Coord>, photo: Option<string>, voiceNote: Option<string>,
                                  id: string, createdAt: string, wardDraw: nat)
    requires wardDraw < 10
    ensures !SubmitDisabled(isSubmitting, category, title, location) <==>
      !isSubmitting && BuildReport(category, title, description, location, photo, voiceNote, id, createdAt, wardDraw).Some?
  {
  }

  // --------------------------------------------------------------- the form

  class SubmissionForm {
    var location: Option<Coord>
    var locationStatus: LocationStatus
    var category: string
    var title: string
    var description: string
    var photo: Option<string>
    var isRecording: bool
    var voiceNote: Option<string>
    var isSubmitting: bool
    /** Stop timers of the mock recorder that have not fired yet. */
    var recordingTimers: nat
    /** Reports built by `handleSubmit` whose submit timer has not fired yet,
        oldest first. */
    var pending: seq<Report>

    /** Every pending report passed the guard when it was built. */
    predicate Valid()
      reads this
    {
      forall i :: 0 <= i < |pending| ==> pending[i].status == Submitted && pending[i].userId == SubmitterId
    }

    /** The form as first rendered: empty fields, position being looked up. */
    constructor ()
      ensures Valid()
      ensures location.None? && locationStatus == Loading
      ensures category == "" && title == "" && description == "" && photo.None?
      ensures !isRecording && voiceNote.None? && !isSubmitting
      ensures recordingTimers == 0 && pending == []
      ensures SubmitDisabled(isSubmitting, category, title, location)
    {
      location, locationStatus := None, Loading;
      category, title, description, photo := "", "", "", None;
      isRecording, voiceNote, isSubmitting := false, None, false;
      recordingTimers, pending := 0, [];
    }

    /** The position callback: the device position is used. */
    method LocationFound(position: Coord)
      modifies this
      ensures location == Some(position) && locationStatus == Success
      ensures category == old(category) && title == old(title) && description == old(description) && photo == old(photo)
      ensures isRecording == old(isRecording) && voiceNote == old(voiceNote) && isSubmitting == old(isSubmitting)
      ensures recordingTimers == old(recordingTimers) && pending == old(pending)
    {
      location, locationStatus := Some(position), Success;
    }

    /** The error callback: the default position is used. */
    method LocationFailed()
      modifies this
      ensures location == Some(DefaultLocation) && locationStatus == Failed
      ensures category == old(category) && title == old(title) && description == old(description) && photo == old(photo)
      ensures isRecording == old(isRecording) && voiceNote == old(voiceNote) && isSubmitting == old(isSubmitting)
      ensures recordingTimers == old(recordingTimers) && pending == old(pending)
    {
      locationStatus := Failed;
      location := Some(DefaultLocation);
    }

    /** The category, title and description inputs. */
    method Edit(newCategory: string, newTitle: string, newDescription: string)
      modifies this
      ensures category == newCategory && title == newTitle && description == newDescription
      ensures location == old(location) && locationStatus == old(locationStatus) && photo == old(photo)
      ensures isRecording == old(isRecording) && voiceNote == old(voiceNote) && isSubmitting == old(isSubmitting)
      ensures recordingTimers == old(recordingTimers) && pending == old(pending)
    {
      category, title, description := newCategory, newTitle, newDescription;
    }

    /** The file reader's load callback (`data` is the data URL), and the
        "Remove Photo" button (`data` absent). */
    method SetPhoto(data: Option<string>)
      modifies this
      ensures photo == data
      ensures location == old(location) && locationStatus == old(locationStatus)
      ensures category == old(category) && title == old(title) && description == old(description)
      ensures isRecording == old(isRecording) && voiceNote == old(voiceNote) && isSubmitting == old(isSubmitting)
      ensures recordingTimers == old(recordingTimers) && pending == old(pending)
    {
      photo := data;
    }

    /** `handleVoiceRecord`: while recording, stop and keep the note; while
        idle, start recording and set a stop timer. */
    method VoiceRecord()
      modifies this
      ensures old(isRecording) ==> !isRecording && voiceNote == Some(RecordedNote) && recordingTimers == old(recordingTimers)
      ensures !old(isRecording) ==> isRecording && voiceNote == old(voiceNote) && recordingTimers == old(recordingTimers) + 1
      ensures location == old(location) && locationStatus == old(locationStatus) && photo == old(photo)
      ensures category == old(category) && title == old(title) && description == old(description)
      ensures isSubmitting == old(isSubmitting) && pending == old(pending)
    {
      if isRecording {
        isRecording := false;
        voiceNote := Some(RecordedNote);
      } else {
        isRecording := true;
        recordingTimers := recordingTimers + 1;
      }
    }

    /** A stop timer fires: recording stops and the note is kept, whether or
        not the user already stopped (or restarted) the recording. */
    method RecordingTimerFired()
      requires recordingTimers > 0
      modifies this
      ensures !isRecording && voiceNote == Some(RecordedNote) && recordingTimers == old(recordingTimers) - 1
      ensures location == old(location) && locationStatus == old(locationStatus) && photo == old(photo)
      ensures category == old(category) && title == old(title) && description == old(description)
      ensures isSubmitting == old(isSubmitting) && pending == old(pending)
    {
      isRecording := false;
      voiceNote := Some(RecordedNote);
      recordingTimers := recordingTimers - 1;
    }

    /** `handleSubmit`: when the guard passes, the report is built from the
        current fields and queued behind the submit timer. The handler itself
        does not look at `isSubmitting`; only the button does. */
    method HandleSubmit(id: string, createdAt: string, wardDraw: nat)
      requires Valid() && wardDraw < 10
      modifies this
      ensures Valid()
      ensures var built := BuildReport(old(category), old(title), old(description), old(location), old(photo), old(voiceNote), id, createdAt, wardDraw);
        && (built.Some? ==> isSubmitting && pending == old(pending) + [built.value])
        && (built.None? ==> isSubmitting == old(isSubmitting) && pending == old(pending))
      ensures location == old(location) && locationStatus == old(locationStatus) && photo == old(photo)
      ensures category == old(category) && title == old(title) && description == old(description)
      ensures isRecording == old(isRecording) && voiceNote == old(voiceNote) && recordingTimers == old(recordingTimers)
    {
      var built := BuildReport(category, title, description, location, photo, voiceNote, id, createdAt, wardDraw);
      if built.Some? {
        isSubmitting := true;
        pending := pending + [built.value];
      }
    }

    /** The submit timer fires: the oldest queued report is returned for the
        store's submit handler and the form leaves the submitting state. The fields
        are not cleared. */
    method SubmitTimerFired() returns (report: Report)
      requires Valid() && pending != []
      modifies this
      ensures Valid()
      ensures report == old(pending)[0] && pending == old(pending)[1..] && !isSubmitting
      ensures report.status == Submitted && report.userId == SubmitterId
      ensures location == old(location) && locationStatus == old(locationStatus) && photo == old(photo)
      ensures category == old(category) && title == old(title) && description == old(description)
      ensures isRecording == old(isRecording) && voiceNote == old(voiceNote) && recordingTimers == old(recordingTimers)
    {
      report := pending[0];
      pending := pending[1..];
      isSubmitting := false;
    }
  }
}
