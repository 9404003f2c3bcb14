/** The detail screen of one report: the progress bar and status timeline,
    the comment box with its blank-comment guard, the avatar initials of the
    ledger and the sections shown only in some states. */
module ReportDetail {
  import opened Domain
  import Lifecycle

  // ---------------------------------------------------------------- timeline

  /** Timeline stage `k` (1 Submitted, 2 Assigned, 3 In Progress, 4 Resolved)
      is highlighted when the progress reaches `25 * k`. */
  predicate StageHighlighted(status: Status, k: nat) {
    StatusProgress(status) >= 25 * k
  }

  /** The highlighted stages are exactly the lifecycle stages up to and
      including the current one; a status outside the lifecycle highlights
      none. */
  lemma HighlightedUpToCurrent(status: Status, k: nat)
    requires 1 <= k <= 4
    ensures StageHighlighted(status, k) <==> k <= Stage(status)
  {
    ProgressByStage(status, status);
  }

  // ------------------------------------------------------------- whitespace

  /** The characters `String.prototype.trim` removes: white space and line
      terminators. */
  predicate IsWhitespace(c: char) {
    || c == '\t' || c == '\n' || c == '\U{000B}' || c == '\U{000C}' || c == '\r' || c == ' '
    || c == '\U{00A0}' || c == '\U{1680}' || ('\U{2000}' <= c <= '\U{200A}')
    || c == '\U{2028}' || c == '\U{2029}' || c == '\U{202F}' || c == '\U{205F}'
    || c == '\U{3000}' || c == '\U{FEFF}'
  }

  /** Leading white space removed. */
  function TrimStart(s: string): (r: string)
    ensures |r| <= |s|
  {
    if s != [] && IsWhitespace(s[0]) then TrimStart(s[1..]) else s
  }

  /** What `TrimStart` cuts is a prefix of white space, and what it keeps
      does not start with white space. */
  lemma {:induction false} TrimStartFacts(s: string)
    ensures TrimStart(s) == s[|s| - |TrimStart(s)|..]
    ensures forall i :: 0 <= i < |s| - |TrimStart(s)| ==> IsWhitespace(s[i])
    ensures TrimStart(s) != [] ==> !IsWhitespace(TrimStart(s)[0])
  {
    if s != [] && IsWhitespace(s[0]) {
      TrimStartFacts(s[1..]);
      forall i | 1 <= i < |s| - |TrimStart(s)| ensures IsWhitespace(s[i]) {
        assert s[i] == s[1..][i - 1];
      }
    }
  }

  /** Trailing white space removed. */
  function TrimEnd(s: string): (r: string)
    ensures |r| <= |s|
  {
    if s != [] && IsWhitespace(s[|s| - 1]) then TrimEnd(s[..|s| - 1]) else s
  }

  /** What `TrimEnd` cuts is a suffix of white space, and what it keeps does
      not end with white space. */
  lemma {:induction false} TrimEndFacts(s: string)
    ensures TrimEnd(s) == s[..|TrimEnd(s)|]
    ensures forall i :: |TrimEnd(s)| <= i < |s| ==> IsWhitespace(s[i])
    ensures TrimEnd(s) != [] ==> !IsWhitespace(TrimEnd(s)[|TrimEnd(s)| - 1])
  {
    if s != [] && IsWhitespace(s[|s| - 1]) {
      var t := s[..|s| - 1];
      TrimEndFacts(t);
      forall i | |TrimEnd(s)| <= i < |s| - 1 ensures IsWhitespace(s[i]) {
        assert s[i] == t[i];
      }
      assert TrimEnd(s) == t[..|TrimEnd(s)|] == s[..|TrimEnd(s)|];
    }
  }

  /** `s.trim()`. */
  function Trim(s: string): string {
    TrimEnd(TrimStart(s))
  }

  /** The trimmed text is a slice of the original with only white space cut
      off either side, and it neither starts nor ends with white space. */
  lemma TrimSlice(s: string)
    ensures exists i, j :: (0 <= i <= j <= |s| && Trim(s) == s[i..j]
      && (forall k :: 0 <= k < i ==> IsWhitespace(s[k]))
      && (forall k :: j <= k < |s| ==> IsWhitespace(s[k])))
    ensures Trim(s) != [] ==> !IsWhitespace(Trim(s)[0]) && !IsWhitespace(Trim(s)[|Trim(s)| - 1])
  {
    var a := TrimStart(s);
    var t := Trim(s);
    TrimStartFacts(s);
    TrimEndFacts(a);
    var i := |s| - |a|;
    var j := i + |t|;
    assert t == s[i..j] by {
      assert a == s[i..];
      assert t == a[..|t|];
    }
    forall k | j <= k < |s| ensures IsWhitespace(s[k]) {
      assert s[k] == a[k - i];
    }
    if t != [] {
      assert t[0] == a[0];
    }
  }

  /** A comment is blank when trimming leaves nothing: exactly when every
      character is white space. */
  predicate IsBlank(s: string) {
    Trim(s) == ""
  }

  lemma BlankIffAllWhitespace(s: string)
    ensures IsBlank(s) <==> forall i :: 0 <= i < |s| ==> IsWhitespace(s[i])
  {
    TrimSlice(s);
  }

  // ------------------------------------------------------------ comment box

  /** The send button is disabled while sending or while the comment is
      blank. */
  predicate SendDisabled(isSubmitting: bool, comment: string) {
    isSubmitting || IsBlank(comment)
  }

  /** A comment captured by `handleAddComment`, waiting for its timer: the
      report id, the comment as typed, and the user of the store render whose
      `onAddUpdate` the timer closure holds (the author of the entry). */
  datatype Outgoing = Outgoing(reportId: string, message: string, author: Option<User>)

  class CommentBox {
    var comment: string
    var isSubmitting: bool
    /** Comments whose send timer has not fired yet, oldest first. */
    var pending: seq<Outgoing>

    /** Nothing blank is ever waiting to be sent. */
    predicate Valid()
      reads this
    {
      forall i :: 0 <= i < |pending| ==> !IsBlank(pending[i].message)
    }

    constructor ()
      ensures Valid() && comment == "" && !isSubmitting && pending == []
      ensures SendDisabled(isSubmitting, comment)
    {
      comment, isSubmitting, pending := "", false, [];
    }

    /** The text area's change handler. */
    method Edit(text: string)
      modifies this
      ensures comment == text && isSubmitting == old(isSubmitting) && pending == old(pending)
    {
      comment := text;
    }

    /** `handleAddComment`: a blank comment is dropped; otherwise the report
        id and the comment as typed (not trimmed) are captured for the send
        timer, together with `author`, the user the current `onAddUpdate`
        belongs to. The handler does not look at `isSubmitting`; only the
        button does. */
    method Submit(reportId: string, author: Option<User>)
      requires Valid()
      modifies this
      ensures Valid() && comment == old(comment)
      ensures IsBlank(old(comment)) ==> isSubmitting == old(isSubmitting) && pending == old(pending)
      ensures !IsBlank(old(comment)) ==> isSubmitting && pending == old(pending) + [Outgoing(reportId, old(comment), author)]
    {
      if !IsBlank(comment) {
        isSubmitting := true;
        pending := pending + [Outgoing(reportId, comment, author)];
      }
    }

    /** The send timer fires: the oldest captured comment is returned for
        the store's comment handler, then the text area is cleared (whatever
        was typed meanwhile) and sending ends. */
    method SendTimerFired() returns (sent: Outgoing)
      requires Valid() && pending != []
      modifies this
      ensures Valid()
      ensures sent == old(pending)[0] && pending == old(pending)[1..]
      ensures !IsBlank(sent.message)
      ensures comment == "" && !isSubmitting
    {
      sent := pending[0];
      pending := pending[1..];
      comment := "";
      isSubmitting := false;
    }
  }

  // --------------------------------------------------------------- ledger

  /** The avatar initial of a ledger entry: "S" for system entries, else the
      first character of the author (nothing for an empty author). */
  function AvatarInitial(u: Update): (a: string)
    ensures |a| <= 1
  {
    if u.kind == SystemNote then "S"
    else if u.author == "" then ""
    else u.author[..1]
  }

  /** The entries the store writes: a status change shows "S" (its author is
      "System"), a comment shows the first letter of its author, "A" for an
      anonymous one. */
  lemma AvatarOfStoreEntries(entryId: string, timestamp: string, status: string, message: string, user: Option<User>)
    ensures AvatarInitial(Lifecycle.StatusEntry(entryId, timestamp, status)) == "S"
    ensures var author := Lifecycle.CommentAuthor(user);
      AvatarInitial(Lifecycle.CommentEntry(entryId, timestamp, message, user)) == [author[0]]
    ensures user.None? ==> AvatarInitial(Lifecycle.CommentEntry(entryId, timestamp, message, user)) == "A"
  {
    assert "System"[..1] == "S";
    var author := Lifecycle.CommentAuthor(user);
    assert author != "";
    assert author[..1] == [author[0]];
  }

  /** Whom the creation entry names as routed to. */
  function RoutedTo(r: Report): string {
    if r.assignedTo.Some? && r.assignedTo.value != "" then r.assignedTo.value else "the appropriate department"
  }

  /** A new report names no one; once assigned to a department it names that
      department; an empty assignee falls back to the generic wording. */
  lemma RoutedToAfterAssign(r: Report, assignee: string)
    ensures r.assignedTo.None? ==> RoutedTo(r) == "the appropriate department"
    ensures assignee != "" ==> RoutedTo(Lifecycle.AssignOne(r, r.id, assignee)) == assignee
    ensures RoutedTo(Lifecycle.AssignOne(r, r.id, "")) == "the appropriate department"
    ensures RoutedTo(r) != ""
  {
  }

  // ------------------------------------------------------ optional sections

  /** The arrival estimate is shown for reports in progress. */
  predicate ShowEta(r: Report) {
    r.status == InProgress
  }

  /** The contact card is shown to citizens for reports not yet resolved. */
  predicate ShowContact(role: Role, r: Report) {
    role == Citizen && r.status != Resolved
  }

  /** In terms of the progress bar: the estimate shows at 75%, the contact
      card for a citizen below 100%. */
  lemma SectionsByProgress(role: Role, r: Report)
    ensures ShowEta(r) <==> StatusProgress(r.status) == 75
    ensures ShowContact(role, r) <==> role == Citizen && StatusProgress(r.status) < 100
  {
    ProgressByStage(r.status, r.status);
  }
}
