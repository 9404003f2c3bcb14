/** The report record shared by every screen of the client, its vocabularies
    (status, priority, update kind, role) and the string conventions the
    screens rely on. */
module Domain {

  datatype Option<T> = None | Some(value: T)

  /** A filter selection: the "all" wildcard, or one specific value. */
  datatype Selection<T> = All | Only(value: T)

  predicate Selects<T(==)>(sel: Selection<T>, v: T) {
    sel.All? || sel.value == v
  }

  /** Report status. The declared vocabulary is the four lifecycle states, but
      the status-update handler writes whatever string it is handed, so any
      other string is kept as `Unknown`. */
  datatype Status = Submitted | Assigned | InProgress | Resolved | Unknown(name: string)

  datatype Priority = Low | Medium | High

  datatype UpdateKind = SystemNote | Comment | StatusChange

  datatype Role = Citizen | Admin

  datatype User = User(id: string, name: string, email: string, role: Role)

  /** A geographic position; the coordinates are opaque values here. */
  datatype Coord = Coord(lat: real, lng: real)

  /** One entry of a report's update ledger. */
  datatype Update = Update(id: string, message: string, timestamp: string, author: string, kind: UpdateKind)

  /** A report as every screen sees it. An absent `updates` array and an empty
      one are both the empty sequence. */
  datatype Report = Report(
    id: string,
    title: string,
    description: string,
    category: string,
    status: Status,
    priority: Priority,
    location: Coord,
    createdAt: string,
    photo: Option<string>,
    voiceNote: Option<string>,
    ward: int,
    userId: string,
    assignedTo: Option<string>,
    estimatedCompletion: Option<string>,
    updates: seq<Update>)

  const LifecycleNames: seq<string> := ["submitted", "assigned", "in-progress", "resolved"]

  /** A status value in canonical form: an `Unknown` never carries one of the
      four lifecycle names. */
  predicate CanonicalStatus(s: Status) {
    s.Unknown? ==> s.name !in LifecycleNames
  }

  function StatusName(s: Status): string {
    match s
    case Submitted => "submitted"
    case Assigned => "assigned"
    case InProgress => "in-progress"
    case Resolved => "resolved"
    case Unknown(name) => name
  }

  /** The status a raw status string denotes; every string is accepted. */
  function ParseStatus(name: string): (s: Status)
    ensures CanonicalStatus(s)
    ensures StatusName(s) == name
  {
    if name == "submitted" then Submitted
    else if name == "assigned" then Assigned
    else if name == "in-progress" then InProgress
    else if name == "resolved" then Resolved
    else Unknown(name)
  }

  /** Naming a canonical status and parsing the name gives the status back. */
  lemma ParseStatusName(s: Status)
    requires CanonicalStatus(s)
    ensures ParseStatus(StatusName(s)) == s
  {
    if s.Unknown? {
      assert s.name != LifecycleNames[0] && s.name != LifecycleNames[1];
      assert s.name != LifecycleNames[2] && s.name != LifecycleNames[3];
    }
  }

  /** Two canonical statuses are the same exactly when their strings are:
      the model tells statuses apart just as the string comparisons do. */
  lemma CanonicalSameName(s: Status, t: Status)
    requires CanonicalStatus(s) && CanonicalStatus(t)
    ensures StatusName(s) == StatusName(t) <==> s == t
  {
    ParseStatusName(s);
    ParseStatusName(t);
  }

  /** Every report of a collection carries its status in canonical form. */
  predicate AllCanonical(rs: seq<Report>) {
    forall i :: 0 <= i < |rs| ==> CanonicalStatus(rs[i].status)
  }

  /** A canonical report in front of a canonical collection. */
  lemma AllCanonicalCons(r: Report, rs: seq<Report>)
    requires CanonicalStatus(r.status) && AllCanonical(rs)
    ensures AllCanonical([r] + rs)
  {
  }

  /** Position in the lifecycle: 1 to 4 for the four states, 0 otherwise. */
  function Stage(s: Status): nat {
    match s
    case Submitted => 1
    case Assigned => 2
    case InProgress => 3
    case Resolved => 4
    case Unknown(_) => 0
  }

  /** The progress percentage shown for a status: 25, 50, 75, 100 along the
      lifecycle and 0 for any other status string. */
  function StatusProgress(s: Status): (p: nat)
    ensures p <= 100
  {
    match s
    case Submitted => 25
    case Assigned => 50
    case InProgress => 75
    case Resolved => 100
    case Unknown(_) => 0
  }

  /** Progress is a quarter per lifecycle stage, so it strictly increases
      along the lifecycle. */
  lemma ProgressByStage(a: Status, b: Status)
    ensures StatusProgress(a) == 25 * Stage(a)
    ensures Stage(a) < Stage(b) <==> StatusProgress(a) < StatusProgress(b)
  {
  }

  /** `s.replace(from, to)` with a one-character pattern: only the first
      occurrence is replaced. */
  function ReplaceFirst(s: string, from: char, to: char): (r: string)
    ensures |r| == |s|
    ensures from !in s ==> r == s
  {
    if s == [] then []
    else if s[0] == from then [to] + s[1..]
    else [s[0]] + ReplaceFirst(s[1..], from, to)
  }

  /** Position by position: a character is replaced exactly when it is the
      first occurrence of `from`. */
  lemma {:induction false} ReplaceFirstAt(s: string, from: char, to: char)
    ensures var r := ReplaceFirst(s, from, to);
      forall i :: 0 <= i < |s| ==> r[i] == (if s[i] == from && from !in s[..i] then to else s[i])
  {
    if s != [] {
      if s[0] == from {
        ReplaceFirstAtHit(s, from, to);
      } else {
        ReplaceFirstAt(s[1..], from, to);
        ReplaceFirstAtMiss(s[0], s[1..], from, to);
        assert [s[0]] + s[1..] == s;
      }
    }
  }

  /** The first character is `from`: it alone is replaced. */
  lemma ReplaceFirstAtHit(s: string, from: char, to: char)
    requires s != [] && s[0] == from
    ensures var r := ReplaceFirst(s, from, to);
      forall i :: 0 <= i < |s| ==> r[i] == (if s[i] == from && from !in s[..i] then to else s[i])
  {
    var r := ReplaceFirst(s, from, to);
    assert s[..0] == [];
    forall i | 1 <= i < |s| ensures from in s[..i] && r[i] == s[i] {
      assert s[..i][0] == from;
    }
  }

  /** The first character `c` is not `from`: it is kept and the rest `t` is
      replaced as it is on its own. */
  lemma ReplaceFirstAtMiss(c: char, t: string, from: char, to: char)
    requires c != from
    requires var rest := ReplaceFirst(t, from, to);
      forall i :: 0 <= i < |t| ==> rest[i] == (if t[i] == from && from !in t[..i] then to else t[i])
    ensures var s := [c] + t; var r := ReplaceFirst(s, from, to);
      forall i :: 0 <= i < |s| ==> r[i] == (if s[i] == from && from !in s[..i] then to else s[i])
  {
    var s := [c] + t;
    var r := ReplaceFirst(s, from, to);
    var rest := ReplaceFirst(t, from, to);
    assert s[1..] == t;
    assert r == [c] + rest;
    forall i | 1 <= i < |s|
      ensures r[i] == (if s[i] == from && from !in s[..i] then to else s[i])
    {
      assert r[i] == rest[i - 1] && s[i] == t[i - 1];
      assert s[..i] == [c] + t[..i - 1];
    }
  }

  /** Replacing in `a + [from] + b`, where `a` holds no `from`, rewrites
      exactly that one character. */
  lemma {:induction false} ReplaceFirstSplit(a: string, b: string, from: char, to: char)
    requires from !in a
    ensures ReplaceFirst(a + [from] + b, from, to) == a + [to] + b
    decreases |a|
  {
    var s := a + [from] + b;
    if a == [] {
      assert s == [from] + b;
    } else {
      assert s[0] == a[0] && s[1..] == a[1..] + [from] + b;
      ReplaceFirstSplit(a[1..], b, from, to);
      assert a + [to] + b == [a[0]] + (a[1..] + [to] + b);
    }
  }

  function StatusIs(s: Status): Report -> bool {
    (r: Report) => r.status == s
  }

  function PriorityIs(p: Priority): Report -> bool {
    (r: Report) => r.priority == p
  }
}
