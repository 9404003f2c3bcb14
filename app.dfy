/** The report store held by the top-level component of src/App.tsx, with the
    objects as JavaScript shares them. A report is an object, and so is each
    `updates` array; the model gives both an identity, as keys of the two maps
    of a `Heap`. A spread copy `{...report}` is a new object whose `updates`
    key is the SAME as the original's; `push` grows the array under that key
    in place; the background step rewrites the fields of an object under its
    existing key. Every holder of a key therefore sees those changes: the
    previous array, and the report held open by the detail screen. What the
    screens read of the current array (`Views`) follows the functions of
    module Lifecycle. */
module App {
  import opened Domain
  import Lifecycle

  /** Identity of a report object or of an `updates` array. */
  type Ref = nat

  /** A report object: its fields, and the `updates` array it points at
      (`None` while the property is absent). The `updates` component of
      `fields` is not read: the entries live in the array. */
  datatype Obj = Obj(fields: Report, ledger: Option<Ref>)

  /** The objects reachable from the component, each kind numbered in order
      of creation: object `o` is `objects[o]`, array `a` is `arrays[a]`. */
  datatype Heap = Heap(objects: seq<Obj>, arrays: seq<seq<Update>>)

  /** One object produced in a heap, and an array of objects produced in a heap. */
  datatype Made = Made(heap: Heap, ref: Ref)
  datatype MadeAll = MadeAll(heap: Heap, refs: seq<Ref>)

  /** Every `updates` reference leads to an array. */
  predicate Wf(h: Heap) {
    forall o :: 0 <= o < |h.objects| && h.objects[o].ledger.Some? ==> h.objects[o].ledger.value < |h.arrays|
  }

  predicate Tracked(h: Heap, refs: seq<Ref>) {
    forall i :: 0 <= i < |refs| ==> refs[i] < |h.objects|
  }

  /** Object `o` does not occur in `rest`, and no object of `rest` shares
      its `updates` array. */
  predicate Clear(h: Heap, o: Ref, rest: seq<Ref>)
    requires o < |h.objects| && Tracked(h, rest)
  {
    forall k :: 0 <= k < |rest| ==>
      rest[k] != o && (h.objects[o].ledger.Some? ==> h.objects[rest[k]].ledger != h.objects[o].ledger)
  }

  /** No object occurs twice in the array, and no two of its objects share an
      `updates` array. */
  predicate Apart(h: Heap, refs: seq<Ref>)
    requires Tracked(h, refs)
    decreases |refs|
  {
    refs == [] || (Clear(h, refs[0], refs[1..]) && Apart(h, refs[1..]))
  }

  /** `h'` grew from `h`: every object of `h` is still there with the same
      fields and the same `updates` reference, and every array still exists. */
  predicate Extends(h: Heap, h': Heap) {
    h.objects <= h'.objects && |h.arrays| <= |h'.arrays|
  }

  function Entries(h: Heap, ledger: Option<Ref>): seq<Update> {
    if ledger.Some? && ledger.value < |h.arrays| then h.arrays[ledger.value] else []
  }

  /** The report as a screen reads it through object `o`; a missing `updates`
      array reads as no entries. */
  function ViewOf(h: Heap, o: Ref): Report
    requires o < |h.objects|
  {
    h.objects[o].fields.(updates := Entries(h, h.objects[o].ledger))
  }

  /** What the screens read of an array of report objects. */
  function Views(h: Heap, refs: seq<Ref>): (rs: seq<Report>)
    requires Tracked(h, refs)
    ensures |rs| == |refs|
    ensures forall i :: 0 <= i < |refs| ==> rs[i] == ViewOf(h, refs[i])
  {
    if refs == [] then [] else [ViewOf(h, refs[0])] + Views(h, refs[1..])
  }

  /** An object whose fields and `updates` array are untouched reads the same. */
  lemma ViewKept(h: Heap, h': Heap, o: Ref)
    requires Wf(h) && o < |h.objects| && Extends(h, h')
    requires h.objects[o].ledger.Some? ==>
      h'.arrays[h.objects[o].ledger.value] == h.arrays[h.objects[o].ledger.value]
    ensures ViewOf(h', o) == ViewOf(h, o)
  {
  }

  /** Reading an array with one object in front reads that object first. */
  lemma ViewsCons(h: Heap, o: Ref, refs: seq<Ref>)
    requires o < |h.objects| && Tracked(h, refs)
    ensures Tracked(h, [o] + refs) && Views(h, [o] + refs) == [ViewOf(h, o)] + Views(h, refs)
  {
    assert ([o] + refs)[1..] == refs;
  }

  /** The same for a whole array of objects. */
  lemma ViewsKept(h: Heap, h': Heap, refs: seq<Ref>)
    requires Wf(h) && Tracked(h, refs) && Extends(h, h')
    requires forall k :: 0 <= k < |refs| && h.objects[refs[k]].ledger.Some? ==>
      h'.arrays[h.objects[refs[k]].ledger.value] == h.arrays[h.objects[refs[k]].ledger.value]
    ensures Tracked(h', refs) && Views(h', refs) == Views(h, refs)
  {
    forall k | 0 <= k < |refs| ensures Views(h', refs)[k] == Views(h, refs)[k] {
      ViewKept(h, h', refs[k]);
    }
  }

  /** Any two positions of an array free of sharing hold different objects
      with different `updates` arrays. */
  lemma {:induction false} ApartPairs(h: Heap, refs: seq<Ref>, i: nat, j: nat)
    requires Tracked(h, refs) && Apart(h, refs) && i < j < |refs|
    ensures refs[i] != refs[j]
    ensures h.objects[refs[i]].ledger.Some? ==> h.objects[refs[i]].ledger != h.objects[refs[j]].ledger
    decreases i
  {
    assert refs[j] == refs[1..][j - 1];
    if i > 0 {
      assert refs[i] == refs[1..][i - 1];
      ApartPairs(h, refs[1..], i - 1, j - 1);
    }
  }

  /** Growing the heap keeps an array free of sharing. */
  lemma {:induction false} ApartKept(h: Heap, h': Heap, refs: seq<Ref>)
    requires Tracked(h, refs) && Apart(h, refs) && Extends(h, h')
    ensures Tracked(h', refs) && Apart(h', refs)
    decreases |refs|
  {
    if refs != [] {
      ApartKept(h, h', refs[1..]);
    }
  }

  /** Some object of `refs` carries `reportId` and points at array `a`: the
      updates handlers push onto `a`. */
  predicate PushedOnto(h: Heap, refs: seq<Ref>, reportId: string, a: Ref)
    requires Tracked(h, refs)
  {
    exists j :: 0 <= j < |refs| && h.objects[refs[j]].fields.id == reportId && h.objects[refs[j]].ledger == Some(a)
  }

  /** Object `o` shares its `updates` array with an object of `refs` that
      carries `reportId`. */
  predicate Aliased(h: Heap, refs: seq<Ref>, reportId: string, o: Ref)
    requires Tracked(h, refs) && o < |h.objects|
  {
    h.objects[o].ledger.Some? && PushedOnto(h, refs, reportId, h.objects[o].ledger.value)
  }

  /** The first object of an array free of sharing does not share its
      `updates` array with any later one. */
  lemma NotPushedByRest(h: Heap, refs: seq<Ref>, reportId: string)
    requires Tracked(h, refs) && Apart(h, refs) && refs != [] && h.objects[refs[0]].ledger.Some?
    ensures !PushedOnto(h, refs[1..], reportId, h.objects[refs[0]].ledger.value)
  {
    assert Clear(h, refs[0], refs[1..]);
  }

  lemma PushedOntoCons(h: Heap, refs: seq<Ref>, reportId: string, a: Ref)
    requires Tracked(h, refs) && refs != []
    ensures PushedOnto(h, refs, reportId, a) <==>
      (h.objects[refs[0]].fields.id == reportId && h.objects[refs[0]].ledger == Some(a)) || PushedOnto(h, refs[1..], reportId, a)
  {
    if PushedOnto(h, refs, reportId, a) {
      var j :| 0 <= j < |refs| && h.objects[refs[j]].fields.id == reportId && h.objects[refs[j]].ledger == Some(a);
      if j > 0 {
        assert refs[1..][j - 1] == refs[j];
      }
    }
    if PushedOnto(h, refs[1..], reportId, a) {
      var j :| 0 <= j < |refs[1..]| && h.objects[refs[1..][j]].fields.id == reportId && h.objects[refs[1..][j]].ledger == Some(a);
      assert refs[j + 1] == refs[1..][j];
    }
  }

  /** Two heaps that hold the same objects agree on what is pushed. */
  lemma PushedOntoSameObjects(h: Heap, h': Heap, refs: seq<Ref>, reportId: string, a: Ref)
    requires Tracked(h, refs) && Extends(h, h')
    ensures Tracked(h', refs)
    ensures PushedOnto(h', refs, reportId, a) == PushedOnto(h, refs, reportId, a)
  {
    if PushedOnto(h', refs, reportId, a) {
      var j :| 0 <= j < |refs| && h'.objects[refs[j]].fields.id == reportId && h'.objects[refs[j]].ledger == Some(a);
      assert h.objects[refs[j]] == h'.objects[refs[j]];
    }
  }

  // ------------------------------------------------------------- allocation

  /** A new object holding `r`, with a new `updates` array exactly when `r`
      has entries (a freshly submitted report has none and gets no array). */
  function Allocate(h: Heap, r: Report): (m: Made)
    requires Wf(h)
    ensures Wf(m.heap) && Extends(h, m.heap) && h.arrays <= m.heap.arrays
    ensures |h.objects| <= m.ref < |m.heap.objects| && ViewOf(m.heap, m.ref) == r
    ensures m.heap.objects[m.ref].ledger.Some? <==> r.updates != []
    ensures m.heap.objects[m.ref].ledger.Some? ==> |h.arrays| <= m.heap.objects[m.ref].ledger.value
  {
    if r.updates == [] then
      Made(Heap(h.objects + [Obj(r, None)], h.arrays), |h.objects|)
    else
      Made(Heap(h.objects + [Obj(r.(updates := []), Some(|h.arrays|))], h.arrays + [r.updates]), |h.objects|)
  }

  /** The objects of a literal array of reports, allocated left to right. */
  /** A new object put in front of an array that shares nothing: the array
      still shares nothing, reads the new report first and the old reports
      after it, and every old object reads as before. */
  lemma AllocateFront(h: Heap, refs: seq<Ref>, r: Report)
    requires Wf(h) && Tracked(h, refs) && Apart(h, refs)
    ensures var m := Allocate(h, r);
      && Tracked(m.heap, [m.ref] + refs) && Apart(m.heap, [m.ref] + refs)
      && Views(m.heap, [m.ref] + refs) == [r] + Views(h, refs)
      && forall o :: 0 <= o < |h.objects| ==> ViewOf(m.heap, o) == ViewOf(h, o)
  {
    var m := Allocate(h, r);
    ViewsKept(h, m.heap, refs);
    ApartKept(h, m.heap, refs);
    ViewsCons(m.heap, m.ref, refs);
    forall o | 0 <= o < |h.objects| ensures ViewOf(m.heap, o) == ViewOf(h, o) {
      ViewKept(h, m.heap, o);
    }
  }

  function AllocateAll(h: Heap, rs: seq<Report>): (m: MadeAll)
    requires Wf(h)
    ensures Wf(m.heap) && Extends(h, m.heap) && h.arrays <= m.heap.arrays
    ensures Tracked(m.heap, m.refs) && |m.refs| == |rs|
    ensures forall j :: 0 <= j < |rs| ==>
      && |h.objects| <= m.refs[j]
      && (m.heap.objects[m.refs[j]].ledger.Some? ==> |h.arrays| <= m.heap.objects[m.refs[j]].ledger.value)
    decreases rs
  {
    if rs == [] then MadeAll(h, [])
    else
      var first := Allocate(h, rs[0]);
      var rest := AllocateAll(first.heap, rs[1..]);
      MadeAll(rest.heap, [first.ref] + rest.refs)
  }

  /** The allocated array reads back as the reports it was made from, with
      no two objects and no two `updates` arrays shared. */
  lemma {:induction false} AllocateAllReads(h: Heap, rs: seq<Report>)
    requires Wf(h)
    ensures var m := AllocateAll(h, rs); Views(m.heap, m.refs) == rs && Apart(m.heap, m.refs)
    decreases rs
  {
    if rs != [] {
      var first := Allocate(h, rs[0]);
      var rest := AllocateAll(first.heap, rs[1..]);
      var m := AllocateAll(h, rs);
      AllocateAllReads(first.heap, rs[1..]);
      assert m.refs[1..] == rest.refs;
      assert ViewOf(m.heap, first.ref) == rs[0] by {
        ViewKept(first.heap, rest.heap, first.ref);
      }
      assert Views(m.heap, m.refs) == [rs[0]] + rs[1..];
      assert Clear(m.heap, first.ref, rest.refs);
    }
  }

  // ----------------------------------------------------------------- assign

  /** The callback of the map in `handleAssignReport`: a matching report
      becomes a spread copy with the new status and department, sharing the
      original's `updates` array; any other report is returned as it is. */
  function AssignObject(h: Heap, o: Ref, reportId: string, assignee: string): (m: Made)
    requires Wf(h) && o < |h.objects|
    ensures Wf(m.heap) && Extends(h, m.heap) && m.heap.arrays == h.arrays && m.ref < |m.heap.objects|
    ensures ViewOf(m.heap, m.ref) == Lifecycle.AssignOne(ViewOf(h, o), reportId, assignee)
    ensures m.heap.objects[m.ref].ledger == h.objects[o].ledger
    ensures m.ref == o || |h.objects| <= m.ref
  {
    var obj := h.objects[o];
    if obj.fields.id == reportId then
      var copy := Obj(obj.fields.(status := Assigned, assignedTo := Some(assignee)), obj.ledger);
      Made(Heap(h.objects + [copy], h.arrays), |h.objects|)
    else Made(h, o)
  }

  /** `prev.map(...)` of `handleAssignReport`. */
  function AssignAll(h: Heap, prev: seq<Ref>, reportId: string, assignee: string): (m: MadeAll)
    requires Wf(h) && Tracked(h, prev)
    ensures Wf(m.heap) && Extends(h, m.heap) && m.heap.arrays == h.arrays
    ensures Tracked(m.heap, m.refs) && |m.refs| == |prev|
    ensures forall j :: 0 <= j < |prev| ==>
      && (m.refs[j] == prev[j] || |h.objects| <= m.refs[j])
      && m.heap.objects[m.refs[j]].ledger == h.objects[prev[j]].ledger
    decreases prev
  {
    if prev == [] then MadeAll(h, [])
    else
      var first := AssignObject(h, prev[0], reportId, assignee);
      var rest := AssignAll(first.heap, prev[1..], reportId, assignee);
      MadeAll(rest.heap, [first.ref] + rest.refs)
  }

  /** Assigning follows `Lifecycle.AfterAssign`; being copy-on-write, it
      changes no object and no array that existed before (see `AssignAll`),
      so an earlier holder sees nothing. */
  lemma {:induction false} AssignAllViews(h: Heap, prev: seq<Ref>, reportId: string, assignee: string)
    requires Wf(h) && Tracked(h, prev)
    ensures var m := AssignAll(h, prev, reportId, assignee);
      Views(m.heap, m.refs) == Lifecycle.AfterAssign(Views(h, prev), reportId, assignee)
    decreases prev
  {
    if prev != [] {
      var first := AssignObject(h, prev[0], reportId, assignee);
      var rest := AssignAll(first.heap, prev[1..], reportId, assignee);
      var m := AssignAll(h, prev, reportId, assignee);
      var head := Lifecycle.AssignOne(ViewOf(h, prev[0]), reportId, assignee);
      var tail := Lifecycle.AfterAssign(Views(h, prev[1..]), reportId, assignee);
      assert Views(rest.heap, rest.refs) == tail by {
        AssignAllViews(first.heap, prev[1..], reportId, assignee);
        ViewsKept(h, first.heap, prev[1..]);
      }
      assert ViewOf(rest.heap, first.ref) == head by {
        ViewKept(first.heap, rest.heap, first.ref);
      }
      assert m.refs == [first.ref] + rest.refs && m.heap == rest.heap;
      assert Views(m.heap, m.refs) == [head] + tail by {
        assert m.refs[1..] == rest.refs;
      }
      assert Lifecycle.AfterAssign(Views(h, prev), reportId, assignee) == [head] + tail by {
        assert Views(h, prev)[1..] == Views(h, prev[1..]);
      }
    }
  }

  /** Assigning keeps the array free of sharing. */
  lemma {:induction false} AssignAllApart(h: Heap, prev: seq<Ref>, reportId: string, assignee: string)
    requires Wf(h) && Tracked(h, prev) && Apart(h, prev)
    ensures var m := AssignAll(h, prev, reportId, assignee); Apart(m.heap, m.refs)
    decreases prev
  {
    if prev != [] {
      var first := AssignObject(h, prev[0], reportId, assignee);
      var rest := AssignAll(first.heap, prev[1..], reportId, assignee);
      var m := AssignAll(h, prev, reportId, assignee);
      assert Apart(rest.heap, rest.refs) by {
        ApartKept(h, first.heap, prev[1..]);
        AssignAllApart(first.heap, prev[1..], reportId, assignee);
      }
      assert Clear(m.heap, first.ref, rest.refs) by {
        forall k | 0 <= k < |rest.refs|
          ensures rest.refs[k] != first.ref
          ensures m.heap.objects[first.ref].ledger.Some? ==> m.heap.objects[rest.refs[k]].ledger != m.heap.objects[first.ref].ledger
        {
          assert prev[1..][k] == prev[k + 1];
          ApartPairs(h, prev, 0, k + 1);
        }
      }
      assert m.refs[1..] == rest.refs;
    }
  }

  // ------------------------------------------------- status update, comment

  /** The callback of the map in `handleUpdateStatus` (with `status`) and in
      `handleAddUpdate` (without): a matching report becomes a spread copy;
      the copy gets a new `updates` array only when it has none, and the entry
      is pushed onto the copy's array, which is the original's when it had
      one. Any other report is returned as it is. */
  function AppendObject(h: Heap, o: Ref, reportId: string, status: Option<Status>, entry: Update): (m: Made)
    requires Wf(h) && o < |h.objects|
    ensures Wf(m.heap) && Extends(h, m.heap) && m.ref < |m.heap.objects|
  {
    var obj := h.objects[o];
    if obj.fields.id == reportId then
      var fields := obj.fields.(status := if status.Some? then status.value else obj.fields.status);
      if obj.ledger.None? then
        Made(Heap(h.objects + [Obj(fields, Some(|h.arrays|))], h.arrays + [[entry]]), |h.objects|)
      else
        var a := obj.ledger.value;
        Made(Heap(h.objects + [Obj(fields, obj.ledger)], h.arrays[a := h.arrays[a] + [entry]]), |h.objects|)
    else Made(h, o)
  }

  /** The copy reads the report with the entry appended (and the status
      set); it is the old object or a new one, pointing at the old `updates`
      array or at a new one; the only old array that changes is the matching
      report's, which gets the entry at its end. */
  lemma AppendObjectFacts(h: Heap, o: Ref, reportId: string, status: Option<Status>, entry: Update)
    requires Wf(h) && o < |h.objects|
    ensures var m := AppendObject(h, o, reportId, status, entry);
      && ViewOf(m.heap, m.ref) == Lifecycle.WithEntry(ViewOf(h, o), reportId, status, entry)
      && (m.ref == o || |h.objects| <= m.ref)
      && (m.heap.objects[m.ref].ledger == h.objects[o].ledger
          || (m.heap.objects[m.ref].ledger.Some? && |h.arrays| <= m.heap.objects[m.ref].ledger.value))
      && (forall a :: 0 <= a < |h.arrays| ==>
            m.heap.arrays[a] == h.arrays[a] + (if h.objects[o].fields.id == reportId && h.objects[o].ledger == Some(a) then [entry] else []))
  {
  }

  /** `prev.map(...)` of `handleUpdateStatus` and `handleAddUpdate`. */
  function AppendAll(h: Heap, prev: seq<Ref>, reportId: string, status: Option<Status>, entry: Update): (m: MadeAll)
    requires Wf(h) && Tracked(h, prev)
    ensures Wf(m.heap) && Extends(h, m.heap) && Tracked(m.heap, m.refs) && |m.refs| == |prev|
    decreases prev
  {
    if prev == [] then MadeAll(h, [])
    else
      var first := AppendObject(h, prev[0], reportId, status, entry);
      var rest := AppendAll(first.heap, prev[1..], reportId, status, entry);
      MadeAll(rest.heap, [first.ref] + rest.refs)
  }

  /** Every array that a matching report of `prev` points at gets the entry
      once at its end; every other array that existed is left as it was. */
  lemma {:induction false} AppendAllArrays(h: Heap, prev: seq<Ref>, reportId: string, status: Option<Status>, entry: Update)
    requires Wf(h) && Tracked(h, prev) && Apart(h, prev)
    ensures var m := AppendAll(h, prev, reportId, status, entry);
      forall a :: 0 <= a < |h.arrays| ==>
        m.heap.arrays[a] == h.arrays[a] + (if PushedOnto(h, prev, reportId, a) then [entry] else [])
    decreases prev
  {
    if prev != [] {
      var first := AppendObject(h, prev[0], reportId, status, entry);
      var rest := AppendAll(first.heap, prev[1..], reportId, status, entry);
      AppendObjectFacts(h, prev[0], reportId, status, entry);
      ApartKept(h, first.heap, prev[1..]);
      AppendAllArrays(first.heap, prev[1..], reportId, status, entry);
      forall a | 0 <= a < |h.arrays|
        ensures rest.heap.arrays[a] == h.arrays[a] + (if PushedOnto(h, prev, reportId, a) then [entry] else [])
      {
        PushedOntoCons(h, prev, reportId, a);
        PushedOntoSameObjects(h, first.heap, prev[1..], reportId, a);
        if h.objects[prev[0]].ledger == Some(a) {
          NotPushedByRest(h, prev, reportId);
        }
      }
    }
  }

  /** Appending follows `Lifecycle.AfterAppend`. */
  lemma {:induction false} AppendAllViews(h: Heap, prev: seq<Ref>, reportId: string, status: Option<Status>, entry: Update)
    requires Wf(h) && Tracked(h, prev) && Apart(h, prev)
    ensures var m := AppendAll(h, prev, reportId, status, entry);
      Views(m.heap, m.refs) == Lifecycle.AfterAppend(Views(h, prev), reportId, status, entry)
    decreases prev
  {
    if prev != [] {
      var first := AppendObject(h, prev[0], reportId, status, entry);
      var rest := AppendAll(first.heap, prev[1..], reportId, status, entry);
      var m := AppendAll(h, prev, reportId, status, entry);
      var head := Lifecycle.WithEntry(ViewOf(h, prev[0]), reportId, status, entry);
      var tail := Lifecycle.AfterAppend(Views(h, prev[1..]), reportId, status, entry);
      assert Views(rest.heap, rest.refs) == tail by {
        ApartKept(h, first.heap, prev[1..]);
        AppendAllViews(first.heap, prev[1..], reportId, status, entry);
        RestUntouched(h, prev, reportId, status, entry);
      }
      assert ViewOf(rest.heap, first.ref) == head by {
        AppendObjectFacts(h, prev[0], reportId, status, entry);
        FirstUntouched(h, prev, reportId, status, entry);
        ViewKept(first.heap, rest.heap, first.ref);
      }
      assert m.refs == [first.ref] + rest.refs && m.heap == rest.heap;
      assert Views(m.heap, m.refs) == [head] + tail by {
        assert m.refs[1..] == rest.refs;
      }
      assert Lifecycle.AfterAppend(Views(h, prev), reportId, status, entry) == [head] + tail by {
        assert Views(h, prev)[1..] == Views(h, prev[1..]);
      }
    }
  }

  /** Appending for the first report of an array free of sharing leaves what
      the later ones read unchanged. */
  lemma RestUntouched(h: Heap, prev: seq<Ref>, reportId: string, status: Option<Status>, entry: Update)
    requires Wf(h) && Tracked(h, prev) && Apart(h, prev) && prev != []
    ensures var first := AppendObject(h, prev[0], reportId, status, entry);
      Tracked(first.heap, prev[1..]) && Views(first.heap, prev[1..]) == Views(h, prev[1..])
  {
    var first := AppendObject(h, prev[0], reportId, status, entry);
    AppendObjectFacts(h, prev[0], reportId, status, entry);
    forall k | 0 <= k < |prev[1..]| && h.objects[prev[1..][k]].ledger.Some?
      ensures first.heap.arrays[h.objects[prev[1..][k]].ledger.value] == h.arrays[h.objects[prev[1..][k]].ledger.value]
    {
      assert prev[1..][k] == prev[k + 1];
      ApartPairs(h, prev, 0, k + 1);
    }
    ViewsKept(h, first.heap, prev[1..]);
  }

  /** Each object of the new array is the old one or a new object, and
      points at the old one's `updates` array or at a new array. */
  lemma {:induction false} AppendAllFresh(h: Heap, prev: seq<Ref>, reportId: string, status: Option<Status>, entry: Update)
    requires Wf(h) && Tracked(h, prev)
    ensures var m := AppendAll(h, prev, reportId, status, entry);
      forall j :: 0 <= j < |prev| ==>
        && (m.refs[j] == prev[j] || |h.objects| <= m.refs[j])
        && (m.heap.objects[m.refs[j]].ledger == h.objects[prev[j]].ledger
            || (m.heap.objects[m.refs[j]].ledger.Some? && |h.arrays| <= m.heap.objects[m.refs[j]].ledger.value))
    decreases prev
  {
    if prev != [] {
      var first := AppendObject(h, prev[0], reportId, status, entry);
      var rest := AppendAll(first.heap, prev[1..], reportId, status, entry);
      var m := AppendAll(h, prev, reportId, status, entry);
      AppendObjectFacts(h, prev[0], reportId, status, entry);
      AppendAllFresh(first.heap, prev[1..], reportId, status, entry);
      forall j | 0 < j < |prev|
        ensures m.refs[j] == prev[j] || |h.objects| <= m.refs[j]
        ensures m.heap.objects[m.refs[j]].ledger == h.objects[prev[j]].ledger
            || (m.heap.objects[m.refs[j]].ledger.Some? && |h.arrays| <= m.heap.objects[m.refs[j]].ledger.value)
      {
        assert prev[1..][j - 1] == prev[j];
        assert m.refs[j] == rest.refs[j - 1];
      }
    }
  }

  /** Appending keeps the array free of sharing. */
  lemma {:induction false} AppendAllApart(h: Heap, prev: seq<Ref>, reportId: string, status: Option<Status>, entry: Update)
    requires Wf(h) && Tracked(h, prev) && Apart(h, prev)
    ensures var m := AppendAll(h, prev, reportId, status, entry); Apart(m.heap, m.refs)
    decreases prev
  {
    if prev != [] {
      var first := AppendObject(h, prev[0], reportId, status, entry);
      var rest := AppendAll(first.heap, prev[1..], reportId, status, entry);
      var m := AppendAll(h, prev, reportId, status, entry);
      assert Apart(rest.heap, rest.refs) by {
        ApartKept(h, first.heap, prev[1..]);
        AppendAllApart(first.heap, prev[1..], reportId, status, entry);
      }
      assert Clear(m.heap, first.ref, rest.refs) by {
        AppendObjectFacts(h, prev[0], reportId, status, entry);
        AppendAllFresh(first.heap, prev[1..], reportId, status, entry);
        var l := first.heap.objects[first.ref].ledger;
        assert m.heap.objects[first.ref].ledger == l;
        forall k | 0 <= k < |rest.refs|
          ensures rest.refs[k] != first.ref
          ensures l.Some? ==> m.heap.objects[rest.refs[k]].ledger != l
        {
          assert prev[1..][k] == prev[k + 1];
          ApartPairs(h, prev, 0, k + 1);
        }
      }
      assert m.refs[1..] == rest.refs;
    }
  }

  /** The `updates` array of the first copy is not pushed again by the rest
      of the map. */
  lemma FirstUntouched(h: Heap, prev: seq<Ref>, reportId: string, status: Option<Status>, entry: Update)
    requires Wf(h) && Tracked(h, prev) && Apart(h, prev) && prev != []
    ensures var first := AppendObject(h, prev[0], reportId, status, entry);
      var rest := AppendAll(first.heap, prev[1..], reportId, status, entry);
      var l := first.heap.objects[first.ref].ledger;
      l.Some? && l.value < |first.heap.arrays| ==> rest.heap.arrays[l.value] == first.heap.arrays[l.value]
  {
    var first := AppendObject(h, prev[0], reportId, status, entry);
    var l := first.heap.objects[first.ref].ledger;
    AppendObjectFacts(h, prev[0], reportId, status, entry);
    ApartKept(h, first.heap, prev[1..]);
    AppendAllArrays(first.heap, prev[1..], reportId, status, entry);
    if l.Some? && l.value < |h.arrays| {
      NotPushedByRest(h, prev, reportId);
      PushedOntoSameObjects(h, first.heap, prev[1..], reportId, l.value);
    }
  }

  // -------------------------------------------------------- background step

  /** `report.status = 'assigned'; report.assignedTo = department` on object
      `o`, in place: whoever holds `o` sees the change. */
  function AssignInPlace(h: Heap, o: Ref, department: string): (h': Heap)
    requires Wf(h) && o < |h.objects|
    ensures Wf(h') && |h'.objects| == |h.objects| && h'.arrays == h.arrays
    ensures ViewOf(h', o) == ViewOf(h, o).(status := Assigned, assignedTo := Some(department))
    ensures forall p :: 0 <= p < |h.objects| && p != o ==> h'.objects[p] == h.objects[p]
    ensures h'.objects[o].ledger == h.objects[o].ledger
  {
    var obj := h.objects[o];
    h.(objects := h.objects[o := obj.(fields := obj.fields.(status := Assigned, assignedTo := Some(department)))])
  }

  /** Changing the `k`-th object of an array free of sharing changes the
      `k`-th report read from it and no other. */
  lemma AssignInPlaceViews(h: Heap, refs: seq<Ref>, k: nat, department: string)
    requires Wf(h) && Tracked(h, refs) && Apart(h, refs) && k < |refs|
    ensures var h' := AssignInPlace(h, refs[k], department);
      && Tracked(h', refs) && Apart(h', refs)
      && Views(h', refs) == Views(h, refs)[k := ViewOf(h, refs[k]).(status := Assigned, assignedTo := Some(department))]
  {
    var h' := AssignInPlace(h, refs[k], department);
    forall j | 0 <= j < |refs| && j != k ensures refs[j] != refs[k] {
      if j < k { ApartPairs(h, refs, j, k); } else { ApartPairs(h, refs, k, j); }
    }
    ApartSameLedgers(h, h', refs);
    ViewsUpdateOne(h, h', refs, k);
  }

  /** When only the object at position `k` changes, and it occurs nowhere else
      in the array, only the `k`-th report read from the array changes. */
  lemma ViewsUpdateOne(h: Heap, h': Heap, refs: seq<Ref>, k: nat)
    requires Tracked(h, refs) && k < |refs| && |h'.objects| == |h.objects| && h'.arrays == h.arrays
    requires forall j :: 0 <= j < |refs| && j != k ==> refs[j] != refs[k]
    requires forall p :: 0 <= p < |h.objects| && p != refs[k] ==> h'.objects[p] == h.objects[p]
    ensures Tracked(h', refs) && Views(h', refs) == Views(h, refs)[k := ViewOf(h', refs[k])]
  {
    var want := Views(h, refs)[k := ViewOf(h', refs[k])];
    forall j | 0 <= j < |refs| ensures Views(h', refs)[j] == want[j] {
      if j != k {
        assert h'.objects[refs[j]] == h.objects[refs[j]];
      }
    }
  }

  /** An array free of sharing stays so when no object changes its `updates`
      reference. */
  lemma {:induction false} ApartSameLedgers(h: Heap, h': Heap, refs: seq<Ref>)
    requires Tracked(h, refs) && Apart(h, refs) && |h'.objects| == |h.objects|
    requires forall p :: 0 <= p < |h.objects| ==> h'.objects[p].ledger == h.objects[p].ledger
    ensures Tracked(h', refs) && Apart(h', refs)
    decreases |refs|
  {
    if refs != [] {
      ApartSameLedgers(h, h', refs[1..]);
    }
  }

  /** The object the background step picks, when it fires and some report
      is submitted: the `pick`-th submitted one. */
  function TickTarget(h: Heap, refs: seq<Ref>, fire: bool, pick: nat): (t: Option<Ref>)
    requires Tracked(h, refs)
    requires fire && Lifecycle.SubmittedCount(Views(h, refs)) > 0 ==> pick < Lifecycle.SubmittedCount(Views(h, refs))
    ensures t.Some? ==> t.value in refs && ViewOf(h, t.value).status == Submitted
  {
    var views := Views(h, refs);
    if fire && Lifecycle.SubmittedCount(views) > 0 then Some(refs[Lifecycle.NthSubmitted(views, pick)]) else None
  }

  /** The heap after one run of the interval callback. */
  function TickHeap(h: Heap, refs: seq<Ref>, fire: bool, pick: nat, department: string): Heap
    requires Wf(h) && Tracked(h, refs)
    requires fire && Lifecycle.SubmittedCount(Views(h, refs)) > 0 ==> pick < Lifecycle.SubmittedCount(Views(h, refs))
  {
    var t := TickTarget(h, refs, fire, pick);
    if t.Some? then AssignInPlace(h, t.value, department) else h
  }

  /** The background step follows `Lifecycle.AfterTick`, keeps the array
      free of sharing, and changes the picked object for every holder. */
  lemma TickHeapEffect(h: Heap, refs: seq<Ref>, fire: bool, pick: nat, department: string)
    requires Wf(h) && Tracked(h, refs) && Apart(h, refs)
    requires fire && Lifecycle.SubmittedCount(Views(h, refs)) > 0 ==> pick < Lifecycle.SubmittedCount(Views(h, refs))
    ensures var h' := TickHeap(h, refs, fire, pick, department);
      && Wf(h') && Tracked(h', refs) && Apart(h', refs)
      && Views(h', refs) == Lifecycle.AfterTick(Views(h, refs), fire, pick, department)
      && |h'.objects| == |h.objects|
      && forall o :: 0 <= o < |h.objects| ==>
           ViewOf(h', o) == if TickTarget(h, refs, fire, pick) == Some(o)
                            then ViewOf(h, o).(status := Assigned, assignedTo := Some(department))
                            else ViewOf(h, o)
  {
    var views := Views(h, refs);
    if fire && Lifecycle.SubmittedCount(views) > 0 {
      var k := Lifecycle.NthSubmitted(views, pick);
      AssignInPlaceViews(h, refs, k, department);
    }
  }

  /** An object of the array reads an entry pushed for its own id exactly
      when it already had an `updates` array: the report held open in the
      detail screen shows a new comment only then. */
  lemma SelfAliased(h: Heap, refs: seq<Ref>, i: nat)
    requires Tracked(h, refs) && i < |refs|
    ensures Aliased(h, refs, ViewOf(h, refs[i]).id, refs[i]) <==> h.objects[refs[i]].ledger.Some?
  {
    if h.objects[refs[i]].ledger.Some? {
      assert h.objects[refs[i]].fields.id == ViewOf(h, refs[i]).id;
    }
  }

  /** What an object that existed before an append reads afterwards: the
      entry at the end of its entries when it shares an array with a
      matching report of `prev`, and otherwise exactly what it read before. */
  lemma AppendAllSeenBy(h: Heap, prev: seq<Ref>, reportId: string, status: Option<Status>, entry: Update, o: Ref)
    requires Wf(h) && Tracked(h, prev) && Apart(h, prev) && o < |h.objects|
    ensures var m := AppendAll(h, prev, reportId, status, entry);
      ViewOf(m.heap, o) ==
        if Aliased(h, prev, reportId, o) then ViewOf(h, o).(updates := ViewOf(h, o).updates + [entry]) else ViewOf(h, o)
  {
    AppendAllArrays(h, prev, reportId, status, entry);
  }

  // ------------------------------------------------------------------ store

  /** The state of the top-level component. */
  class ReportStore {
    var user: Option<User>
    var activeTab: string
    /** The object the detail screen holds, if one is open. */
    var selected: Option<Ref>
    var heap: Heap
    /** The `reports` state: the current array of report objects. */
    var reports: seq<Ref>
    var hasNotifications: bool

    /** The heap is well formed, the current array shares nothing, the held
        object exists, and every current status is in canonical form (a
        status string in the source is one value, whichever way it came). */
    predicate Valid()
      reads this
    {
      && Wf(heap) && Tracked(heap, reports) && Apart(heap, reports)
      && (selected.Some? ==> selected.value < |heap.objects|)
      && AllCanonical(Views(heap, reports))
    }

    /** The collection as the screens read it. */
    function Reports(): seq<Report>
      reads this
      requires Valid()
    {
      Views(heap, reports)
    }

    /** The report the detail screen shows, read through the object it holds. */
    function Selected(): Option<Report>
      reads this
      requires Valid()
    {
      if selected.Some? then Some(ViewOf(heap, selected.value)) else None
    }

    /** `userReports`. */
    function UserReports(): seq<Report>
      reads this
      requires Valid()
    {
      Lifecycle.Visible(user, Reports())
    }

    /** The held object shares its `updates` array with a current report that
        carries `reportId`. */
    predicate SelectedShares(reportId: string)
      reads this
      requires Valid()
    {
      selected.Some? && Aliased(heap, reports, reportId, selected.value)
    }

    /** The state on first render: nobody logged in, no reports. */
    constructor ()
      ensures Valid() && Reports() == [] && !hasNotifications
      ensures user.None? && activeTab == "home" && selected.None?
    {
      user, activeTab, selected := None, "home", None;
      heap, reports := Heap([], []), [];
      hasNotifications := false;
    }

    /** The mount effect: the reports are loaded, and the flag is raised when
        one of them is submitted with high priority. */
    method Mount(initial: seq<Report>)
      requires Valid() && AllCanonical(initial)
      modifies this
      ensures Valid() && Reports() == initial
      ensures hasNotifications == Lifecycle.HasUrgent(initial)
      ensures user == old(user) && activeTab == old(activeTab) && selected == old(selected)
      ensures Selected() == old(Selected())
    {
      var m := AllocateAll(heap, initial);
      AllocateAllReads(heap, initial);
      if selected.Some? {
        ViewKept(heap, m.heap, selected.value);
      }
      heap, reports := m.heap, m.refs;
      hasNotifications := Lifecycle.HasUrgent(initial);
    }

    /** `handleLogin`. */
    method Login(u: User)
      requires Valid()
      modifies this
      ensures Valid() && user == Some(u) && activeTab == (if u.role == Admin then "dashboard" else "home")
      ensures heap == old(heap) && reports == old(reports) && selected == old(selected)
      ensures hasNotifications == old(hasNotifications)
    {
      user := Some(u);
      activeTab := if u.role == Admin then "dashboard" else "home";
    }

    /** `handleLogout`. */
    method Logout()
      requires Valid()
      modifies this
      ensures Valid() && user.None? && activeTab == "home" && selected.None?
      ensures heap == old(heap) && reports == old(reports) && hasNotifications == old(hasNotifications)
    {
      user, activeTab, selected := None, "home", None;
    }

    /** `handleReportClick`: the detail screen holds this very object. */
    method ReportClick(o: Ref)
      requires Valid() && o < |heap.objects|
      modifies this
      ensures Valid() && selected == Some(o) && Selected() == Some(ViewOf(heap, o))
      ensures user == old(user) && activeTab == old(activeTab)
      ensures heap == old(heap) && reports == old(reports) && hasNotifications == old(hasNotifications)
    {
      selected := Some(o);
    }

    /** The detail screen's back button. */
    method CloseDetail()
      requires Valid()
      modifies this
      ensures Valid() && selected.None?
      ensures user == old(user) && activeTab == old(activeTab)
      ensures heap == old(heap) && reports == old(reports) && hasNotifications == old(hasNotifications)
    {
      selected := None;
    }

    /** "Start Report" on the home screen (`report`), and the submission
        screen's back button (`home`). */
    method OpenTab(tab: string)
      requires Valid()
      modifies this
      ensures Valid() && activeTab == tab
      ensures user == old(user) && selected == old(selected)
      ensures heap == old(heap) && reports == old(reports) && hasNotifications == old(hasNotifications)
    {
      activeTab := tab;
    }

    /** `handleTabChange`: the flag is cleared only when an administrator opens
        the reports tab. */
    method TabChange(tab: string)
      requires Valid()
      modifies this
      ensures Valid() && activeTab == tab && selected.None?
      ensures hasNotifications == (old(hasNotifications) && !(tab == "reports" && user.Some? && user.value.role == Admin))
      ensures user == old(user) && heap == old(heap) && reports == old(reports)
    {
      activeTab := tab;
      selected := None;
      if tab == "reports" && user.Some? && user.value.role == Admin {
        hasNotifications := false;
      }
    }

    /** `handleSubmitReport`: a new object goes in front; no existing object
        or array changes. */
    method SubmitReport(r: Report)
      requires Valid() && CanonicalStatus(r.status)
      modifies this
      ensures Valid() && Reports() == [r] + old(Reports()) && activeTab == "my-reports"
      ensures Selected() == old(Selected())
      ensures user == old(user) && selected == old(selected) && hasNotifications == old(hasNotifications)
    {
      var m := Allocate(heap, r);
      AllocateFront(heap, reports, r);
      AllCanonicalCons(r, Views(heap, reports));
      heap, reports := m.heap, [m.ref] + reports;
      activeTab := "my-reports";
    }

    /** `handleAssignReport`: copy-on-write, so the held object, if any,
        reads as before. */
    method AssignReport(reportId: string, assignee: string)
      requires Valid()
      modifies this
      ensures Valid() && Reports() == Lifecycle.AfterAssign(old(Reports()), reportId, assignee)
      ensures Selected() == old(Selected())
      ensures user == old(user) && activeTab == old(activeTab) && selected == old(selected)
      ensures hasNotifications == old(hasNotifications)
    {
      var m := AssignAll(heap, reports, reportId, assignee);
      AssignAllViews(heap, reports, reportId, assignee);
      AssignAllApart(heap, reports, reportId, assignee);
      Lifecycle.AssignKeepsCanonical(Views(heap, reports), reportId, assignee);
      if selected.Some? {
        ViewKept(heap, m.heap, selected.value);
      }
      heap, reports := m.heap, m.refs;
    }

    /** `handleUpdateStatus`: whatever the status string, it is written, and a
        status-change entry is pushed. The held object shows the new entry
        (but not the new status) exactly when it shares an `updates` array
        with a report that carries the id. */
    method UpdateStatus(reportId: string, status: string, entryId: string, timestamp: string)
      requires Valid()
      modifies this
      ensures Valid()
      ensures Reports() == Lifecycle.AfterStatusUpdate(old(Reports()), reportId, status, entryId, timestamp)
      ensures var entry := Lifecycle.StatusEntry(entryId, timestamp, status);
        Selected() ==
          if old(SelectedShares(reportId)) then Some(old(Selected()).value.(updates := old(Selected()).value.updates + [entry]))
          else old(Selected())
      ensures user == old(user) && activeTab == old(activeTab) && selected == old(selected)
      ensures hasNotifications == old(hasNotifications)
    {
      var entry := Lifecycle.StatusEntry(entryId, timestamp, status);
      Append(reportId, Some(ParseStatus(status)), entry);
    }

    /** `handleAddUpdate`: a comment entry is pushed, with the same sharing
        as a status update. `author` is the user of the render whose handler
        the caller holds; a send timer holds the handler of the render it
        was started in, so `author` can differ from the current `user`. */
    method AddUpdate(reportId: string, message: string, author: Option<User>, entryId: string, timestamp: string)
      requires Valid()
      modifies this
      ensures Valid()
      ensures Reports() == Lifecycle.AfterComment(old(Reports()), reportId, message, author, entryId, timestamp)
      ensures var entry := Lifecycle.CommentEntry(entryId, timestamp, message, author);
        Selected() ==
          if old(SelectedShares(reportId)) then Some(old(Selected()).value.(updates := old(Selected()).value.updates + [entry]))
          else old(Selected())
      ensures user == old(user) && activeTab == old(activeTab) && selected == old(selected)
      ensures hasNotifications == old(hasNotifications)
    {
      var entry := Lifecycle.CommentEntry(entryId, timestamp, message, author);
      Append(reportId, None, entry);
    }

    /** The `setReports(prev => prev.map(...))` shared by the two handlers. */
    method Append(reportId: string, status: Option<Status>, entry: Update)
      requires Valid() && (status.Some? ==> CanonicalStatus(status.value))
      modifies this
      ensures Valid()
      ensures Reports() == Lifecycle.AfterAppend(old(Reports()), reportId, status, entry)
      ensures Selected() ==
        if old(SelectedShares(reportId)) then Some(old(Selected()).value.(updates := old(Selected()).value.updates + [entry]))
        else old(Selected())
      ensures user == old(user) && activeTab == old(activeTab) && selected == old(selected)
      ensures hasNotifications == old(hasNotifications)
    {
      var m := AppendAll(heap, reports, reportId, status, entry);
      AppendAllViews(heap, reports, reportId, status, entry);
      AppendAllApart(heap, reports, reportId, status, entry);
      Lifecycle.AppendKeepsCanonical(Views(heap, reports), reportId, status, entry);
      if selected.Some? {
        AppendAllSeenBy(heap, reports, reportId, status, entry, selected.value);
      }
      heap, reports := m.heap, m.refs;
    }

    /** One run of the interval callback. `fire` stands for `Math.random() >
        0.7`, `pick` for the random index into the submitted reports and
        `department` for the random index into the department list. The array
        is a new one holding the same objects; the picked object is changed in
        place, so the detail screen sees the change when it holds that
        object. */
    method Tick(fire: bool, pick: nat, department: nat)
      requires Valid() && department < |Lifecycle.Departments|
      requires fire && Lifecycle.SubmittedCount(Reports()) > 0 ==> pick < Lifecycle.SubmittedCount(Reports())
      modifies this
      ensures Valid() && reports == old(reports)
      ensures Reports() == Lifecycle.AfterTick(old(Reports()), fire, pick, Lifecycle.Departments[department])
      ensures hasNotifications == (old(hasNotifications) || (fire && Lifecycle.SubmittedCount(old(Reports())) > 0))
      ensures Selected() ==
        if old(selected).Some? && TickTarget(old(heap), reports, fire, pick) == old(selected)
        then Some(old(Selected()).value.(status := Assigned, assignedTo := Some(Lifecycle.Departments[department])))
        else old(Selected())
      ensures user == old(user) && activeTab == old(activeTab) && selected == old(selected)
    {
      var target := TickTarget(heap, reports, fire, pick);
      TickHeapEffect(heap, reports, fire, pick, Lifecycle.Departments[department]);
      Lifecycle.TickKeepsCanonical(Views(heap, reports), fire, pick, Lifecycle.Departments[department]);
      heap := TickHeap(heap, reports, fire, pick, Lifecycle.Departments[department]);
      if target.Some? {
        hasNotifications := true;
      }
    }
  }
}
