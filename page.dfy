/**
 The attendance page (app/page.tsx): three state cells and the three handlers
 that change them. A detection arrives from the overlay, the user submits it to
 the append-only history (which opens the confirmation modal), and closing the
 modal clears the detection.

 `Step` is the transition function of the page; the class `AttendancePage`
 holds the cells and its handlers are proved to perform exactly those steps.
 */
module Page {
  import opened Wrappers
  import opened Overlay

  /** The page's state cells. */
  datatype PageState = PageState(
    detectedFace: Option<DetectedFace>,
    isModalOpen: bool,
    attendanceHistory: seq<DetectedFace>)

  /** The discrete events the page reacts to. */
  datatype Event =
    | FaceDetected(face: DetectedFace)
    | AttendanceSubmit
    | ModalClose

  /** The state on first render: no detection, modal closed, empty history. */
  function Initial(): (s: PageState)
  {
    PageState(None, false, [])
  }

  /**
   One handler run. History only grows, and it grows by one entry exactly when
   a submit finds a current detection.
   */
  function Step(s: PageState, e: Event): (t: PageState)
    ensures s.attendanceHistory <= t.attendanceHistory
    ensures |t.attendanceHistory| == |s.attendanceHistory| + (if e.AttendanceSubmit? && s.detectedFace.Some? then 1 else 0)
  {
    match e
    case FaceDetected(face) =>
      s.(detectedFace := Some(face))
    case AttendanceSubmit =>
      if s.detectedFace.Some?
      then s.(attendanceHistory := s.attendanceHistory + [s.detectedFace.value], isModalOpen := true)
      else s
    case ModalClose =>
      s.(isModalOpen := false, detectedFace := None)
  }

  /** The state after handling `events` in order. */
  function Run(s: PageState, events: seq<Event>): (t: PageState)
    decreases |events|
  {
    if events == [] then s else Run(Step(s, events[0]), events[1..])
  }

  /** The faces the overlay delivered in `events`. */
  function Delivered(events: seq<Event>): (faces: set<DetectedFace>)
    decreases |events|
  {
    if events == [] then {}
    else (if events[0].FaceDetected? then {events[0].face} else {}) + Delivered(events[1..])
  }

  /** Whether the submit button is enabled. */
  predicate CanSubmit(s: PageState)
  {
    s.detectedFace.Some?
  }

  /** Every recorded entry and the current detection are among `faces`. */
  ghost predicate DrawnFrom(s: PageState, faces: set<DetectedFace>)
  {
    && (forall i :: 0 <= i < |s.attendanceHistory| ==> s.attendanceHistory[i] in faces)
    && (s.detectedFace.Some? ==> s.detectedFace.value in faces)
  }

  /** The latest detection wins: an earlier one leaves no trace once a newer one arrives. */
  lemma FaceDetectedReplaces(s: PageState, a: DetectedFace, b: DetectedFace)
    ensures Step(Step(s, FaceDetected(a)), FaceDetected(b)) == Step(s, FaceDetected(b))
  {
  }

  /** A submit changes the page exactly when the submit button is enabled. */
  lemma SubmitGuardedByButton(s: PageState)
    ensures Step(s, AttendanceSubmit) != s <==> CanSubmit(s)
  {
  }

  /** Submitting twice records the same detection twice: repeated confirmations are not merged. */
  lemma RepeatedSubmitRecordsAgain(s: PageState)
    requires CanSubmit(s)
    ensures Step(Step(s, AttendanceSubmit), AttendanceSubmit).attendanceHistory
            == s.attendanceHistory + [s.detectedFace.value, s.detectedFace.value]
  {
  }

  /** After a close the submit button is disabled, so a cleared detection cannot be submitted again. */
  lemma CloseClearsDetection(s: PageState)
    ensures !CanSubmit(Step(s, ModalClose))
    ensures Step(Step(s, ModalClose), AttendanceSubmit) == Step(s, ModalClose)
  {
  }

  /** The modal is open only while a detection is held. */
  ghost predicate ModalHasFace(s: PageState)
  {
    s.isModalOpen ==> s.detectedFace.Some?
  }

  /**
   Every handler keeps an open modal paired with a held detection, so the
   modal's own guard against a missing face never hides it once opened.
   */
  lemma {:induction false} RunKeepsModalFace(s: PageState, events: seq<Event>)
    requires ModalHasFace(s)
    ensures ModalHasFace(Run(s, events))
    decreases |events|
  {
    if events != [] {
      RunKeepsModalFace(Step(s, events[0]), events[1..]);
    }
  }

  /**
   History is append-only over any run: the old history is a prefix of the new
   one, and it grows by at most one entry per event.
   */
  lemma {:induction false} RunAppendOnly(s: PageState, events: seq<Event>)
    ensures s.attendanceHistory <= Run(s, events).attendanceHistory
    ensures |Run(s, events).attendanceHistory| <= |s.attendanceHistory| + |events|
    decreases |events|
  {
    if events != [] {
      var t := Step(s, events[0]);
      RunAppendOnly(t, events[1..]);
      assert s.attendanceHistory <= t.attendanceHistory;
    }
  }

  /**
   No entry is invented: whatever a run records or shows was already there or
   was delivered by the overlay during the run.
   */
  lemma {:induction false} RunDrawsFromDelivered(s: PageState, faces: set<DetectedFace>, events: seq<Event>)
    requires DrawnFrom(s, faces)
    ensures DrawnFrom(Run(s, events), faces + Delivered(events))
    decreases |events|
  {
    if events != [] {
      var t := Step(s, events[0]);
      var here := if events[0].FaceDetected? then {events[0].face} else {};
      assert DrawnFrom(t, faces + here);
      RunDrawsFromDelivered(t, faces + here, events[1..]);
      assert faces + here + Delivered(events[1..]) == faces + Delivered(events);
    }
  }

  /** From the initial page, every history entry is a face the overlay delivered. */
  lemma HistoryFromDelivered(events: seq<Event>)
    ensures forall i :: 0 <= i < |Run(Initial(), events).attendanceHistory| ==>
              Run(Initial(), events).attendanceHistory[i] in Delivered(events)
  {
    RunDrawsFromDelivered(Initial(), {}, events);
  }

  /** If the overlay only ever delivers table people, the history holds only table people. */
  lemma HistoryFromTable(events: seq<Event>)
    requires forall i :: 0 <= i < |events| && events[i].FaceDetected? ==> FromTable(events[i].face)
    ensures forall i :: 0 <= i < |Run(Initial(), events).attendanceHistory| ==>
              FromTable(Run(Initial(), events).attendanceHistory[i])
  {
    HistoryFromDelivered(events);
    DeliveredFromEvents(events);
  }

  /** Each delivered face is carried by some detection event. */
  lemma {:induction false} DeliveredFromEvents(events: seq<Event>)
    ensures forall f :: f in Delivered(events) ==> exists i :: 0 <= i < |events| && events[i] == FaceDetected(f)
  {
    if events != [] {
      DeliveredFromEvents(events[1..]);
      forall f | f in Delivered(events[1..])
        ensures exists i :: 0 <= i < |events| && events[i] == FaceDetected(f)
      {
        var i :| 0 <= i < |events[1..]| && events[1..][i] == FaceDetected(f);
        assert events[i + 1] == FaceDetected(f);
      }
    }
  }

  /** The page's state cells, updated in place by the handlers. */
  class AttendancePage {
    var detectedFace: Option<DetectedFace>
    var isModalOpen: bool
    var attendanceHistory: seq<DetectedFace>

    /** The cells as one value. */
    function State(): (s: PageState)
      reads this
    {
      PageState(detectedFace, isModalOpen, attendanceHistory)
    }

    constructor ()
      ensures State() == Initial()
    {
      detectedFace := None;
      isModalOpen := false;
      attendanceHistory := [];
    }

    /** `handleFaceDetected`: the new detection replaces the current one. */
    method HandleFaceDetected(face: DetectedFace)
      modifies this
      ensures detectedFace == Some(face)
      ensures isModalOpen == old(isModalOpen) && attendanceHistory == old(attendanceHistory)
      ensures State() == Step(old(State()), FaceDetected(face))
    {
      detectedFace := Some(face);
    }

    /** `handleAttendanceSubmit`: record the current detection and open the modal, if there is a detection. */
    method HandleAttendanceSubmit()
      modifies this
      ensures old(detectedFace).None? ==> State() == old(State())
      ensures old(detectedFace).Some? ==>
                && attendanceHistory == old(attendanceHistory) + [old(detectedFace).value]
                && isModalOpen
                && detectedFace == old(detectedFace)
      ensures State() == Step(old(State()), AttendanceSubmit)
    {
      if detectedFace.Some? {
        attendanceHistory := attendanceHistory + [detectedFace.value];
        isModalOpen := true;
      }
    }

    /** `handleModalClose`: close the modal and clear the detection. */
    method HandleModalClose()
      modifies this
      ensures !isModalOpen && detectedFace == None
      ensures attendanceHistory == old(attendanceHistory)
      ensures State() == Step(old(State()), ModalClose)
    {
      isModalOpen := false;
      detectedFace := None;
    }

    /**
     The history as listed on the page, most recent first: a copy of the stored
     history reversed in place.
     */
    method RecentFirst() returns (listed: seq<DetectedFace>)
      ensures |listed| == |attendanceHistory|
      ensures forall i :: 0 <= i < |listed| ==> listed[i] == attendanceHistory[|attendanceHistory| - 1 - i]
    {
      var history := attendanceHistory;
      var n := |history|;
      var a := new DetectedFace[n](i requires 0 <= i < n => history[i]);
      var lo, hi := 0, n - 1;
      while lo < hi
        invariant 0 <= lo && hi == n - 1 - lo && lo <= n - lo
        invariant forall i :: 0 <= i < lo ==> a[i] == history[n - 1 - i] && a[n - 1 - i] == history[i]
        invariant forall i :: lo <= i < n - lo ==> a[i] == history[i]
      {
        a[lo], a[hi] := a[hi], a[lo];
        lo, hi := lo + 1, hi - 1;
      }
      listed := a[..];
    }
  }
}
