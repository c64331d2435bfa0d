/**
 The overlay and the page wired together as in app/page.tsx, where the page
 passes `handleFaceDetected` to the overlay as `onFaceDetected`: a detection
 reported by a frame becomes a `FaceDetected` event of the page.
 */
module Session {
  import opened Wrappers
  import opened UserTable
  import opened Overlay
  import opened Page

  /** The page events caused by one frame's report. */
  function Deliver(reported: Option<DetectedFace>): (events: seq<Event>)
  {
    match reported
    case Some(face) => [FaceDetected(face)]
    case None => []
  }

  /** What reaches the page: a classified frame, or a click on submit or on close. */
  datatype Input =
    | ClassifiedFrame(predictions: seq<Prediction>, date: string, time: string)
    | SubmitClick
    | CloseClick

  /** The page events caused by `inputs`: a frame delivers its report, if any. */
  function ToEvents(inputs: seq<Input>): (events: seq<Event>)
    decreases |inputs|
  {
    if inputs == [] then []
    else
      var here := match inputs[0]
        case ClassifiedFrame(preds, date, time) => Deliver(Identify(preds, date, time))
        case SubmitClick => [AttendanceSubmit]
        case CloseClick => [ModalClose];
      here + ToEvents(inputs[1..])
  }

  /** Every detection the overlay hands the page is a table person above the threshold. */
  lemma {:induction false} DeliveredFromTable(inputs: seq<Input>)
    ensures forall i :: 0 <= i < |ToEvents(inputs)| && ToEvents(inputs)[i].FaceDetected? ==> FromTable(ToEvents(inputs)[i].face)
    decreases |inputs|
  {
    if inputs != [] {
      DeliveredFromTable(inputs[1..]);
      var events := ToEvents(inputs);
      var here := events[..|events| - |ToEvents(inputs[1..])|];
      assert events == here + ToEvents(inputs[1..]);
      forall i | 0 <= i < |events| && events[i].FaceDetected?
        ensures FromTable(events[i].face)
      {
        if i >= |here| {
          assert events[i] == ToEvents(inputs[1..])[i - |here|];
        }
      }
    }
  }

  /**
   For any interleaving of classified frames and clicks, starting from the
   initial page, every history entry is a table person detected above the
   threshold, and an open modal always has a detection to show.
   */
  lemma SessionHistoryFromTable(inputs: seq<Input>)
    ensures var final := Run(Initial(), ToEvents(inputs));
            && (forall i :: 0 <= i < |final.attendanceHistory| ==> FromTable(final.attendanceHistory[i]))
            && (final.isModalOpen ==> final.detectedFace.Some?)
  {
    DeliveredFromTable(inputs);
    HistoryFromTable(ToEvents(inputs));
    RunKeepsModalFace(Initial(), ToEvents(inputs));
  }

  /**
   A frame whose classifier output is `[("Dhavin", 0.92)]` reports Dhavin at
   confidence 0.92; submitting records one entry and opens the modal; closing
   leaves one entry, no detection and a closed modal.
   */
  lemma DhavinScenario(date: string, time: string)
    ensures Identify([Prediction("Dhavin", 0.92)], date, time)
            == Some(DetectedFace("Dhavin Fasya Alviyanto", "IPTEK", date, time, None, 0.92))
    ensures var face := DetectedFace("Dhavin Fasya Alviyanto", "IPTEK", date, time, None, 0.92);
            var submitted := Run(Initial(), Deliver(Some(face)) + [AttendanceSubmit]);
            var closed := Step(submitted, ModalClose);
            && submitted.attendanceHistory == [face] && submitted.isModalOpen
            && closed.attendanceHistory == [face] && !closed.isModalOpen && closed.detectedFace == None
  {
    var preds := [Prediction("Dhavin", 0.92)];
    assert FirstMaximum(preds, 0);
    IdentifyComplete(preds, 0, date, time);
    var face := DetectedFace("Dhavin Fasya Alviyanto", "IPTEK", date, time, None, 0.92);
    var events := Deliver(Some(face)) + [AttendanceSubmit];
    assert events == [FaceDetected(face), AttendanceSubmit];
    var detected := Step(Initial(), FaceDetected(face));
    assert Run(Initial(), events) == Run(detected, [AttendanceSubmit]);
    assert Run(detected, [AttendanceSubmit]) == Run(Step(detected, AttendanceSubmit), []);
  }

  /**
   The same scenario on the stateful components: the model loads, a frame at
   1000 ms classifies Dhavin, a frame 200 ms later is throttled, the user submits
   and then closes the modal.
   */
  method AttendanceSession(date: string, time: string)
    returns (history: seq<DetectedFace>, throttled: bool, modalOpen: bool, current: Option<DetectedFace>)
    ensures history == [DetectedFace("Dhavin Fasya Alviyanto", "IPTEK", date, time, None, 0.92)]
    ensures throttled && !modalOpen && current == None
  {
    var overlay := new FaceDetectionOverlay();
    var page := new AttendancePage();
    overlay.FinishLoading(true);

    DhavinScenario(date, time);
    var classified, reported := overlay.Predict(HaveEnoughData, 1000, [Prediction("Dhavin", 0.92)], date, time);
    if reported.Some? {
      page.HandleFaceDetected(reported.value);
    }

    var again, none := overlay.Predict(HaveEnoughData, 1200, [Prediction("Joko", 0.99)], date, time);
    throttled := !again;

    page.HandleAttendanceSubmit();
    page.HandleModalClose();
    history, modalOpen, current := page.attendanceHistory, page.isModalOpen, page.detectedFace;
  }

  /** With a failed model load no frame ever classifies, so nothing is reported. */
  method LoadFailureSession(now: int, predictions: seq<Prediction>, date: string, time: string)
    returns (classified: bool, reported: Option<DetectedFace>)
    ensures !classified && reported == None
  {
    var overlay := new FaceDetectionOverlay();
    overlay.FinishLoading(false);
    classified, reported := overlay.Predict(HaveEnoughData, now, predictions, date, time);
  }
}
