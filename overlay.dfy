/**
 The detection overlay (app/components/overlay.tsx): on every animation frame
 it may run the classifier, picks the most probable label, and reports a
 detection when that label is confident enough and known to the identity table.

 One call of `FaceDetectionOverlay.Predict` is one frame of the `predict` loop.
 The classifier's output for that frame, the clock reading, the video element's
 ready state and the formatted date and time are parameters.
 */
module Overlay {
  import opened Wrappers
  import opened UserTable

  /** The classifier runs only when strictly more than this many milliseconds have passed since its last run. */
  const ThrottleMs: int := 500
  /** A best probability must be strictly above this to report a detection. */
  const ConfidenceThreshold: real := 0.85
  /** `HTMLMediaElement.HAVE_ENOUGH_DATA`, the ready state the loop waits for. */
  const HaveEnoughData: int := 4

  /** One entry of the classifier's output. */
  datatype Prediction = Prediction(className: string, probability: real)

  /** The record reported to the page when a person is recognised; `photo` is never filled in by the overlay. */
  datatype DetectedFace = DetectedFace(
    name: string,
    position: string,
    detectionDate: string,
    detectionTime: string,
    photo: Option<string>,
    confidence: real)

  /** The pair of locals the argmax scan keeps: the highest probability so far and its label. */
  datatype Best = Best(highestProb: real, bestClass: string)

  /**
   The result of scanning `preds` from left to right, starting from probability 0
   and the empty label, where an entry replaces the current best only when its
   probability is strictly greater.
   */
  function Scan(preds: seq<Prediction>): (best: Best)
    decreases |preds|
  {
    if preds == [] then Best(0.0, "")
    else
      var b := Scan(preds[..|preds| - 1]);
      var p := preds[|preds| - 1];
      if p.probability > b.highestProb then Best(p.probability, p.className) else b
  }

  /** `k` is the first index at which the maximum probability of `preds` is reached. */
  ghost predicate FirstMaximum(preds: seq<Prediction>, k: int)
  {
    && 0 <= k < |preds|
    && (forall j :: 0 <= j < |preds| ==> preds[j].probability <= preds[k].probability)
    && (forall j :: 0 <= j < k ==> preds[j].probability < preds[k].probability)
  }

  /** A face is one of the table's people: its name and position are those of some entry, and its confidence passed the threshold. */
  ghost predicate FromTable(f: DetectedFace)
  {
    && f.confidence > ConfidenceThreshold
    && exists key :: key in UserDatabase && f.name == UserDatabase[key].name && f.position == UserDatabase[key].position
  }

  /** The scan's probability is never negative and is at least every entry's probability. */
  lemma {:induction false} ScanUpperBound(preds: seq<Prediction>)
    ensures Scan(preds).highestProb >= 0.0
    ensures forall i :: 0 <= i < |preds| ==> preds[i].probability <= Scan(preds).highestProb
  {
    if preds != [] {
      var init := preds[..|preds| - 1];
      ScanUpperBound(init);
      forall i | 0 <= i < |preds| - 1
        ensures preds[i].probability <= Scan(preds).highestProb
      {
        assert preds[i] == init[i];
      }
    }
  }

  /** The scan stays at probability 0 and the empty label exactly when no entry has a positive probability. */
  lemma {:induction false} ScanNothingPositive(preds: seq<Prediction>)
    ensures Scan(preds).highestProb == 0.0 <==> forall i :: 0 <= i < |preds| ==> preds[i].probability <= 0.0
    ensures Scan(preds).highestProb == 0.0 ==> Scan(preds).bestClass == ""
  {
    ScanUpperBound(preds);
    if preds != [] {
      var init := preds[..|preds| - 1];
      ScanNothingPositive(init);
      if forall i :: 0 <= i < |preds| ==> preds[i].probability <= 0.0 {
        forall i | 0 <= i < |init|
          ensures init[i].probability <= 0.0
        {
          assert init[i] == preds[i];
        }
      }
    }
  }

  /** A positive scan result is attained, by the first entry that reaches it. */
  lemma {:induction false} ScanAttained(preds: seq<Prediction>)
    requires Scan(preds).highestProb > 0.0
    ensures exists k :: FirstMaximum(preds, k)
                        && preds[k].className == Scan(preds).bestClass
                        && preds[k].probability == Scan(preds).highestProb
  {
    ScanUpperBound(preds);
    var init := preds[..|preds| - 1];
    var last := |preds| - 1;
    ScanUpperBound(init);
    if preds[last].probability > Scan(init).highestProb {
      forall j | 0 <= j < last
        ensures preds[j].probability < preds[last].probability
      {
        assert preds[j] == init[j];
      }
      assert FirstMaximum(preds, last);
    } else {
      ScanAttained(init);
      var k :| FirstMaximum(init, k) && init[k].className == Scan(init).bestClass
               && init[k].probability == Scan(init).highestProb;
      forall j | 0 <= j < k
        ensures preds[j].probability < preds[k].probability
      {
        assert preds[j] == init[j];
      }
      assert FirstMaximum(preds, k);
    }
  }

  /** When a positive maximum is first reached at `k`, the scan ends on exactly that entry. */
  lemma ScanIsFirstMaximum(preds: seq<Prediction>, k: int)
    requires FirstMaximum(preds, k)
    requires preds[k].probability > 0.0
    ensures Scan(preds) == Best(preds[k].probability, preds[k].className)
  {
    ScanUpperBound(preds);
    ScanAttained(preds);
    var k' :| FirstMaximum(preds, k') && preds[k'].className == Scan(preds).bestClass
              && preds[k'].probability == Scan(preds).highestProb;
    assert !(k < k') && !(k' < k);
  }

  /**
   The scan loop of `predict`: returns the highest probability and the first
   label that reaches it, or 0 and the empty label when nothing is positive.
   */
  method ArgMax(preds: seq<Prediction>) returns (highestProb: real, bestClass: string)
    ensures Best(highestProb, bestClass) == Scan(preds)
    ensures highestProb >= 0.0
    ensures forall i :: 0 <= i < |preds| ==> preds[i].probability <= highestProb
  {
    highestProb, bestClass := 0.0, "";
    var i := 0;
    while i < |preds|
      invariant 0 <= i <= |preds|
      invariant Best(highestProb, bestClass) == Scan(preds[..i])
    {
      assert preds[..i + 1][..i] == preds[..i];
      var p := preds[i];
      if p.probability > highestProb {
        highestProb, bestClass := p.probability, p.className;
      }
      i := i + 1;
    }
    assert preds[..i] == preds;
    ScanUpperBound(preds);
  }

  /**
   The decision after the scan: a detection built from the table entry of the
   best label, with the best probability as its confidence, when that probability
   is strictly above the threshold and the label is in the table; otherwise none.
   */
  function Recognize(b: Best, date: string, time: string): (r: Option<DetectedFace>)
    ensures r.Some? <==> b.highestProb > ConfidenceThreshold && b.bestClass in UserDatabase
    ensures r.Some? ==> FromTable(r.value) && r.value.confidence == b.highestProb
  {
    match Lookup(b.bestClass)
    case Some(user) =>
      if b.highestProb > ConfidenceThreshold
      then Some(DetectedFace(user.name, user.position, date, time, None, b.highestProb))
      else None
    case None => None
  }

  /** What one classified frame reports for the classifier output `preds`. */
  function Identify(preds: seq<Prediction>, date: string, time: string): (r: Option<DetectedFace>)
  {
    Recognize(Scan(preds), date, time)
  }

  /**
   A reported detection comes from the first entry with the maximum probability:
   that probability is its confidence and is above the threshold, and its name
   and position are the table's for that entry's label.
   */
  lemma IdentifySound(preds: seq<Prediction>, date: string, time: string)
    requires Identify(preds, date, time).Some?
    ensures var f := Identify(preds, date, time).value;
            exists k :: FirstMaximum(preds, k)
                        && preds[k].className in UserDatabase
                        && f == DetectedFace(UserDatabase[preds[k].className].name,
                                             UserDatabase[preds[k].className].position,
                                             date, time, None, preds[k].probability)
                        && f.confidence > ConfidenceThreshold
  {
    ScanAttained(preds);
  }

  /** A first maximum above the threshold whose label is in the table is reported, with that entry's data. */
  lemma IdentifyComplete(preds: seq<Prediction>, k: int, date: string, time: string)
    requires FirstMaximum(preds, k)
    requires preds[k].probability > ConfidenceThreshold
    requires preds[k].className in UserDatabase
    ensures Identify(preds, date, time)
            == Some(DetectedFace(UserDatabase[preds[k].className].name,
                                 UserDatabase[preds[k].className].position,
                                 date, time, None, preds[k].probability))
  {
    ScanIsFirstMaximum(preds, k);
  }

  /** Nothing is reported when no probability is strictly above the threshold (exactly 0.85 included). */
  lemma IdentifyBelowThreshold(preds: seq<Prediction>, date: string, time: string)
    requires forall i :: 0 <= i < |preds| ==> preds[i].probability <= ConfidenceThreshold
    ensures Identify(preds, date, time) == None
  {
    if Scan(preds).highestProb > 0.0 {
      ScanAttained(preds);
    }
  }

  /** Nothing is reported when the first maximum's label has no table entry. */
  lemma IdentifyUnknownLabel(preds: seq<Prediction>, k: int, date: string, time: string)
    requires FirstMaximum(preds, k)
    requires preds[k].className !in UserDatabase
    ensures Identify(preds, date, time) == None
  {
    if preds[k].probability > 0.0 {
      ScanIsFirstMaximum(preds, k);
    } else {
      ScanNothingPositive(preds);
    }
  }

  /** Consecutive classifier runs are strictly more than the throttle interval apart. */
  ghost predicate Spaced(times: seq<int>)
  {
    forall i :: 0 < i < |times| ==> times[i - 1] + ThrottleMs < times[i]
  }

  /**
   The overlay component's state: the throttle reference `lastPredictionTime`,
   the locally shown detection, the loading flag, and whether a model has been
   stored (`modelRef.current !== null`). `runTimes` records, for the proof, the
   clock readings at which the classifier was called.
   */
  class FaceDetectionOverlay {
    var lastPredictionTime: int
    var detectedFace: Option<DetectedFace>
    var isModelLoading: bool
    var modelLoaded: bool
    ghost var runTimes: seq<int>

    ghost predicate Valid()
      reads this
    {
      && (modelLoaded ==> !isModelLoading)
      && Spaced(runTimes)
      && (runTimes == [] ==> lastPredictionTime == 0)
      && (runTimes != [] ==> runTimes[0] > ThrottleMs && lastPredictionTime == runTimes[|runTimes| - 1])
      && (detectedFace.Some? ==> FromTable(detectedFace.value))
    }

    /** Mounting: no model yet, loading, nothing shown, throttle reference 0. */
    constructor ()
      ensures Valid()
      ensures lastPredictionTime == 0 && detectedFace == None
      ensures isModelLoading && !modelLoaded && runTimes == []
    {
      lastPredictionTime := 0;
      detectedFace := None;
      isModelLoading := true;
      modelLoaded := false;
      runTimes := [];
    }

    /**
     The end of the one-shot model load: a model is stored only on success, and
     the loading flag is cleared either way.
     */
    method FinishLoading(succeeded: bool)
      requires Valid()
      modifies this
      ensures Valid()
      ensures modelLoaded == (old(modelLoaded) || succeeded) && !isModelLoading
      ensures lastPredictionTime == old(lastPredictionTime) && detectedFace == old(detectedFace)
      ensures runTimes == old(runTimes)
    {
      if succeeded {
        modelLoaded := true;
      }
      isModelLoading := false;
    }

    /**
     One frame of the `predict` loop. `classified` says whether the classifier was
     called; `reported` is what was passed to `onFaceDetected`, if anything.
     */
    method Predict(videoReadyState: int, now: int, predictions: seq<Prediction>, date: string, time: string)
      returns (classified: bool, reported: Option<DetectedFace>)
      requires Valid()
      modifies this
      ensures Valid()
      ensures classified <==> modelLoaded && videoReadyState == HaveEnoughData && now - old(lastPredictionTime) > ThrottleMs
      ensures classified ==> lastPredictionTime == now && runTimes == old(runTimes) + [now]
      ensures !classified ==> lastPredictionTime == old(lastPredictionTime) && runTimes == old(runTimes)
      ensures reported == (if classified then Identify(predictions, date, time) else None)
      ensures detectedFace == (if reported.Some? then reported else old(detectedFace))
      ensures modelLoaded == old(modelLoaded) && isModelLoading == old(isModelLoading)
    {
      classified, reported := false, None;
      if modelLoaded && videoReadyState == HaveEnoughData {
        if now - lastPredictionTime > ThrottleMs {
          lastPredictionTime := now;
          runTimes := runTimes + [now];
          classified := true;
          var highestProb, bestClass := ArgMax(predictions);
          reported := Recognize(Best(highestProb, bestClass), date, time);
          if reported.Some? {
            detectedFace := reported;
          }
        }
      }
    }
  }

  /** A probability of exactly 0.85 for a known label is not a detection. */
  lemma ThresholdIsStrict(date: string, time: string)
    ensures Identify([Prediction("Dhavin", 0.85)], date, time) == None
  {
    IdentifyBelowThreshold([Prediction("Dhavin", 0.85)], date, time);
  }

  /** On a tie the earlier entry wins, even when only the later label is known. */
  lemma TieKeepsEarlier(date: string, time: string)
    ensures Identify([Prediction("Stranger", 0.9), Prediction("Joko", 0.9)], date, time) == None
  {
    var preds := [Prediction("Stranger", 0.9), Prediction("Joko", 0.9)];
    assert FirstMaximum(preds, 0);
    IdentifyUnknownLabel(preds, 0, date, time);
  }
}
