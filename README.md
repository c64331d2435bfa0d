# Face-recognition attendance: detection and confirmation model

This project models the decision core of a camera-based attendance page. A live
video frame is classified by a pretrained image classifier into
`(className, probability)` pairs. The overlay component runs that classifier at
most once per 500 ms. It picks the most probable label and reports a detected
person when the probability is strictly above 0.85 and the label is in a fixed
identity table. The page keeps the latest detection. On the user's submit it
appends that detection to an in-memory attendance history and opens a
confirmation modal. Closing the modal clears the detection.

Modules, one per source file:

- `UserTable` (`user_table.dfy`) is the identity table of `app/constant/data.ts`. It is a constant `map<string, UserData>` with a lookup function.
- `Overlay` (`overlay.dfy`) covers `app/components/overlay.tsx`:
  - the `DetectedFace` record;
  - the argmax scan as the method `ArgMax`, proved against the specification function `Scan`;
  - the threshold-and-table decision `Recognize`, and `Identify`, which composes the two;
  - the class `FaceDetectionOverlay`, whose `Predict` method is one frame of the `predict` loop: throttle, scan, decide, report.
- `Page` (`page.tsx` is modelled in `page.dfy`):
  - the page's three state cells as `PageState`;
  - the handlers as events of a transition function `Step`;
  - the class `AttendancePage`, whose handler methods are proved to perform exactly those steps;
  - `RecentFirst`, the reversed history list as displayed.
- `Session` (`session.dfy`) wires the overlay's reports into the page and proves the end-to-end scenario.
- `Wrappers` holds `Option`, used for the source's `T | null` cells.

Probabilities are `real` and clock readings are `int` milliseconds. The detection logic (overlay.tsx:70-80) only compares probabilities. The elapsed time `now - lastPredictionTime` is exact because the clock values are integer milliseconds. The clock reading, the video element's `readyState`, the classifier output and the formatted date and time strings are parameters of `Predict`.

Four behaviours of the code are easy to miss. The model follows each one:

- The throttle test is strictly `> 500` ms (overlay.tsx:65).
- Nothing catches a rejected `model.predict` (overlay.tsx:68), so a failing classification ends the loop.
- Submit is guarded only by `detectedFace` being non-null (page.tsx:23). Detections keep replacing it while the modal is open (page.tsx:18-20), and another submit in that state appends again.
- Closing the modal clears only the page's `detectedFace` (page.tsx:31). The overlay's own `detectedFace`, shown in its banner, is kept until the next detection.

## Model

| member | source | states |
|---|---|---|
| UserTable.Lookup | app/constant/data.ts:7-23 | exactly the labels "Dhavin", "Nono" and "Joko" have an entry, with ids KT001/KT002/KT003, names and positions as in the table; every other label, the empty one included, has none |
| UserTable.TableLabels | app/constant/data.ts:7-23 | the table's key set is exactly {"Dhavin", "Nono", "Joko"}, three entries |
| UserTable.IdsDistinct | app/constant/data.ts:9-19 | two different labels never map to the same id |
| Overlay.ScanUpperBound | app/components/overlay.tsx:70-78 | the scan's highest probability is at least 0 and at least every prediction's probability |
| Overlay.ScanNothingPositive | app/components/overlay.tsx:70-78 | the scan ends at probability 0 exactly when no prediction is positive, and then the label is still "" |
| Overlay.ScanAttained | app/components/overlay.tsx:70-78 | a positive result is the probability and label of the first prediction reaching the maximum (ties keep the earlier entry) |
| Overlay.ScanIsFirstMaximum | app/components/overlay.tsx:70-78 | conversely, whenever prediction k is the first positive maximum, the scan yields exactly k's probability and label |
| Overlay.ArgMax | app/components/overlay.tsx:70-78 | the `forEach` loop starting from 0 and "" and replacing only on strictly greater computes the scan, bounding every probability from above |
| Overlay.Recognize | app/components/overlay.tsx:80-90 | a detection is built exactly when the best probability is strictly above 0.85 and the best label is a table key; it carries a table person's name and position and the best probability as confidence |
| Overlay.IdentifySound | app/components/overlay.tsx:70-90 | a reported detection comes from the first maximal prediction, whose label is in the table, with that entry's name and position, that prediction's probability (above 0.85) as confidence, and the given date and time |
| Overlay.IdentifyComplete | app/components/overlay.tsx:70-90 | a first maximal prediction above 0.85 with a known label is always reported, with that entry's data |
| Overlay.IdentifyBelowThreshold | app/components/overlay.tsx:80 | when no probability is strictly above 0.85 nothing is reported |
| Overlay.IdentifyUnknownLabel | app/components/overlay.tsx:80 | when the first maximal prediction's label is not in the table nothing is reported, whatever later entries say |
| Overlay.ThresholdIsStrict | app/components/overlay.tsx:80 | ("Dhavin", 0.85) is not a detection |
| Overlay.TieKeepsEarlier | app/components/overlay.tsx:73-80 | with two entries at 0.9, an unknown label first and "Joko" second, the unknown label wins the scan and nothing is reported |
| Overlay.FaceDetectionOverlay.constructor | app/components/overlay.tsx:23-27 | mounting starts with no model, loading, no detection and throttle reference 0 |
| Overlay.FaceDetectionOverlay.FinishLoading | app/components/overlay.tsx:30-43 | a model is stored only when loading succeeds; the loading flag is cleared on success and on failure |
| Overlay.FaceDetectionOverlay.Predict | app/components/overlay.tsx:57-99 | the classifier runs exactly when a model is stored, readyState is 4 and more than 500 ms passed since the last run; a run sets the reference to now, so successive runs are more than 500 ms apart; a throttled frame changes nothing and reports nothing; a hit sets the local detection and reports the same face; a miss leaves the local detection unchanged; a held detection is always a table person above 0.85 |
| Page.Step | app/page.tsx:18-32 | every handler keeps the old history as a prefix, and history grows by one exactly when submit finds a current detection |
| Page.FaceDetectedReplaces | app/page.tsx:18-20 | the latest detection wins: a detection followed by another leaves the same state as the second alone |
| Page.SubmitGuardedByButton | app/page.tsx:77 | the submit button is enabled exactly when a detection is held, and a submit changes the page exactly when the button is enabled |
| Page.RepeatedSubmitRecordsAgain | app/page.tsx:22-27 | two submits of the same held detection record it twice; repeated confirmations are not merged |
| Page.CloseClearsDetection | app/page.tsx:29-32 | after a close the submit button is disabled and a submit is a no-op, so a cleared detection cannot be submitted again |
| Page.RunKeepsModalFace | app/page.tsx:18-32 | every run of handlers keeps "modal open implies a detection is held", so the modal's render guard against a missing face (modal.tsx:17) never hides an open modal |
| Page.RunAppendOnly | app/page.tsx:18-32 | over any sequence of handler calls history is append-only: the old history is a prefix of the new one, at most one entry per call |
| Page.RunDrawsFromDelivered | app/page.tsx:18-32 | whatever a run records or holds as detection was already there or was delivered by a detection during the run |
| Page.HistoryFromDelivered | app/page.tsx:10-32 | from the initial page every history entry is a face some `handleFaceDetected` call delivered |
| Page.HistoryFromTable | app/page.tsx:10-32 | if only table people are delivered, the history holds only table people |
| Page.AttendancePage.constructor | app/page.tsx:10-12 | the page starts with no detection, modal closed and empty history |
| Page.AttendancePage.HandleFaceDetected | app/page.tsx:18-20 | sets the detection to the new face; modal flag and history unchanged |
| Page.AttendancePage.HandleAttendanceSubmit | app/page.tsx:22-27 | with no detection nothing changes; otherwise the detection is appended to history and the modal opens, detection kept |
| Page.AttendancePage.HandleModalClose | app/page.tsx:29-32 | modal closed and detection cleared, history unchanged |
| Page.AttendancePage.RecentFirst | app/page.tsx:183 | the listed history (a copy reversed in place) has the history's length and shows entry i at position length-1-i, most recent first |
| Session.DeliveredFromTable | app/components/overlay.tsx:80-93 | every detection a classified frame hands to `onFaceDetected` is a table person with confidence above 0.85 |
| Session.SessionHistoryFromTable | app/page.tsx:18-32 | for any interleaving of classified frames, submits and closes from the initial page, every history entry is a table person above 0.85, and an open modal always has a detection |
| Session.DhavinScenario | app/page.tsx:18-32 | predictions [("Dhavin", 0.92)] report "Dhavin Fasya Alviyanto", IPTEK, confidence 0.92; detection then submit give a one-entry history and an open modal; close then gives no detection, a closed modal and still one entry |
| Session.AttendanceSession | app/components/overlay.tsx:57-99 | on the stateful components: after a successful load a frame at 1000 ms records Dhavin, a frame at 1200 ms is throttled, and submit then close leave exactly Dhavin's entry, a closed modal and no detection |
| Session.LoadFailureSession | app/components/overlay.tsx:35-41 | after a failed model load a frame never classifies and reports nothing |

## Left out

- Camera acquisition and release (app/components/camera.tsx) are browser device I/O with no decision logic.
- The confirmation modal (app/components/modal.tsx) is presentation only. Its render guard `!isOpen || !face` is not modelled separately.
- The classifier (`tmImage.load`, `model.predict`) is a foreign library. The load outcome is the parameter of `FinishLoading`. The prediction list is a parameter of `Predict`.
- Frame scheduling (`requestAnimationFrame`, `cancelAnimationFrame`) and canvas sizing and clearing are left out. Each frame is one call of `Predict`. Ticks do not overlap, because the `await` comes before the reschedule.
- The effect guard that starts the loop only with a video element, a canvas and a finished load (overlay.tsx:49-53) is not modelled separately. A stored model implies the load finished (part of `FaceDetectionOverlay.Valid`), and the page mounts the overlay only with a video (page.tsx:60).
- Date and time formatting (`toLocaleDateString`, `toLocaleTimeString`) is left out. The formatted strings are opaque parameters.
- A rejected `model.predict` promise ends the loop. The model does not cover that path: it has no error recovery, and the source has none either.
- Probabilities are exact reals. IEEE-754 rounding and NaN are not modelled, and only comparisons occur.
- Recognize: treats `USER_DATABASE[bestClass]` as own-key membership. In JavaScript the lookup is also truthy for names inherited from `Object.prototype` (such as "constructor"), and the model does not capture that case. Classifier labels are the trained class names.
- Rendering (JSX, styling, the tips list) is not modelled. The displayed history count is the history's length.
- The displayed confidence percentage (`confidence * 100`, overlay.tsx:139 and modal.tsx:74) is rendering and is not modelled.
