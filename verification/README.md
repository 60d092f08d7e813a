# WallProjections core, modelled in Dafny

WallProjections is a museum exhibit system. A camera watches a wall, and a
projector draws circular hotspots onto it. When a visitor holds a finger on a
hotspot long enough, the display shows that hotspot's media: a description, a
slideshow of images and videos. The hand-tracking and calibration scripts are
Python, and the display and editor are a C# (Avalonia) application.

This project models the logic that sits between the raw inputs (camera
frames, fingertip positions, file contents, the clock) and what gets shown:

* **Hotspot detection (Python).**
  * `DwellButton`: the dwell counter `_Button`, which rises to 1 over 1.5 s
    while a finger is held and falls back at the same rate.
  * `DwellHotspot` and `LegacyHotspot`: the two dwell hotspots built on it.
  * `EdgeHotspot`: the edge-detecting hotspot, which reports "pressed" and
    "unpressed" transitions.
  * `Geometry`: their shared point-in-circle test.
* **Calibration (Python).**
  * `Calibration`: ArUco detections become an id-keyed dictionary. The
    markers seen by the camera are matched with the projected ones on shared
    ids, at least 4 shared ids are required, and points are converted between
    projector, camera and normalised coordinates.
  * `LegacyCalibration`: the earlier grid-based calibrator.
* **Video capture (Python).** `VideoCapture`: the life cycle of the capture
  thread and frame normalisation to 480 rows.
* **Activation (C#).** `HotspotHandler`: the state machine that turns
  press and release notifications into "activating", "activated",
  "deactivating" and "forcefully deactivated". It includes resuming a
  cancelled activation with the progress it had made.
* **Display (C#).**
  * `HotspotView` and `HotspotDisplay`: the hotspot circles and their
    states.
  * `ImageView`: the image carousel and its slideshow.
  * `Layouts`: the layout factories, and the provider that picks the first
    factory compatible with a hotspot's media.
  * `Config`: the stored configuration and its two matrix forms.
* **Editor (C#).**
  * `Editor`: the hotspot list with smallest-free-id allocation.
  * `PositionEditor` and `EditorPositionEditor`: the two position editors.
  * `Import`: importing a title and description from a text file, whose text
    is split into lines as `File.ReadAllLines` does.

Clocks, file contents, detectors, homography estimation and timers are
parameters or events:

* Time is an explicit `now` argument: seconds as `real` in the Python
  modules, milliseconds as `int` in the C# modules.
* A timer firing is a method call (`Tick`, `TimerFired`).
* Loading a file is a function `path -> Option<value>`.
* `cv2.findHomography` is a function parameter.

Points where the model follows the code as written:

* `Calibration.Transform` models `cv2.transform`
  (`Scripts/Helper/Calibrator.py:90, 106`). It applies the 3x3 matrix to
  `(x, y, 1)` and keeps the first two components, with no perspective
  division. The legacy `Scripts/Calibrator.py` uses `cv2.perspectiveTransform`
  instead (lines 100, 116).
* The C# error layout is `ErrorViewModel(title, message)`, with the title
  defaulting to "Error" (`LayoutProvider.cs:93-94`). The model follows this.
  The layout-provider test expects a description layout, but that test
  predates the error layout.
* `HotspotProjectionViewModel` on the secondary screen carries the `State`
  of its abstract base class (`AbsHotspotProjectionViewModel.cs:46-50`,
  initially `None`). The model gives it that state. The boolean
  `IsActivating`/`IsDeactivating` fields of the concrete class are an older
  form.

## Model

| member | source | states |
|---|---|---|
| Geometry.SquaredDistance | WallProjections/Scripts/Hotspot.py:135 | the squared distance is never negative and is zero from a point to itself |
| Geometry.IsPointInside | WallProjections/Scripts/Hotspot.py:131-136 | the squared-distance test: the centre is inside, and a point inside lies within the radius of the centre along each axis |
| Geometry.InsideFacts | WallProjections/Scripts/Hotspot.py:131-136 | the centre is inside its own hotspot; the test is symmetric in centre and point; the sign of the radius does not matter (only its square is compared) |
| Geometry.Trunc | WallProjections/Scripts/Helper/Calibrator.py:107 | Python `int()` on a float: truncation toward zero, within one unit of the value on the side of zero |
| DwellButton.Progress | WallProjections/Scripts/Hotspot.py:58-66 | the pressed amount stays in [0, 1] when the snapshot does; counting up it never falls below min(1, snapshot), counting down it never rises above max(0, snapshot) |
| DwellButton.ProgressAtSwitch | WallProjections/Scripts/Hotspot.py:58-66 | no jump at a switch: at elapsed time 0 the amount equals the snapshot |
| DwellButton.FullExactlyAfterRemainder | WallProjections/Scripts/Hotspot.py:62-64 | counting up from a snapshot, the amount reaches exactly 1 if and only if (1 - snapshot) * 1.5 s have elapsed |
| DwellButton.HoldFromZero | WallProjections/Scripts/Hotspot.py:11-14 | from 0, holding for the 1.5 s cooldown gives 1, and holding half as long gives 0.5 |
| DwellButton.ClockStepBackLeavesRange | WallProjections/Scripts/Hotspot.py:58-66 | when the clock reads 3 s before the switch, counting up from 0.5 gives -1.5 and counting down gives 2.5, both outside [0, 1] |
| DwellButton.ProgressMonotonic | WallProjections/Scripts/Hotspot.py:62-66 | within one direction the amount is non-decreasing counting up and non-increasing counting down |
| DwellButton.Button.constructor | WallProjections/Scripts/Hotspot.py:27-35 | a new button: no finger over it, amount 0, switch time now |
| DwellButton.Button.PressedAmount | WallProjections/Scripts/Hotspot.py:58-66 | the amount lies between 0 and 1 at any time after the last switch; at any time at all it is at most 1 counting up and at least 0 counting down |
| DwellButton.Button.Press | WallProjections/Scripts/Hotspot.py:37-47 | a switch to pressed snapshots the current amount at now; a repeated press changes nothing; the amount at now becomes min(1, its old value), so it is unchanged whenever it was in [0, 1]; the snapshot stays in [0, 1] while the clock has not stepped back; returns true exactly when the amount is 1 |
| DwellButton.Button.UnPress | WallProjections/Scripts/Hotspot.py:49-56 | a switch to un-pressed snapshots the current amount at now; a repeated un-press changes nothing; the amount at now becomes max(0, its old value), so it is unchanged whenever it was in [0, 1]; the snapshot stays in [0, 1] while the clock has not stepped back |
| DwellHotspot.Hotspot.constructor | WallProjections/Scripts/Hotspot.py:74-82 | not activated, activation time 0, a fresh button at amount 0 |
| DwellHotspot.Hotspot.FingerInside | WallProjections/Scripts/Hotspot.py:116-119 | true if and only if some point lies inside the circle |
| DwellHotspot.Hotspot.IsInside | WallProjections/Scripts/Hotspot.py:131-136 | `_is_point_inside` against the projector position; the position itself is inside |
| DwellHotspot.Hotspot.Update | WallProjections/Scripts/Hotspot.py:110-129 | an activated hotspot changes nothing and reports false; otherwise the button is pressed if a point is inside and un-pressed if none is, the amount at now is clamped to at most 1 (pressed) or at least 0 (un-pressed) and so kept whenever it was in [0, 1], the button stays well formed while the clock has not stepped back, and the button is untouched unless its direction switched, in which case it snapshots that amount at now; true is reported exactly when that press finds the button full, and then the hotspot is activated at now |
| DwellHotspot.Hotspot.Activate | WallProjections/Scripts/Hotspot.py:138-140 | latches the activation and records now as the activation time |
| DwellHotspot.Hotspot.Deactivate | WallProjections/Scripts/Hotspot.py:142-143 | clears the latch and keeps the activation time |
| LegacyHotspot.HotSpot.constructor | WallProjections/Scripts/HotSpot.py:62-70 | not activated, activation time 0, a fresh button |
| LegacyHotspot.HotSpot.FingerInside | WallProjections/Scripts/HotSpot.py:103-106 | true if and only if some point lies inside the circle at (x, y) |
| LegacyHotspot.HotSpot.IsInside | WallProjections/Scripts/HotSpot.py:120-125 | `_isPointInside` against (x, y); that point itself is inside |
| LegacyHotspot.HotSpot.Update | WallProjections/Scripts/HotSpot.py:96-117 | same protocol as the dwell hotspot: no-op while activated, else press or un-press keeping the amount at now up to the same clamp, with the button untouched unless its direction switched and then snapshotting that amount at now; activate exactly when a press finds the button full |
| LegacyHotspot.HotSpot.Deactivate | WallProjections/Scripts/HotSpot.py:131-132 | clears the latch |
| EdgeHotspot.Edge | WallProjections/Scripts/Helper/Hotspot.py:34-42 | "pressed" if and only if the flag goes from outside to inside, "unpressed" if and only if it goes from inside to outside, and no event if and only if it is unchanged |
| EdgeHotspot.EventsAlternate | WallProjections/Scripts/Helper/Hotspot.py:23-42 | over any sequence of updates, pressed and unpressed events alternate, starting with the kind that undoes the initial flag, and every event carries the hotspot's id |
| EdgeHotspot.Events | WallProjections/Scripts/Helper/Hotspot.py:23-42 | the events of successive updates: at most one per update, and none while the inside flag never changes |
| EdgeHotspot.Hotspot.constructor | WallProjections/Scripts/Helper/Hotspot.py:16-21 | keeps id, normalised position and radius; initially no fingertip is inside |
| EdgeHotspot.Hotspot.FingertipInside | WallProjections/Scripts/Helper/Hotspot.py:24-29 | true if and only if some fingertip lies inside the circle, although the loop stops at the first one |
| EdgeHotspot.Hotspot.Update | WallProjections/Scripts/Helper/Hotspot.py:23-42 | the remembered flag becomes "some fingertip is inside", and the event is the edge from the old flag to the new one |
| Calibration.Dict.Put | WallProjections/Scripts/Helper/Calibrator.py:50 | dictionary assignment keeps the dictionary well formed, sets the value, and does not move an existing key |
| Calibration.IdentityTransform | WallProjections/Scripts/Helper/Calibrator.py:104-107 | the identity matrix maps every point to itself |
| Calibration.Transform | WallProjections/Scripts/Helper/Calibrator.py:106 | `cv2.transform` on one point: the third matrix row is never used (no perspective division), so a matrix whose first two rows are the identity's fixes every point |
| Calibration.MatchIds | WallProjections/Scripts/Helper/Calibrator.py:61-66 | the ids present in both maps, in the given order, each with both coordinates; nothing matches against an empty map |
| Calibration.Matches | WallProjections/Scripts/Helper/Calibrator.py:61-66 | the matching loop over `from_coords` in insertion order: every match is an id of both dictionaries and carries its coordinate in each |
| Calibration.Sources | WallProjections/Scripts/Helper/Calibrator.py:61-66 | the list of source coordinates is as long as the matches and lists them in order |
| Calibration.Targets | WallProjections/Scripts/Helper/Calibrator.py:61-66 | the list of target coordinates is as long as the matches and lists them in order |
| Calibration.MatchIdsCount | WallProjections/Scripts/Helper/Calibrator.py:61-66 | over distinct ids, the number of matches equals the number of ids present in both dictionaries |
| Calibration.MatchCount | WallProjections/Scripts/Helper/Calibrator.py:61-68 | the number of markers found equals the number of ids the two dictionaries share |
| Calibration.MatchCountSymmetric | WallProjections/Scripts/Helper/Calibrator.py:61-66 | matching in either direction finds the same number of markers |
| Calibration.MatchIdsSound | WallProjections/Scripts/Helper/Calibrator.py:63-66 | every match is an id in both dictionaries, paired with both dictionaries' coordinates for it |
| Calibration.MatchIdsComplete | WallProjections/Scripts/Helper/Calibrator.py:63-66 | every id in both dictionaries is matched |
| Calibration.MatchIdsBounded | WallProjections/Scripts/Helper/Calibrator.py:61-66 | there are never more matches than ids |
| Calibration.MatchIdsKeepsAll | WallProjections/Scripts/Helper/Calibrator.py:61-66 | when every id is in both maps, every id is matched |
| Calibration.MatchIdsAppend | WallProjections/Scripts/Helper/Calibrator.py:63-66 | matching a concatenation gives the matches of each part in order |
| Calibration.GetTransformationMatrix | WallProjections/Scripts/Helper/Calibrator.py:54-76 | the two lists hold the shared markers' coordinates in the source dictionary's order; the call fails with the count if and only if fewer than 4 were found, and otherwise returns the homography of the two lists |
| Calibration.Collect | WallProjections/Scripts/Helper/Calibrator.py:44-51 | the dictionary the detection loop builds, assigning each detection under its id, is well formed: distinct keys in insertion order |
| Calibration.CollectKeys | WallProjections/Scripts/Helper/Calibrator.py:44-51 | its keys are exactly the detected ids |
| Calibration.CollectLast | WallProjections/Scripts/Helper/Calibrator.py:47-50 | a repeated id holds the corner of its last detection |
| Calibration.CollectOrder | WallProjections/Scripts/Helper/Calibrator.py:47-50 | its keys are in the order the ids were first detected, which is the order the matching loop visits them |
| Calibration.Detect | WallProjections/Scripts/Helper/Calibrator.py:44-46 | no detections give the empty dictionary, and the dictionary is always well formed |
| Calibration.DetectArucos | WallProjections/Scripts/Helper/Calibrator.py:33-51 | the loop builds `Detect` of the detections: empty without detections; otherwise the keys are exactly the detected ids in first-detection order, and each id maps to the corner of its last detection |
| Calibration.Calibrate | WallProjections/Scripts/Helper/Calibrator.py:24-30 | fails with the number found if and only if fewer than 4 detected ids are projector markers; otherwise the homography from the shared markers' camera coordinates to their projector coordinates, in detection order; a photo without markers always fails with 0 found |
| Calibration.IdentityConversions | WallProjections/Scripts/Helper/Calibrator.py:93-114 | with identity matrices, `norm_to_proj` scales by the camera resolution and truncates, and `proj_to_norm` divides by it |
| Calibration.Calibrator.ProjToCam | WallProjections/Scripts/Helper/Calibrator.py:85-91 | `proj_to_cam` applies the inverse matrix; with an identity inverse the camera point is the pixel itself |
| Calibration.Calibrator.ProjToNorm | WallProjections/Scripts/Helper/Calibrator.py:93-99 | `proj_to_norm` gives the camera point as fractions of the camera resolution: scaling back by the resolution gives `proj_to_cam` |
| Calibration.Calibrator.CamToProj | WallProjections/Scripts/Helper/Calibrator.py:101-107 | `cam_to_proj` applies the matrix and truncates to int: each coordinate is within one pixel of the exact transformed one |
| Calibration.Calibrator.NormToProj | WallProjections/Scripts/Helper/Calibrator.py:109-114 | `norm_to_proj` scales by the camera resolution and converts: each coordinate is within one pixel of the transformed scaled point |
| Calibration.NormRoundTrip | WallProjections/Scripts/Helper/Calibrator.py:93-114 | with identity matrices, normalised -> projector -> normalised undershoots a non-negative point by less than one camera pixel and never overshoots |
| Calibration.NormRoundTripExample | WallProjections.Test/Scripts/Helper/test_Calibrator.py:65-72 | the case that the source's `test_norm_to_proj_to_norm` checks (test_Calibrator.py:65-72), 500x300 with identity matrices and (0.5, 0.5), lands on a whole pixel and round-trips exactly |
| LegacyCalibration.GridShape | WallProjections/Scripts/Calibrator.py:19-23 | the projected grid is a well-formed dictionary of 72 markers with ids 0 to 71 |
| LegacyCalibration.GridPositionsDistinct | WallProjections/Scripts/Calibrator.py:22 | no two markers of the grid share a corner |
| LegacyCalibration.MarkerGrid | WallProjections/Scripts/Calibrator.py:18-23 | the nested loop builds exactly that grid: code 12 i + j at (25 + 150 i, 25 + 150 j) |
| LegacyCalibration.GridPos | WallProjections/Scripts/Calibrator.py:22 | marker `code` at (25 + 150 (code / 12), 25 + 150 (code % 12)); every marker of the grid, 100 pixels square, fits on the 1080 by 1920 image `_drawArucos` paints (Calibrator.py:44-49) |
| LegacyCalibration.Grid | WallProjections/Scripts/Calibrator.py:18-23 | the projected-coordinates dictionary: codes 0 to 71 in insertion order at their grid positions, a well-formed dictionary |
| LegacyCalibration.GetTransformationMatrix | WallProjections/Scripts/Calibrator.py:75-93 | None if and only if fewer than 4 markers are shared, otherwise the homography of the shared coordinates |
| LegacyCalibration.Calibrator.constructor | WallProjections/Scripts/Calibrator.py:6-10 | keeps the screen size; no camera size and no matrices yet |
| LegacyCalibration.Calibrator.SkipCalibration | WallProjections/Scripts/Calibrator.py:13-14 | both matrices become the identity |
| LegacyCalibration.BothOrNeither | WallProjections/Scripts/Calibrator.py:34-37 | the shared markers are as many in either direction, so the two matrices are both estimated or both absent, absent exactly when fewer than 4 ids are shared; with no markers detected, neither is |
| LegacyCalibration.EstimateMatrices | WallProjections/Scripts/Calibrator.py:18-37 | the two matrices of `calibrate`: absent exactly when fewer than 4 ids are shared between the grid and the detections, otherwise the homography of the grid-order matches and of the detection-order matches; both or neither, and neither without detections |
| LegacyCalibration.Calibrator.Calibrate | WallProjections/Scripts/Calibrator.py:17-37 | the photo's rows and columns are stored as camera width and height; the projector-to-camera matrix is absent exactly when fewer than 4 detected ids are grid markers, and otherwise the homography from the grid's coordinates to the detected ones in grid order; the camera-to-projector matrix is the homography the other way, in detection order; both are present or absent together, and absent with no detections |
| VideoCapture.TargetOrDefault | WallProjections/Scripts/Helper/VideoCapture.py:48 | `target or DEFAULT_TARGET`: a truthy target is kept, and None, 0 or "" gives camera 0 |
| VideoCapture.BackendOrDefault | WallProjections/Scripts/Helper/VideoCapture.py:49 | `backend or DEFAULT_BACKEND`: a non-zero backend is kept, otherwise the default |
| VideoCapture.PropertiesOrDefault | WallProjections/Scripts/Helper/VideoCapture.py:50 | `properties or DEFAULT_PROPERTIES`: a non-empty dictionary is kept, otherwise {FPS: 30} |
| VideoCapture.Resize | WallProjections/Scripts/Helper/VideoCapture.py:102-103 | a frame is rescaled to 480 rows, and its width is the truncated proportional width |
| VideoCapture.ScaledWidthBounds | WallProjections/Scripts/Helper/VideoCapture.py:102 | the truncated width w/h*480 is the largest n with n*h <= w*480 |
| VideoCapture.VideoCapture.constructor | WallProjections/Scripts/Helper/VideoCapture.py:40-55 | arguments are replaced by defaults as above; no thread, no frame, not stopping |
| VideoCapture.VideoCapture.Start | WallProjections/Scripts/Helper/VideoCapture.py:60-85 | starting while running fails and changes nothing; no frame within 600 polls stops the thread and fails with a timeout; otherwise the capture runs with that frame |
| VideoCapture.VideoCapture.ProducerIteration | WallProjections/Scripts/Helper/VideoCapture.py:98-111 | a successful read stores the resized frame and a failed one keeps the old frame; the producer continues exactly when it is not stopping |
| VideoCapture.VideoCapture.GetCurrentFrame | WallProjections/Scripts/Helper/VideoCapture.py:121-132 | returns the frame if and only if there is one, and otherwise an error |
| VideoCapture.VideoCapture.Stop | WallProjections/Scripts/Helper/VideoCapture.py:134-145 | stopping when not running fails and changes nothing; otherwise the thread is gone, the frame is cleared and the stopping flag stays set |
| HotspotHandler.NewTask | WallProjections/Helper/HotspotHandler.cs:240-250 | a fresh task for the id: started now, no progress, not done, not cancelled |
| HotspotHandler.Wait | WallProjections/Helper/HotspotHandler.cs:313-320 | the wait is within [0, 5000] ms: the full time without progress or with negative progress, the rest of it for progress below it, and 0 beyond it |
| HotspotHandler.WaitAntitone | WallProjections/Helper/HotspotHandler.cs:317-320 | more progress never means a longer wait |
| HotspotHandler.Cancel | WallProjections/Helper/HotspotHandler.cs:337-345 | records the cancellation time and how long the activation had been running; nothing else changes |
| HotspotHandler.Resume | WallProjections/Helper/HotspotHandler.cs:260-288 | fails if and only if the activation was never cancelled; otherwise a new activation of the same id starts now, with progress 0 after a finished activation and otherwise the old progress minus the time since cancellation |
| HotspotHandler.ResumeCreditsHeldTime | WallProjections/Helper/HotspotHandler.cs:273-279 | a release after held ms and a re-press gap ms later leave a wait of 5000 - held + gap |
| HotspotHandler.Handler.constructor | WallProjections/Helper/HotspotHandler.cs:65-71 | nothing activated, no current task, no cancelled tasks |
| HotspotHandler.Handler.Pressed | WallProjections/Helper/HotspotHandler.cs:78-100 | ignored for the activated hotspot or while a task runs; otherwise announces "activating", resumes the cancelled task of that id or starts a fresh one, and drops the id and the finished previous task from the cancelled tasks; the handler invariant is preserved |
| HotspotHandler.Handler.Released | WallProjections/Helper/HotspotHandler.cs:108-131 | acts only on an unfinished current task for the id: it is cancelled and filed under its id, there is no current task, and "deactivating" is announced unless the id is the activated hotspot |
| HotspotHandler.Handler.TimerFired | WallProjections/Helper/HotspotHandler.cs:297-332 | once an unfinished activation's wait has elapsed, the previously activated hotspot is forcefully deactivated, the activation's hotspot becomes activated, and the activation is done; otherwise nothing changes |
| HotspotHandler.Handler.InvokeActivatedAndUpdateCurrent | WallProjections/Helper/HotspotHandler.cs:158-170 | forcefully deactivates the previously activated hotspot, if any, then activates the id |
| Editor.Thumbnails | WallProjections/ViewModels/Editor/EditorViewModel.cs:164-173 | one thumbnail per path, in order, with item i at row i / columns and column i % columns |
| Editor.ThumbnailCellsDistinct | WallProjections/ViewModels/Editor/EditorViewModel.cs:172-173 | no two media items share a grid cell |
| Editor.EditorHotspot.constructor | WallProjections/ViewModels/Editor/EditorViewModel.cs:143-150 | a new hotspot with the id, empty title and description, and no media |
| Editor.EditorHotspot.FromData | WallProjections/ViewModels/Editor/EditorViewModel.cs:157-174 | the id and title of the configured hotspot, the description file's text, and thumbnails of its image and video paths |
| Editor.Ids | WallProjections/ViewModels/Editor/EditorViewModel.cs:66 | the ids of the hotspots, in order |
| Editor.Insert | WallProjections/ViewModels/Editor/EditorViewModel.cs:66 | inserting into a sorted list gives a sorted permutation with the element added |
| Editor.SortAscending | WallProjections/ViewModels/Editor/EditorViewModel.cs:66 | `OrderBy`: a sorted permutation of the ids |
| Editor.SmallestFreeId | WallProjections/ViewModels/Editor/EditorViewModel.cs:64-70 | the result is non-negative and unused, and every smaller non-negative id is in use |
| Editor.RemoveFirst | WallProjections/ViewModels/Editor/EditorViewModel.cs:80 | removes the first occurrence when present, keeping the others in their order, and changes nothing otherwise |
| Editor.FirstOrNull | WallProjections/ViewModels/Editor/EditorViewModel.cs:81 | null if and only if the list is empty, and otherwise the first element |
| Editor.EditorViewModel.constructor | WallProjections/ViewModels/Editor/EditorViewModel.cs:87-90 | no hotspots and nothing selected |
| Editor.EditorViewModel.FromConfig | WallProjections/ViewModels/Editor/EditorViewModel.cs:96-101 | one hotspot view model per configured hotspot, in order, and the first one selected |
| Editor.EditorViewModel.SetSelectedHotspot | WallProjections/ViewModels/Editor/EditorViewModel.cs:32-49 | ignored while an item is updating; otherwise selects the value and shows its description, or empty media for no selection |
| Editor.EditorViewModel.AddHotspot | WallProjections/ViewModels/Editor/EditorViewModel.cs:62-75 | appends one empty hotspot whose id is the smallest free non-negative id, keeps the others, and selects it; the updating flag is kept, and while an item is updating the selection, described hotspot and media stay as they were |
| Editor.EditorViewModel.DeleteHotspot | WallProjections/ViewModels/Editor/EditorViewModel.cs:78-82 | removes the first occurrence of the hotspot and selects the first remaining one, or none; the updating flag is kept, and while an item is updating the selection, described hotspot and media stay as they were, even when the deleted hotspot was selected |
| PositionEditor.PositionedHotspot.constructor | WallProjections/ViewModels/SecondaryScreens/PositionEditorViewModel.cs:133 | a hotspot holding the given position |
| PositionEditor.Max | WallProjections/ViewModels/SecondaryScreens/PositionEditorViewModel.cs:100 | `Math.Max`: one of the two arguments, and at least both |
| PositionEditor.PositionEditorViewModel.constructor | WallProjections/ViewModels/SecondaryScreens/PositionEditorViewModel.cs:20-40 | not editing, no selection, position and radius zero |
| PositionEditor.PositionEditorViewModel.SetSelectedHotspot | WallProjections/ViewModels/SecondaryScreens/PositionEditorViewModel.cs:63-73 | selects the value and loads its centre and its radius clamped at 0, or zeros for no selection; the radius stays non-negative |
| PositionEditor.PositionEditorViewModel.SetIsInEditMode | WallProjections/ViewModels/SecondaryScreens/PositionEditorViewModel.cs:48-60 | ignored without a selection; otherwise sets the mode and resets the edited values to the stored position |
| PositionEditor.PositionEditorViewModel.SetPosition | WallProjections/ViewModels/SecondaryScreens/PositionEditorViewModel.cs:104-113 | moves the edited centre only in edit mode with a selection, and otherwise changes nothing |
| PositionEditor.PositionEditorViewModel.ChangeRadius | WallProjections/ViewModels/SecondaryScreens/PositionEditorViewModel.cs:116-124 | in edit mode with a selection the radius becomes max(r + delta, 0), and otherwise nothing changes |
| PositionEditor.PositionEditorViewModel.UpdateSelectedHotspot | WallProjections/ViewModels/SecondaryScreens/PositionEditorViewModel.cs:127-138 | in edit mode with a selection, stores the edited (X, Y, R) in the hotspot and leaves edit mode, after which the edited values equal the stored ones; otherwise nothing changes |
| EditorPositionEditor.PositionEditorViewModel.constructor | WallProjections/ViewModels/Editor/PositionEditorViewModel.cs:25-45 | not editing, no selection, position and radius zero |
| EditorPositionEditor.PositionEditorViewModel.SetSelectedHotspot | WallProjections/ViewModels/Editor/PositionEditorViewModel.cs:69-82 | copies the stored centre and radius as they are, with no clamp, or zeros for no selection |
| EditorPositionEditor.PositionEditorViewModel.SetIsInEditMode | WallProjections/ViewModels/Editor/PositionEditorViewModel.cs:54-66 | ignored without a selection; otherwise sets the mode and resets to the stored position |
| EditorPositionEditor.PositionEditorViewModel.SetPosition | WallProjections/ViewModels/Editor/PositionEditorViewModel.cs:113-121 | moves the edited centre only in edit mode with a selection |
| EditorPositionEditor.PositionEditorViewModel.ChangeRadius | WallProjections/ViewModels/Editor/PositionEditorViewModel.cs:124-131 | through the clamping setter: afterwards the radius is max(r + delta, 0) |
| EditorPositionEditor.PositionEditorViewModel.UpdateSelectedHotspot | WallProjections/ViewModels/Editor/PositionEditorViewModel.cs:134-144 | stores the edited values in the hotspot and leaves edit mode, only in edit mode with a selection |
| Import.StartIndex | WallProjections/ViewModels/Editor/ImportViewModel.cs:42 | everything before the index is white space, and the character at it is not |
| Import.EndIndex | WallProjections/ViewModels/Editor/ImportViewModel.cs:42 | everything from the index on is white space, and the character before it is not |
| Import.Trim | WallProjections/ViewModels/Editor/ImportViewModel.cs:42-45 | `string.Trim` gives a slice of the input with only white space cut at each end, neither starting nor ending with white space |
| Import.TrimEmptyIffBlank | WallProjections/ViewModels/Editor/ImportViewModel.cs:24-25 | a string trims to empty if and only if `IsNullOrWhiteSpace` holds for it |
| Import.TrimmedIsFixed | WallProjections/ViewModels/Editor/ImportViewModel.cs:42 | a string without white space at either end is its own trim |
| Import.TrimIdempotent | WallProjections/ViewModels/Editor/ImportViewModel.cs:42-45 | trimming twice equals trimming once |
| Import.Join | WallProjections/ViewModels/Editor/ImportViewModel.cs:44 | joining one line gives that line |
| Import.LineEnd | WallProjections/ViewModels/Editor/ImportViewModel.cs:39 | the first line ends at the first line break, or at the end of the text |
| Import.ReadAllLines | WallProjections/ViewModels/Editor/ImportViewModel.cs:39 | `File.ReadAllLines`: no lines if and only if the text is empty, and no line holds a line break |
| Import.SingleLine | WallProjections/ViewModels/Editor/ImportViewModel.cs:39 | a non-empty text without line breaks is one line |
| Import.FirstLineLf | WallProjections/ViewModels/Editor/ImportViewModel.cs:39 | a line ended by a line feed comes first, then the lines of the rest |
| Import.FirstLineCrLf | WallProjections/ViewModels/Editor/ImportViewModel.cs:39 | a line ended by a carriage return and line feed comes first, then the lines of the rest |
| Import.TrailingBreakAddsNoLine | WallProjections/ViewModels/Editor/ImportViewModel.cs:39 | a line break at the end of the file adds no empty last line |
| Import.ReadAllLinesOfJoin | WallProjections/ViewModels/Editor/ImportViewModel.cs:39-44 | reading back lines joined with line feeds gives the lines, when none holds a line break and the last is not empty |
| Import.DescriptionEditor.constructor | WallProjections/ViewModels/Editor/ImportViewModel.cs:10 | an editor holding the given title and description |
| Import.ImportViewModel.constructor | WallProjections/ViewModels/Editor/ImportViewModel.cs:16-19 | keeps the description editor it belongs to |
| Import.ImportViewModel.IsImportSafe | WallProjections/ViewModels/Editor/ImportViewModel.cs:22-34 | each of the four warning levels holds if and only if the title and description are blank or not as that level says |
| Import.ImportViewModel.ImportFromFile | WallProjections/ViewModels/Editor/ImportViewModel.cs:37-46 | an empty file changes nothing; otherwise, over the file's lines, the title is the trimmed first line, and the description is the rest joined with line feeds and trimmed, or empty for one line |
| ImageView.Loaded | WallProjections/ViewModels/Display/ImageViewModel.cs:96-115 | no more images than paths, and exactly as many if and only if every path loads |
| ImageView.LoadedMembers | WallProjections/ViewModels/Display/ImageViewModel.cs:98-115 | an image is loaded if and only if some path loads to it |
| ImageView.LoadedAppend | WallProjections/ViewModels/Display/ImageViewModel.cs:98-117 | loading two lists of paths one after the other gives the images of the first, then those of the second |
| ImageView.Advance | WallProjections/ViewModels/Display/ImageViewModel.cs:134 | the next index is a valid index: one more than the current one, wrapping to 0 after the last |
| ImageView.AdvanceBy | WallProjections/ViewModels/Display/ImageViewModel.cs:132-135 | n ticks never produce a negative index |
| ImageView.AdvanceByIsModular | WallProjections/ViewModels/Display/ImageViewModel.cs:134 | n ticks from a valid index move (index + n) mod count, so count ticks return to the starting image |
| ImageView.ImageViewModel.constructor | WallProjections/ViewModels/Display/ImageViewModel.cs:82-91 | no images, index 0, no slideshow, not disposed |
| ImageView.ImageViewModel.ImageCount | WallProjections/ViewModels/Display/ImageViewModel.cs:61 | the number of loaded images |
| ImageView.ImageViewModel.Image | WallProjections/ViewModels/Display/ImageViewModel.cs:165-176 | nothing if and only if there are no images, the fallback if and only if the index is out of range, and otherwise the image at the index |
| ImageView.ImageViewModel.HasImages | WallProjections/ViewModels/Display/ImageViewModel.cs:181-183 | true if and only if `Image` shows something |
| ImageView.ImageViewModel.AddImages | WallProjections/ViewModels/Display/ImageViewModel.cs:94-119 | appends the images that loaded, in order, and reports full success if and only if every path loaded; the index and slideshow are untouched |
| ImageView.ImageViewModel.StartSlideshow | WallProjections/ViewModels/Display/ImageViewModel.cs:122-136 | does nothing while a slideshow runs or with at most one image; otherwise runs at the given or default interval |
| ImageView.ImageViewModel.Tick | WallProjections/ViewModels/Display/ImageViewModel.cs:132-135 | while a slideshow runs, the index advances by one with wrap-around and a picture is shown |
| ImageView.ImageViewModel.StopSlideshow | WallProjections/ViewModels/Display/ImageViewModel.cs:139-145 | no slideshow runs afterwards; nothing else changes |
| ImageView.ImageViewModel.ClearImages | WallProjections/ViewModels/Display/ImageViewModel.cs:148-160 | stops the slideshow and drops every image, so nothing is shown; the index is kept |
| ImageView.ImageViewModel.Dispose | WallProjections/ViewModels/Display/ImageViewModel.cs:186-195 | the first call stops and clears, and later calls change nothing |
| Layouts.BuiltInFor | WallProjections/ViewModels/Display/Layouts/DescriptionViewModel.cs:61-67 | exactly one of the four built-in factories accepts any given media |
| Layouts.CompatibleIffChosen | WallProjections/ViewModels/Display/Layouts/ImagePlusVideoWithDescriptionViewModel.cs:88-94 | a built-in factory accepts media if and only if it is the one chosen for that media |
| Layouts.IsCompatibleData | WallProjections/ViewModels/Display/Layouts/ImageWithDescriptionViewModel.cs:70-76 | each factory's `IsCompatibleData`: a layout showing images accepts only media with images, one showing videos only media with videos, and the description layout only media with neither; another factory decides for itself |
| Layouts.FirstCompatible | WallProjections/ViewModels/Display/Layouts/LayoutProvider.cs:77-81 | the index of the first compatible factory; none if and only if no factory is compatible |
| Layouts.LaterFactoriesIgnored | WallProjections/ViewModels/Display/Layouts/LayoutProvider.cs:77-81 | once a compatible factory is found, factories after it do not matter |
| Layouts.BuiltInsAlwaysAccept | WallProjections/ViewModels/Display/Layouts/LayoutProvider.cs:36-42 | whatever order the four built-ins are discovered in, one of them is found, and it is the one chosen for the media |
| Layouts.DiscoveredNeverErrs | WallProjections/ViewModels/Display/Layouts/LayoutProvider.cs:75-84 | with the built-in factories, no media falls through to the error layout |
| Layouts.DescriptionViewModel.constructor | WallProjections/ViewModels/Display/Layouts/DescriptionViewModel.cs:30-34 | holds the title and description |
| Layouts.DescriptionViewModel.SetTitle | WallProjections/ViewModels/Display/Layouts/DescriptionViewModel.cs:39-43 | sets the title and keeps the description |
| Layouts.DescriptionViewModel.SetDescription | WallProjections/ViewModels/Display/Layouts/DescriptionViewModel.cs:48-52 | sets the description and keeps the title |
| Layouts.VideoPlayer.constructor | WallProjections/ViewModels/Display/Layouts/VideoWithDescriptionViewModel.cs:57 | a fresh video player with an empty playlist, not disposed |
| Layouts.VideoPlayer.PlayVideos | WallProjections/ViewModels/Display/Layouts/VideoWithDescriptionViewModel.cs:59 | the playlist becomes the given paths |
| Layouts.VideoPlayer.Dispose | WallProjections/ViewModels/Display/Layouts/VideoWithDescriptionViewModel.cs:64 | the player is disposed |
| Layouts.ImageWithDescriptionViewModel.constructor | WallProjections/ViewModels/Display/Layouts/ImageWithDescriptionViewModel.cs:46-61 | a new carousel holds the images that loaded, with a 5 s slideshow when there is more than one; deactivation uses the given time or the default |
| Layouts.VideoWithDescriptionViewModel.constructor | WallProjections/ViewModels/Display/Layouts/VideoWithDescriptionViewModel.cs:46-60 | a new player plays the video paths; deactivation after the videos uses the given time or the default |
| Layouts.VideoWithDescriptionViewModel.Dispose | WallProjections/ViewModels/Display/Layouts/VideoWithDescriptionViewModel.cs:62-66 | disposes the player |
| Layouts.ImagePlusVideoWithDescriptionViewModel.constructor | WallProjections/ViewModels/Display/Layouts/ImagePlusVideoWithDescriptionViewModel.cs:51-71 | a carousel of the loaded images, with the slideshow at the default interval when there is more than one, and a new player playing the videos |
| Layouts.ImagePlusVideoWithDescriptionViewModel.Dispose | WallProjections/ViewModels/Display/Layouts/ImagePlusVideoWithDescriptionViewModel.cs:73-78 | disposes the carousel (clearing it on first disposal) and the player |
| Layouts.ConstructLayout | WallProjections/ViewModels/Display/Layouts/ImagePlusVideoWithDescriptionViewModel.cs:97-105 | each factory builds its own kind of layout from the media, out of new objects |
| Layouts.CreateLayout | WallProjections/ViewModels/Interfaces/Display/Layouts/LayoutFactory.cs:40-45 | throws `ArgumentException` if and only if the media is incompatible, and otherwise builds the factory's layout |
| Layouts.LayoutProvider.constructor | WallProjections/ViewModels/Display/Layouts/LayoutProvider.cs:30-63 | the factories of the layouts namespace: the four built-ins |
| Layouts.LayoutProvider.WithFactories | WallProjections/ViewModels/Display/Layouts/LayoutProvider.cs:69-72 | keeps the given factories |
| Layouts.LayoutProvider.GetLayout | WallProjections/ViewModels/Display/Layouts/LayoutProvider.cs:75-84 | the layout of the first compatible factory, or the error layout with the standard message when none is compatible |
| Config.Rows | WallProjections/Models/Config.cs:86-99 | the rows of a matrix: as many as its height, each as wide as the matrix, entry by entry |
| Config.ToMatrix | WallProjections/Models/Config.cs:71-81 | fails with an index error if and only if there are no rows or some row is longer than row 0; otherwise a rectangle as wide as row 0 that copies each row and zero-fills past its end |
| Config.ToMatrixOfRectangular | WallProjections/Models/Config.cs:71-81 | a non-empty rectangular array converts to itself |
| Config.ConvertToArray | WallProjections/Models/Config.cs:86-99 | the nested loops copy the matrix row by row |
| Config.ConvertToMatrix | WallProjections/Models/Config.cs:71-81 | the nested loops fail exactly when `ToMatrix` does, and otherwise fill a new matrix with its rows |
| Config.RoundTrip | WallProjections/Models/Config.cs:71-99 | converting a matrix with at least one row to rows and back gives the same matrix |
| Config.NoRowsNoRoundTrip | WallProjections/Models/Config.cs:73 | a matrix with no rows does not round-trip: reading row 0 throws |
| Config.FindHotspot | WallProjections/Models/Config.cs:64 | none if and only if no hotspot has the id; otherwise the first hotspot with it |
| Config.Config.constructor | WallProjections/Models/Config.cs:34-39 | the JSON form is the matrix's rows, so the two forms agree |
| Config.Config.Make | WallProjections/Models/Config.cs:47-59 | stores forms that agree |
| Config.Config.GetHotspot | WallProjections/Models/Config.cs:62-65 | the first hotspot with the id, which is a configured hotspot with that id |
| Config.ConvertedAgrees | WallProjections/Models/Config.cs:54 | the converted matrix agrees with the JSON rows it came from |
| Config.FromJson | WallProjections/Models/Config.cs:47-59 | a null matrix fails first, then a conversion error, then null hotspots; success if and only if none of these occur, with agreeing forms |
| HotspotView.HotspotProjection.constructor | WallProjections/ViewModels/Display/HotspotViewModel.cs:62-69 | a circle at the hotspot's centre, twice its radius across, not lit |
| HotspotView.HotspotViewModel.constructor | WallProjections/ViewModels/Display/HotspotViewModel.cs:58-71 | one new, distinct, unlit projection per configured hotspot, in order; not visible |
| HotspotView.HotspotViewModel.ActivateHotspot | WallProjections/ViewModels/Display/HotspotViewModel.cs:28-37 | afterwards a projection is lit if and only if it belongs to the id, so none is lit for an unknown id |
| HotspotView.HotspotViewModel.DeactivateHotspots | WallProjections/ViewModels/Display/HotspotViewModel.cs:40-45 | afterwards no projection is lit |
| HotspotView.HotspotViewModel.DisplayHotspots | WallProjections/ViewModels/Display/HotspotViewModel.cs:48-51 | the projections become visible |
| HotspotDisplay.HotspotProjectionViewModel.constructor | WallProjections/ViewModels/SecondaryScreens/HotspotProjectionViewModel.cs:72-77 | the bounding square's corner (X - R, Y - R), diameter 2R, and no state |
| HotspotDisplay.GetHotspots | WallProjections/ViewModels/SecondaryScreens/HotspotDisplayViewModel.cs:89-94 | fails if and only if two hotspots share an id; otherwise a new projection per id, keyed by exactly those ids, with different ids holding different projections, each with its hotspot's id, corner (X - R, Y - R), diameter 2R and no state |
| HotspotDisplay.StateAfter | WallProjections/ViewModels/SecondaryScreens/HotspotDisplayViewModel.cs:104-184 | each of the four handler events maps to its own state, one to one |
| HotspotDisplay.HotspotDisplayViewModel.constructor | WallProjections/ViewModels/SecondaryScreens/HotspotDisplayViewModel.cs:42-64 | the projections as built, visible from the start |
| HotspotDisplay.HotspotDisplayViewModel.SetState | WallProjections/ViewModels/SecondaryScreens/HotspotDisplayViewModel.cs:106-115 | only the state of the id's circle changes, and an unknown id changes nothing |
| HotspotDisplay.HotspotDisplayViewModel.OnActivating | WallProjections/ViewModels/SecondaryScreens/HotspotDisplayViewModel.cs:104-118 | the id's circle becomes Activating, and every other state is kept |
| HotspotDisplay.HotspotDisplayViewModel.OnActivated | WallProjections/ViewModels/SecondaryScreens/HotspotDisplayViewModel.cs:126-140 | the id's circle becomes Active, and every other state is kept |
| HotspotDisplay.HotspotDisplayViewModel.OnDeactivating | WallProjections/ViewModels/SecondaryScreens/HotspotDisplayViewModel.cs:148-162 | the id's circle becomes Deactivating, and every other state is kept |
| HotspotDisplay.HotspotDisplayViewModel.OnForcefullyDeactivated | WallProjections/ViewModels/SecondaryScreens/HotspotDisplayViewModel.cs:170-184 | the id's circle goes back to None, and every other state is kept |
| HotspotDisplay.HotspotDisplayViewModel.Handle | WallProjections/ViewModels/SecondaryScreens/HotspotDisplayViewModel.cs:53-56 | each handler event sets its hotspot's circle to the event's state, and nothing else changes |
| HotspotDisplay.HotspotDisplayViewModel.DeactivateHotspots | WallProjections/ViewModels/SecondaryScreens/HotspotDisplayViewModel.cs:67-72 | every circle is in state None afterwards |
| HotspotDisplay.HotspotDisplayViewModel.DisplayHotspots | WallProjections/ViewModels/SecondaryScreens/HotspotDisplayViewModel.cs:75-78 | the circles are visible |

## Left out

- Camera and projector I/O are outside the model: taking photos, OpenCV windows, drawing circles and ArUco markers, and the mediapipe hand tracker. Detector output and photo dimensions are parameters instead.
- Homography estimation (`cv2.findHomography`) and matrix inversion (`np.linalg.inv`) are outside the model, because they are numerical library code. The first is a function parameter; the inverse is given with the matrix.
- Floating-point rounding is not modelled. Coordinates are `real`, and the `np.float32` conversions are omitted.
- Python's `int()` is modelled as exact truncation.
- The drawing-only members `_onscreen_radius`, `_inner_radius` and `_onScreenXY` are not modelled, because they only compute pixel sizes for rendering.
- Threads, locks and the `lock`/`Mutex` sections are not modelled; every operation is atomic.
- The race between a task's wait and a release on another thread is not modelled. A timer firing is the `TimerFired` event.
- The start-up wait of `VideoCapture.start` is modelled only as the poll at which the first frame arrives. The one-second settle delay and the `RECORD_VIDEO` writer are left out.
- `take_photo` (VideoCapture.py:147-155) is not modelled on its own. It is start, get frame and stop, which are modelled.
- The opening of the OpenCV capture and its failure, the property-setting loop and the frame-rate cap for test videos (VideoCapture.py:88-96, 113-115) are left out, because they are library calls and sleeps.
- VideoCapture.VideoCapture.Stop: the stopping flag is never reset, so after a restart the producer stops after its first frame. This is modelled as written, not as a restartable capture.
- Bitmaps, the fallback image asset and `File.OpenRead` are a `load` function from path to an optional bitmap. The distinction between a missing file and another load failure only affects logging, so it is left out.
- Disposing individual bitmaps in `ClearImages` has no observable state in the model.
- The interval of `IImageViewModel.DefaultImageInterval` and `DefaultDeactivationTime` are not part of this model. They are fields of the `Env` parameter.
- The deactivation countdown (`DeactivateAfterAsync`) is recorded only as the chosen delay.
- ImageView.ImageViewModel.StartSlideshow: the `ImageCount == 0` exception (ImageViewModel.cs:127-128) cannot be reached after the guard on line 124, so it is not modelled.
- The video view model (LibVLC playback, `AllVideosFinished`, volume) is reduced to `Layouts.VideoPlayer`, which records the playlist and disposal.
- The welcome, message and error layouts are values (`GetWelcomeLayout`, `GetMessageLayout`, `GetErrorLayout`) without contracts of their own, because their classes only hold their text. `GetLayout` falls back on the error layout.
- Reflection-based factory discovery (LayoutProvider.cs:36-42) is modelled as the four built-in factories in a fixed order, since the discovery order is not specified. `Layouts.BuiltInsAlwaysAccept` shows the choice does not depend on that order. The release-build filtering of broken factories is left out.
- The old `ImagePlusDescriptionViewModel` is not part of this model, because it is superseded by the factory-based layouts.
- Config.RoundTrip: requires at least one row. A matrix without rows does not round-trip, because `ConvertToMatrix` reads row 0; `Config.NoRowsNoRoundTrip` shows this.
- Config.ConvertToMatrix: null rows of the deserialised `double[][]` are not modelled. A null row 0 or a later null row makes the source throw NullReferenceException at `array[0].Length` or `array[i].Length` (Config.cs:73-76); the model's rows are `seq<real>` values and cannot be null. The same holds for `Config.FromJson`, which calls it.
- JSON serialisation itself is left out; the model starts from the deserialised arrays, where `None` stands for null.
- `HotspotProjectionViewModel`'s animation durations (`AnimationDuration`, the `Set*` methods of its base class) are left out; only the state is modelled.
- The unsubscription in `HotspotDisplayViewModel.Dispose` is left out, since subscriptions are modelled as the `Handle` dispatch.
- `UnselectedHotspots` and the `HotspotPositionChanged` notification of the position editors are left out, because they only feed the view.
- The description editor and media editors of `EditorViewModel` are reduced to the selected hotspot and the two media lists they show.
- Editor.EditorHotspot.FromData: reading the description file is an input string, so the missing-file case (marked TODO in the source) is not modelled.
- `Hotspots.IsItemUpdating` is a flag the caller sets; its propagation from item property changes is left out.
- Object identity of hotspot view models follows Dafny references; property-change notifications are not modelled.
- `Import.ReadAllLines` takes the file's text as already decoded: encoding detection and byte order marks are not modelled, and reading the file itself is the parameter `text`.
- DwellButton.Button.Press: the clock is read once per call as `now`, while `press` reads `time.time()` up to three times (Hotspot.py:43, 44, 47); the model treats these reads as one instant.
- DwellButton.Button.UnPress: the clock is read once per call as `now`, while `un_press` reads `time.time()` twice (Hotspot.py:54, 55); the model treats these reads as one instant.
- DwellHotspot.Hotspot.Update: reads the clock once per call as `now`, like the button. A clock that steps back (`time.time()` does not promise otherwise) is accepted; after such a step the amount can leave [0, 1], as `DwellButton.ClockStepBackLeavesRange` shows, and the [0, 1] invariant is promised only while the clock has not stepped back.
- LegacyHotspot.HotSpot.Update: the same single clock read and the same backward-step behaviour as `DwellHotspot.Hotspot.Update`.
- The `ActivationTask` test-only constructor (HotspotHandler.cs:357-369) is not modelled.
- EditorPositionEditor.PositionEditorViewModel.SetSelectedHotspot: the radius is copied without a clamp, as written, so a negative stored radius makes the edited radius negative. The model makes no non-negativity claim for this variant.
- HotspotHandler.Cancel: the recorded progress is only this task's running time, not including progress it resumed with. This is modelled as written.
- LegacyCalibration.Calibrator.Calibrate: the script imports only `cv2` and `numpy` (Calibrator.py:1-2) yet uses the unbound names `aruco` (lines 25, 46, 59 and the annotations at 39 and 52) and `takePhoto` (line 32). As given it raises NameError at line 25, after building the grid and before assigning the camera size or either matrix; before Python 3.14 the annotations already raise NameError on import. The model assumes `aruco` is `cv2.aruco` and `takePhoto` is the function of the same name in calibrate.py, and describes what `calibrate` does under those bindings.
- LegacyCalibration.Calibrator.Calibrate: the photo's shape (rows, columns) is stored as (width, height), as written. The script's `proj_to_cam` and `cam_to_proj`, which use `cv2.perspectiveTransform` and swap the coordinates back, are not modelled.
