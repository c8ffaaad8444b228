# Vehicle access gate — Dafny model

This project models the core of a vehicle access-control system. It covers five parts:

- **The sidecar OCR step** (`fullprocess_backend/main.py`):
  - the IoU overlap measure;
  - the greedy confidence-ordered overlap filter;
  - the assembly of a Tunisian plate string around the TUNISIA logo box;
  - the per-camera store of the latest reading, which is updated only when the text changes.
- **The dashboard camera feed** (`frontend/src/components/CameraFeed.jsx`): it polls the sidecar. A plate is announced only after five consecutive identical readings. Reading `stablePlate` as current state (see "## Left out"), it is never announced twice in a row.
- **The Spring backend**:
  - the pending-detection map;
  - QR-driven automatic access with its 20-second window;
  - the guard's force-open, force-close and reject;
  - the barrier flag;
  - the append-only tracking log and the INSIDE/OUTSIDE status derived from it;
  - the guard and input HTTP controllers;
  - the two-sided user/car link.
- **The admin dashboard form** (`frontend/src/pages/AdminDashboard.jsx`):
  - the plate checkbox toggle;
  - the form built when the edit modal opens;
  - the request built on save.
- **An end-to-end gate scenario** (`gate.dfy`): a posted plate followed by a QR scan, wired the way the application wires its services.

Each source file keeps its own form.

- **Stateful services and entities are classes.** This covers `BarrierService`, `TrackingService`, `PlateDetectionService`, `GuardService`, the two controllers, the sidecar store, the camera feed, and `User`/`Car`. Their fields are updated in place by methods with `modifies` clauses. Spring's singleton wiring becomes `const` references, and a `Valid()` predicate states that the wiring is shared.
- **Pure computations are functions with lemmas.** This covers the IoU, the parser assembly, the status derivation, the debounce step and the admin form.
- **Loops become methods with loop invariants.** These are `findMatchingPendingPlate`, the overlap filter and the box formatting. Each such method is proved equal to the function that specifies it.

Time is an integer parameter `now`, in seconds. A `null` that the source may receive is an `Option`. A Java or JavaScript exception that the source lets escape, or catches and then drops, is a `None` result or an unchanged state.

Modules follow the source: `Wrappers`, `Sequences` (the one subsequence predicate, shared by the OCR filter and the admin form), `Domain`, `Barrier`, `Tracking`, `PlateDetection`, `Guard`, `GuardApi`, `InputApi`, `LatestDetections`, `CameraFeed`, `OcrBoxes`, `PlateParser`, `AdminForm`, `Accounts`, `Gate`.

The services see cars and users as the values of `Domain` (`Car`, `UserRecord`): read-only catalog rows, as a repository lookup returns them. `Accounts` models the JPA entities `User` and `Car` themselves, as objects whose link sets `addCar`/`removeCar` update in place. The two are separate views of the same tables: no member converts one into the other, because no core operation moves from one view to the other.

## Behaviour worth knowing

The model follows the code, with one exception: it reads the camera feed's `stablePlate` as current state (see "## Left out").

- **The camera feed never clears its announced plate on a reset** (`CameraFeed.jsx:37, 49`). Reading `stablePlate` as current state, the same plate seen again after it leaves the view is therefore not announced again. `CameraFeed.NoReannouncement` proves this reading's behaviour.
- **A repeated camera post refreshes the 20-second QR window instead of being ignored.** The post overwrites the pending entry with a new timestamp (`PlateDetectionService.java:40`).
- **Guard actions on a plate that is not pending still log and succeed** (`GuardService.java:26-30, 42-46`). Nothing signals that the plate was not pending.
- **There is no auto-close timer.** The barrier is a plain flag; once open, it stays open until the guard forces it closed (`GuardService.java:34`, the only caller of `close`).
- **The direction is not tracked through the flow.** The input controller drops the posted direction, so every pending entry faces ENTER (`InputController.java:21`). Automatic access always logs AUTOMATIC_OPEN, whatever the direction (`PlateDetectionService.java:87, 93`). Occupancy therefore changes to INSIDE only through AUTOMATIC_OPEN or FORCED_OPEN.
- **On equal timestamps, the first entry in `findAll` order is the latest one.** This follows from `Stream.max` keeping the earlier element on ties. The model takes `findAll` to return the log in insertion order.

## Model

| member | source | states |
|---|---|---|
| `Barrier.BarrierService.constructor` | backend/src/main/java/com/example/accesscontrol/application/BarrierService.java:11 | a new barrier is closed |
| `Barrier.BarrierService.Open` | backend/src/main/java/com/example/accesscontrol/application/BarrierService.java:13-16 | after opening, the barrier is open, whatever its prior state |
| `Barrier.BarrierService.Close` | backend/src/main/java/com/example/accesscontrol/application/BarrierService.java:18-21 | after closing, the barrier is closed, whatever its prior state |
| `Barrier.BarrierService.GetStatus` | backend/src/main/java/com/example/accesscontrol/application/BarrierService.java:23-25 | returns the last value written and changes nothing |
| `Barrier.IdempotenceScenario` | backend/src/main/java/com/example/accesscontrol/application/BarrierService.java:13-21 | opening twice, then closing twice, leaves the barrier as one open then one close would; status reads in between change nothing |
| `Tracking.TrackingService.constructor` | backend/src/main/java/com/example/accesscontrol/application/TrackingService.java:18-20 | a new service starts with an empty log |
| `Tracking.TrackingService.LogAction` | backend/src/main/java/com/example/accesscontrol/application/TrackingService.java:22-25 | appends exactly one entry `(user, car, action, now)`; earlier entries stay as they were |
| `Tracking.TrackingService.GetHistory` | backend/src/main/java/com/example/accesscontrol/application/TrackingService.java:27-29 | returns the whole log |
| `Tracking.TrackingService.GetCompanyCarsStatus` | backend/src/main/java/com/example/accesscontrol/application/TrackingService.java:31-43 | one row per input car, in input order, each paired with that car and with its status derived from the whole log |
| `Tracking.CompanyCarsStatus` | backend/src/main/java/com/example/accesscontrol/application/TrackingService.java:35-43 | the report has the cars' length and the i-th row is about the i-th car |
| `Tracking.LatestLogSpec` | backend/src/main/java/com/example/accesscontrol/application/TrackingService.java:36-39 | no latest entry exactly when no entry is about the plate; otherwise the pick has a maximal timestamp among the plate's entries and is the first entry with that timestamp |
| `Tracking.NeverLoggedIsOutside` | backend/src/main/java/com/example/accesscontrol/application/TrackingService.java:36-41 | a car that no entry is about is OUTSIDE |
| `Tracking.StatusOfSpec` | backend/src/main/java/com/example/accesscontrol/application/TrackingService.java:35-47 | INSIDE if and only if the plate's latest entry is AUTOMATIC_OPEN or FORCED_OPEN, so REJECT and the two closes give OUTSIDE |
| `Tracking.UnrelatedEntryKeepsStatus` | backend/src/main/java/com/example/accesscontrol/application/TrackingService.java:36-37 | appending an entry about another car, or about no car, never changes a car's status |
| `Tracking.LaterEntryDecidesStatus` | backend/src/main/java/com/example/accesscontrol/application/TrackingService.java:35-47 | an entry about the car that is later than every logged entry decides the car's status on its own |
| `Tracking.SeededScenario` | backend/src/main/java/com/example/accesscontrol/infrastructure/DataSeeder.java:57-62 | with the seeded log, 123-ABC and BOSS-01 are INSIDE and LAB-101, whose open is followed by a later close, is OUTSIDE |
| `PlateDetection.FindCar` | backend/src/main/java/com/example/accesscontrol/application/PlateDetectionService.java:85 | finds a car exactly when the plate is in the catalog, and then it is the catalog's car |
| `PlateDetection.FirstPendingPlateSpec` | backend/src/main/java/com/example/accesscontrol/application/PlateDetectionService.java:72-80 | none exactly when none of the cars is pending; otherwise the plate of a pending car, and every car before it is not pending |
| `PlateDetection.QrGrantSpec` | backend/src/main/java/com/example/accesscontrol/application/PlateDetectionService.java:51-70 | a grant names a known user; the plate is that user's first pending car and is less than 20 s old; whenever the user's first pending car is fresh it is granted, and when it is stale nothing is granted |
| `PlateDetection.UnknownUserGetsNothing` | backend/src/main/java/com/example/accesscontrol/application/PlateDetectionService.java:54-55 | an unknown user id is granted nothing |
| `PlateDetection.NoPendingCarGetsNothing` | backend/src/main/java/com/example/accesscontrol/application/PlateDetectionService.java:58-60 | a user with no pending car is granted nothing |
| `PlateDetection.PlateDetectionService.constructor` | backend/src/main/java/com/example/accesscontrol/application/PlateDetectionService.java:21-31 | the service starts with an empty pending map and the given collaborators |
| `PlateDetection.PlateDetectionService.HandleCameraInput` | backend/src/main/java/com/example/accesscontrol/application/PlateDetectionService.java:33-43 | sets the plate's entry to `(now, direction)`, overwriting any earlier entry; nothing else changes |
| `PlateDetection.PlateDetectionService.HandleCameraInputEnter` | backend/src/main/java/com/example/accesscontrol/application/PlateDetectionService.java:46-48 | behaves exactly like the two-argument form with direction ENTER |
| `PlateDetection.PlateDetectionService.FindMatchingPendingPlate` | backend/src/main/java/com/example/accesscontrol/application/PlateDetectionService.java:72-80 | none if and only if none of the user's cars is pending; otherwise a pending plate of one of the user's cars, the first such in car order |
| `PlateDetection.PlateDetectionService.HandleQrInput` | backend/src/main/java/com/example/accesscontrol/application/PlateDetectionService.java:51-70 | a null id fails; on a grant the barrier opens, one AUTOMATIC_OPEN entry with the user and the catalog car is logged, and only that plate leaves pending; with no grant nothing changes |
| `PlateDetection.PlateDetectionService.ProcessAccess` | backend/src/main/java/com/example/accesscontrol/application/PlateDetectionService.java:82-96 | automatic access opens the barrier, logs AUTOMATIC_OPEN whatever the direction, and removes the plate |
| `PlateDetection.PlateDetectionService.GetPendingPlates` | backend/src/main/java/com/example/accesscontrol/application/PlateDetectionService.java:99-108 | the same key set as the pending map, each key with its detection time |
| `PlateDetection.PlateDetectionService.GetPendingPlatesWithDetails` | backend/src/main/java/com/example/accesscontrol/application/PlateDetectionService.java:110-112 | returns the pending map itself |
| `PlateDetection.PlateDetectionService.RemovePending` | backend/src/main/java/com/example/accesscontrol/application/PlateDetectionService.java:114-116 | the plate is gone and every other entry is unchanged |
| `Guard.CarFor` | backend/src/main/java/com/example/accesscontrol/application/GuardService.java:25-28 | a car exactly when a plate is given and is in the catalog, and then it is the catalog car |
| `Guard.WithoutPlate` | backend/src/main/java/com/example/accesscontrol/application/GuardService.java:26-29 | no plate leaves pending as it was; a given plate is dropped and every other entry is kept |
| `Guard.GuardService.constructor` | backend/src/main/java/com/example/accesscontrol/application/GuardService.java:15-21 | the service shares the barrier, the log and the catalog with the detection service |
| `Guard.GuardService.ForceOpen` | backend/src/main/java/com/example/accesscontrol/application/GuardService.java:23-31 | opens the barrier; appends one FORCED_OPEN entry with no user and the plate's catalog car; drops a given plate from pending, whether or not it was pending |
| `Guard.GuardService.ForceClose` | backend/src/main/java/com/example/accesscontrol/application/GuardService.java:33-36 | closes the barrier; appends one FORCED_CLOSE entry with no user and no car; pending is unchanged |
| `Guard.GuardService.Reject` | backend/src/main/java/com/example/accesscontrol/application/GuardService.java:38-47 | the barrier is unchanged; appends one REJECT entry; drops a given plate from pending |
| `GuardApi.CompanyCarsInHistorySpec` | backend/src/main/java/com/example/accesscontrol/api/GuardController.java:59-63 | the list has no duplicates; it holds exactly the COMPANY cars that some entry names; it keeps first-appearance order |
| `GuardApi.NeverLoggedNotListed` | backend/src/main/java/com/example/accesscontrol/api/GuardController.java:57-68 | a company car that was never logged is absent from `/car-status` |
| `GuardApi.GuardController.constructor` | backend/src/main/java/com/example/accesscontrol/api/GuardController.java:24-30 | the controller is wired to the shared services |
| `GuardApi.GuardController.GetPendingPlates` | backend/src/main/java/com/example/accesscontrol/api/GuardController.java:32-35 | `/pending` returns exactly the pending map, with directions and timestamps |
| `GuardApi.GuardController.ForceOpen` | backend/src/main/java/com/example/accesscontrol/api/GuardController.java:37-40 | `/open` has the effect of `forceOpen(optional plate)` |
| `GuardApi.GuardController.ForceClose` | backend/src/main/java/com/example/accesscontrol/api/GuardController.java:42-45 | `/close` has the effect of `forceClose()` |
| `GuardApi.GuardController.Reject` | backend/src/main/java/com/example/accesscontrol/api/GuardController.java:47-50 | `/reject` has the effect of `reject(optional plate)` |
| `GuardApi.GuardController.GetLogs` | backend/src/main/java/com/example/accesscontrol/api/GuardController.java:52-55 | `/logs` returns the whole history |
| `GuardApi.GuardController.GetCompanyCarStatus` | backend/src/main/java/com/example/accesscontrol/api/GuardController.java:57-69 | one row per company car named in the history, in first-appearance order, each with its derived status |
| `GuardApi.GuardController.GetBarrierStatus` | backend/src/main/java/com/example/accesscontrol/api/GuardController.java:71-74 | `/barrier` returns the barrier flag and changes nothing |
| `InputApi.InputController.constructor` | backend/src/main/java/com/example/accesscontrol/api/InputController.java:15-17 | the controller is wired to the detection service |
| `InputApi.InputController.ReceiveCameraInput` | backend/src/main/java/com/example/accesscontrol/api/InputController.java:19-22 | creates or refreshes the posted plate's pending entry with direction ENTER, whatever direction was posted; a body without a plate fails with no change; the barrier and the log never change |
| `InputApi.InputController.ReceiveQrInput` | backend/src/main/java/com/example/accesscontrol/api/InputController.java:24-27 | the posted id goes unchanged to the QR handler, with exactly its effect |
| `Gate.EntryFlowScenario` | backend/src/main/java/com/example/accesscontrol/application/PlateDetectionService.java:33-96 | a posted plate followed 5 s later by its owner's QR scan opens the barrier, logs one AUTOMATIC_OPEN and makes the car INSIDE |
| `Gate.RepeatScanScenario` | backend/src/main/java/com/example/accesscontrol/application/PlateDetectionService.java:58-70 | a second scan after access grants nothing and the log keeps one entry |
| `Gate.QrTimeoutScenario` | backend/src/main/java/com/example/accesscontrol/application/PlateDetectionService.java:63-68 | a scan exactly 20 s after the detection opens nothing, logs nothing and leaves the plate pending |
| `LatestDetections.StoredText` | fullprocess_backend/main.py:433-436 | the stored text of a key, and "" for a missing key |
| `LatestDetections.DetectionStore.constructor` | fullprocess_backend/main.py:57 | the store starts empty |
| `LatestDetections.DetectionStore.GetLatestResult` | fullprocess_backend/main.py:349-360 | a stored key gives its record; an unknown key gives the default record with empty text and timestamp 0 |
| `LatestDetections.DetectionStore.Update` | fullprocess_backend/main.py:429-442 | the key's record is replaced only when the new text differs from the stored text; other keys never change |
| `CameraFeed.StepKeepsCounterOk` | frontend/src/components/CameraFeed.jsx:35-45 | the counter keeps the invariant "count 0 exactly when no plate" |
| `CameraFeed.RunCounts` | frontend/src/components/CameraFeed.jsx:35-50 | from a reset, the count after a sequence of readings is the length of the run of equal readings at its end |
| `CameraFeed.AnnouncedIff` | frontend/src/components/CameraFeed.jsx:35-52 | a reading is announced if and only if it is present, it closes a run of at least five equal readings, and it is not the announced plate |
| `CameraFeed.NoReannouncement` | frontend/src/components/CameraFeed.jsx:36-53 | while the announced plate is p, readings of p mixed with resets announce nothing, because a reset keeps the announced plate |
| `CameraFeed.OneAnnouncementPerRun` | frontend/src/components/CameraFeed.jsx:41-53 | an unbroken run of one plate announces at most once, and not at all when it is already the announced plate |
| `CameraFeed.FiveReadingsScenario` | frontend/src/components/CameraFeed.jsx:4 | after a reset, five readings of one plate announce it once, on the fifth |
| `CameraFeed.Feed.constructor` | frontend/src/components/CameraFeed.jsx:8-11 | a new feed has an empty counter, no announced plate and no last result |
| `CameraFeed.Feed.ProcessDetection` | frontend/src/components/CameraFeed.jsx:35-67 | an absent reading resets, an equal one adds one, another restarts at 1; an emission carrying the feed's direction happens exactly when the count reaches five and the plate is not the announced one |
| `CameraFeed.Feed.OnPoll` | frontend/src/components/CameraFeed.jsx:16-33 | a failed poll, or one whose timestamp is not positive, changes nothing; otherwise the text goes through the debounce and the result is kept |
| `OcrBoxes.AreaAtLeastOne` | fullprocess_backend/main.py:147-148 | a well-formed box has area at least 1 under the inclusive pixel convention |
| `OcrBoxes.IntersectionBounds` | fullprocess_backend/main.py:142-148 | the clamped intersection is non-negative and at most either box's area |
| `OcrBoxes.IouSymmetric` | fullprocess_backend/main.py:140-149 | the IoU is symmetric, including when the division fails |
| `OcrBoxes.IouBounds` | fullprocess_backend/main.py:140-149 | for well-formed boxes the IoU is defined and between 0 and 1 |
| `OcrBoxes.IouSelf` | fullprocess_backend/main.py:140-149 | a well-formed box has IoU 1 with itself |
| `OcrBoxes.AnyOverlapSpec` | fullprocess_backend/main.py:158 | "any overlap" is true only when some kept box overlaps by more than 0.3, and false exactly when every kept box is clear |
| `OcrBoxes.AnyOverlapTotal` | fullprocess_backend/main.py:158 | among well-formed boxes the overlap test never raises |
| `OcrBoxes.GreedyFailureSticks` | fullprocess_backend/main.py:156-159 | once the loop has raised, the whole filter has raised |
| `OcrBoxes.GreedyPrefix` | fullprocess_backend/main.py:156-159 | the boxes kept from a prefix are a prefix of the boxes kept from the whole |
| `OcrBoxes.GreedySubsequence` | fullprocess_backend/main.py:156-159 | the kept boxes are an order-preserving subsequence of the input |
| `OcrBoxes.GreedyNoOverlap` | fullprocess_backend/main.py:156-159 | no two kept boxes have IoU above 0.3 |
| `OcrBoxes.DroppedOverlapAt` | fullprocess_backend/main.py:157-159 | the box at an index the scan does not keep overlaps the box at some earlier index the scan kept; an exact duplicate of a kept box counts as dropped |
| `OcrBoxes.GreedyDroppedOverlap` | fullprocess_backend/main.py:156-159 | every index the scan keeps ends up in the kept list; every index it drops holds a box with IoU above 0.3 with the box at an earlier kept index |
| `OcrBoxes.GreedyTotal` | fullprocess_backend/main.py:156-159 | with well-formed boxes the filter never raises |
| `OcrBoxes.SortBySpec` | fullprocess_backend/main.py:155 | sorting yields a sorted permutation of the input, for both keys |
| `OcrBoxes.SubsequenceSorted` | fullprocess_backend/main.py:155-159 | an order-preserving subsequence of a sorted list is sorted |
| `OcrBoxes.KeptOrigin` | fullprocess_backend/main.py:156-159 | every kept box was appended at some index of the input that the scan kept |
| `OcrBoxes.FilterOverlaps` | fullprocess_backend/main.py:156-159 | the nested loop computes exactly the greedy filter |
| `PlateParser.NatToString` | fullprocess_backend/main.py:171 | the decimal string of a class is non-empty and made of digits |
| `PlateParser.NatToStringValue` | fullprocess_backend/main.py:171 | the string `str(int(...))` gives for a class denotes that class in decimal, with no leading zero |
| `PlateParser.LabelSpec` | fullprocess_backend/main.py:171 | the label is "TUNISIA" exactly for class 10; a digit class is labelled with its single digit |
| `PlateParser.FormatBoxes` | fullprocess_backend/main.py:165-172 | one formatted box per kept box, in order, with its coordinates, confidence, class and label |
| `PlateParser.SelectSpec` | fullprocess_backend/main.py:189-190 | a selection keeps every box on its side, with its multiplicity, and nothing else |
| `PlateParser.FirstLogo` | fullprocess_backend/main.py:162 | the first selected logo is the first logo among the kept boxes |
| `PlateParser.AssemblyWithoutLogo` | fullprocess_backend/main.py:177-183 | with no logo kept, the text is the kept glyphs in ascending x1 order, the left group is the whole text and the right group is empty |
| `PlateParser.AssemblyWithLogo` | fullprocess_backend/main.py:185-195 | with a logo kept, the anchor is the first kept logo; the text is left group + Arabic word + right group; each group is the digits, in ascending x1 order, of the digit boxes strictly on its side of the anchor's x1 |
| `PlateParser.SidesPartition` | fullprocess_backend/main.py:189-190 | a digit box off the anchor's x1 is in exactly one group; a box at the anchor's x1, or a further logo, is in neither |
| `PlateParser.AnchorIsMostConfident` | fullprocess_backend/main.py:185 | in a list sorted by descending confidence, the first logo is the most confident logo |
| `PlateParser.ParsedAnchorIsMostConfident` | fullprocess_backend/main.py:155-185 | the parser's anchor is the most confident kept logo |
| `PlateParser.ParseNeverRaises` | fullprocess_backend/main.py:155-159 | with well-formed boxes, the overlap filter over the sorted boxes never raises |
| `PlateParser.KeptBoxesGuarantees` | fullprocess_backend/main.py:153-159 | the kept boxes are an order-preserving subsequence of the input sorted by descending confidence, in that order; no two overlap; the box at each index the scan drops, duplicates included, overlaps the box at an earlier kept index |
| `PlateParser.ParsePlate` | fullprocess_backend/main.py:151-197 | fails exactly when the filter raises; otherwise formats every kept box and returns the assembled text and groups |
| `PlateParser.RecordOcrResult` | fullprocess_backend/main.py:420-442 | with no boxes, or a parse that raises, the store is unchanged; otherwise the camera's record is replaced exactly when the text differs from the stored one |
| `AdminForm.ListOf` | frontend/src/pages/AdminDashboard.jsx:100 | a missing field is the empty list and an array field is its items |
| `AdminForm.RemoveDrops` | frontend/src/pages/AdminDashboard.jsx:102 | the filter removes every occurrence of the value |
| `AdminForm.RemoveCounts` | frontend/src/pages/AdminDashboard.jsx:102 | the filter keeps every other value as often as it occurred |
| `AdminForm.RemoveKeepsOrder` | frontend/src/pages/AdminDashboard.jsx:102 | the filter keeps the order of the remaining values |
| `AdminForm.RemoveShortens` | frontend/src/pages/AdminDashboard.jsx:102 | the filter never lengthens the list, and shortens it when the value is present |
| `AdminForm.HandleCheckFlips` | frontend/src/pages/AdminDashboard.jsx:99-106 | fails exactly on a truthy non-array field; otherwise flips the plate's membership, treats a missing list as empty and leaves every other field as it was |
| `AdminForm.HandleCheckAppends` | frontend/src/pages/AdminDashboard.jsx:103-104 | an absent plate is appended at the end |
| `AdminForm.HandleCheckRemoves` | frontend/src/pages/AdminDashboard.jsx:101-102 | a present plate loses all its occurrences; the other values keep their multiplicity and order |
| `AdminForm.CheckUncheckRestores` | frontend/src/pages/AdminDashboard.jsx:99-106 | checking an unselected plate and then unchecking it restores the list |
| `AdminForm.Plates` | frontend/src/pages/AdminDashboard.jsx:83 | fails exactly on a null car; otherwise one plate number per car, in order |
| `AdminForm.CarRefs` | frontend/src/pages/AdminDashboard.jsx:66 | one `{plateNumber}` object per plate, in order |
| `AdminForm.CarRefsPlates` | frontend/src/pages/AdminDashboard.jsx:66 | reading the plates back from the car references gives the original plates |
| `AdminForm.OpenModal` | frontend/src/pages/AdminDashboard.jsx:79-91 | new-item defaults are `{role: EMPLOYEE, selectedCars: []}` for users and `{plateType: COMPANY}` otherwise; an edited user keeps all its fields and gains `selectedCars`, which is the plates of its cars or `[]` when it has none; for an edited user the form fails exactly when `cars` is truthy and either not an array or holding a null car; other items are copied |
| `AdminForm.SaveUserPayload` | frontend/src/pages/AdminDashboard.jsx:64-70 | a user's payload has `cars` built from `selectedCars` with the same length and order; `selectedCars` is removed; other fields are kept |
| `AdminForm.SaveOtherPayload` | frontend/src/pages/AdminDashboard.jsx:57-70 | the config form, and any form without a selected-car list, is posted unchanged |
| `AdminForm.OpenSaveRoundTrip` | frontend/src/pages/AdminDashboard.jsx:64-83 | opening an existing user and saving at once posts the same plate list, and keeps the other fields |
| `Accounts.User.constructor` | backend/src/main/java/com/example/accesscontrol/domain/User.java:26-34 | a new user has an empty car set |
| `Accounts.Car.constructor` | backend/src/main/java/com/example/accesscontrol/domain/Car.java:27-38 | a new car has no users |
| `Accounts.User.AddCar` | backend/src/main/java/com/example/accesscontrol/domain/User.java:36-39 | the car joins the user's cars and the user joins the car's users; nothing else about the user changes |
| `Accounts.User.RemoveCar` | backend/src/main/java/com/example/accesscontrol/domain/User.java:41-44 | the car leaves the user's cars and the user leaves the car's users |
| `Accounts.AddRemoveScenario` | backend/src/main/java/com/example/accesscontrol/domain/User.java:36-44 | adding twice equals adding once; adding and then removing a car that was not linked restores both sets; another car is untouched |
| `Accounts.LinkKeepsMutual` | backend/src/main/java/com/example/accesscontrol/domain/User.java:36-39 | linking keeps every user/car link recorded on both sides |
| `Accounts.UnlinkKeepsMutual` | backend/src/main/java/com/example/accesscontrol/domain/User.java:41-44 | unlinking keeps every user/car link recorded on both sides |

## Left out

- **The vision pipeline** is not modelled. This covers plate detection, OCR inference, perspective rectification, image resizing, the synthetic plate drawing and base64 encoding, the `/predict` upload path and MJPEG framing: all of it is foreign libraries and I/O. OCR output is a list of boxes with exact `real` coordinates and confidences and a `nat` class. The rendered synthetic plate is a string parameter.
- **Floating-point rounding and the `float(...)`/`int(...)` conversions** are not modelled. `int(b[5])` is taken to be the class itself.
- **The frame-skipping counter and the "0" webcam key normalisation** of `gen_frames` are not modelled; the store key is a given string.
- **Concurrency is not modelled.** This covers `results_lock`, the `ConcurrentHashMap`, overlapping HTTP requests, and React's asynchronous state updates. Each operation is one atomic step.
- **The camera feed closes over the `stablePlate` of the render that created the polling interval** (`CameraFeed.jsx:16-33, 49`). The model reads the current `stablePlate` instead. As written, the polling callback therefore always sees `stablePlate` as null, so the test at line 49 passes on every non-empty reading. For as long as a run of equal readings lasts, from its fifth reading on, the feed re-announces the plate and re-posts it to `/input/camera` on every poll, and each post refreshes the plate's pending timestamp (`PlateDetectionService.java:40`). `CameraFeed.AnnouncedIff`, `CameraFeed.NoReannouncement`, `CameraFeed.OneAnnouncementPerRun` and `CameraFeed.Feed.ProcessDetection` state the current-state reading, not this.
- **Persistence is reduced to values.** JPA repositories are in-memory maps (cars by plate, users by id) and the log is a sequence; a log entry's id is its position in the sequence. A user's car set is the sequence `cars` of `UserRecord`, in iteration order. `findAll` on the log repository is taken to return the entries in insertion order, which an unsorted Spring Data `findAll` does not promise. The tracking service starts from an empty log; the rows `DataSeeder` inserts appear only in `Tracking.SeededScenario`.
- **Time is an integer number of seconds, passed as `now`.** `Instant.now()` and `time.time()` are not modelled.
- OcrBoxes.SortBySpec: does not state sort stability on equal keys. It proves that the result is sorted and is a permutation; the insertion sort used is stable, but that property is not stated.
- PlateParser.AssemblyWithoutLogo: states the text as the glyphs of some x1-sorted permutation of the kept boxes. On an x1 tie this does not fix the text, though Python's stable `sorted` (and the model's own `SortBy`) does, because stability is not stated.
- PlateParser.AssemblyWithLogo: states each group as the digits of some x1-sorted permutation of its side's boxes. On an x1 tie this does not fix the group, for the same reason.
- AdminForm.HandleCheck: treats a truthy non-array list field as a thrown TypeError. A string field would in fact take JavaScript's string `includes` and spread paths; the dashboard only ever stores arrays there.
- AdminForm.PlateNumberOf: models a car without a `plateNumber` as null. JavaScript yields `undefined`, which serialises as null inside an array.
- **`NaN` and JavaScript's other falsy values are not part of the JSON model** (`Truthy` covers null, booleans, integers, strings, arrays and objects).
- **The HTTP layer is not modelled.** Request failures are modelled only where the code reacts to them: a failed camera poll changes nothing. Responses, alerts, `fetchData` refreshes and `closeModal` are view code outside this model.
- **The admin CRUD services, the global exception handler and the system-config entity are not part of this model.** `DataSeeder` appears only as the data of `Tracking.SeededScenario`.
