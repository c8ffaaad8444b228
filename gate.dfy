/** The whole entry flow, wired as the application wires it: a camera
    post, then QR scans. */
module Gate {

  import opened Wrappers
  import opened Domain
  import opened Barrier
  import opened Tracking
  import opened PlateDetection
  import opened InputApi

  /** A user with one car posts its plate, then scans the QR code within
      the 20 seconds: the barrier opens, the entry is logged once and the
      car counts as inside. */
  method EntryFlowScenario(now: int) returns (barrierOpen: bool, history: seq<TrackingLog>, status: Status)
    ensures barrierOpen && status == Inside
    ensures |history| == 1 && history[0].action == AutomaticOpen && history[0].timestamp == now + 5
    ensures history[0].car.Some? && history[0].car.value.plateNumber == "123TU4567"
  {
    var car := Car("123TU4567", Company, "Partner", 2020, "White");
    var user := UserRecord(1, "Ahmed", "DIRECTOR", [car]);
    var barrier := new BarrierService();
    var tracking := new TrackingService();
    var detection := new PlateDetectionService(map[car.plateNumber := car], map[1 := user], barrier, tracking);
    var input := new InputController(detection);

    var ok := input.ReceiveCameraInput(CamInput(Some(car.plateNumber), Some(Exit)), now);
    assert ok && detection.pending == map[car.plateNumber := PendingDetection(now, Enter)];
    assert !barrier.isOpen;

    assert FirstPendingPlate(user.cars, detection.pending) == Some(car.plateNumber);
    ok := input.ReceiveQrInput(QrInput(Some(1)), now + 5);
    var entry := TrackingLog(Some(user), Some(car), AutomaticOpen, now + 5);
    assert tracking.logs == [entry];
    barrierOpen := barrier.GetStatus();
    history := tracking.GetHistory();
    LaterEntryDecidesStatus([], entry, car.plateNumber);
    assert [] + [entry] == history;
    status := StatusOf(history, car.plateNumber);
  }

  /** Once the scan has let the car through, the plate is no longer
      pending, so a second scan by the same user grants nothing more. */
  method RepeatScanScenario(now: int) returns (barrierOpen: bool, history: seq<TrackingLog>)
    ensures barrierOpen && |history| == 1
  {
    var car := Car("123TU4567", Company, "Partner", 2020, "White");
    var user := UserRecord(1, "Ahmed", "DIRECTOR", [car]);
    var barrier := new BarrierService();
    var tracking := new TrackingService();
    var detection := new PlateDetectionService(map[car.plateNumber := car], map[1 := user], barrier, tracking);
    var input := new InputController(detection);

    var ok := input.ReceiveCameraInput(CamInput(Some(car.plateNumber), None), now);
    assert FirstPendingPlate(user.cars, detection.pending) == Some(car.plateNumber);
    ok := input.ReceiveQrInput(QrInput(Some(1)), now + 5);
    assert |tracking.logs| == 1 && detection.pending == map[];
    assert FirstPendingPlate(user.cars[1..], detection.pending) == None;
    ok := input.ReceiveQrInput(QrInput(Some(1)), now + 6);
    barrierOpen := barrier.GetStatus();
    history := tracking.GetHistory();
  }

  /** A scan exactly 20 seconds after the detection is too late: nothing
      opens and the plate stays pending; an unknown user and a null id
      change nothing either. */
  method QrTimeoutScenario(now: int) returns (barrierOpen: bool, history: seq<TrackingLog>, stillPending: bool)
    ensures !barrierOpen && history == [] && stillPending
  {
    var car := Car("200TU1", Employee, "Clio", 2018, "Red");
    var user := UserRecord(2, "Sami", "EMPLOYEE", [car]);
    var barrier := new BarrierService();
    var tracking := new TrackingService();
    var detection := new PlateDetectionService(map[car.plateNumber := car], map[2 := user], barrier, tracking);
    var input := new InputController(detection);

    var ok := input.ReceiveCameraInput(CamInput(Some(car.plateNumber), None), now);
    assert FirstPendingPlate(user.cars, detection.pending) == Some(car.plateNumber);
    ok := input.ReceiveQrInput(QrInput(Some(2)), now + QrTimeoutSeconds);
    assert ok && !barrier.isOpen && tracking.logs == [];
    assert car.plateNumber in detection.pending;

    ok := input.ReceiveQrInput(QrInput(Some(3)), now + 1);
    assert ok && !barrier.isOpen && tracking.logs == [];
    ok := input.ReceiveQrInput(QrInput(None), now + 1);
    assert !ok && !barrier.isOpen && tracking.logs == [];

    ok := input.ReceiveCameraInput(CamInput(None, Some(Enter)), now + 2);
    assert !ok && detection.pending == map[car.plateNumber := PendingDetection(now, Enter)];
    barrierOpen := barrier.GetStatus();
    history := tracking.GetHistory();
    stillPending := car.plateNumber in detection.pending;
  }
}
