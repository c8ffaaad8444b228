/** The guard's manual decisions: force open, force close, reject. */
module Guard {

  import opened Wrappers
  import opened Domain
  import opened Barrier
  import opened Tracking
  import opened PlateDetection

  /** The catalog car for an optional plate: none when no plate is given
      or the plate is unknown. */
  function CarFor(cars: map<string, Car>, plate: Option<string>): (r: Option<Car>)
    ensures r.Some? <==> plate.Some? && plate.value in cars
    ensures r.Some? ==> r.value == cars[plate.value]
  {
    if plate.Some? then FindCar(cars, plate.value) else None
  }

  /** The pending map once an optional plate has been dropped from it. */
  function WithoutPlate(pending: map<string, PendingDetection>, plate: Option<string>): (r: map<string, PendingDetection>)
    ensures plate.None? ==> r == pending
    ensures plate.Some? ==> plate.value !in r
    ensures forall p :: p in pending && (plate.None? || p != plate.value) ==> p in r && r[p] == pending[p]
    ensures forall p :: p in r ==> p in pending
  {
    if plate.Some? then pending - {plate.value} else pending
  }

  class GuardService {
    const barrier: BarrierService
    const tracking: TrackingService
    const detection: PlateDetectionService
    const cars: map<string, Car>

    /** The service shares the barrier, the log and the catalog with the
      detection service, as the single application context wires them. */
    ghost predicate Valid()
    {
      detection.barrier == barrier && detection.tracking == tracking && detection.cars == cars
    }

    constructor (barrier: BarrierService, tracking: TrackingService, detection: PlateDetectionService, cars: map<string, Car>)
      requires detection.barrier == barrier && detection.tracking == tracking && detection.cars == cars
      ensures Valid()
      ensures this.barrier == barrier && this.tracking == tracking && this.detection == detection && this.cars == cars
    {
      this.barrier := barrier;
      this.tracking := tracking;
      this.detection := detection;
      this.cars := cars;
    }

    /** Opens the barrier, drops the plate from pending if one is given
      (pending or not), and logs one FORCED_OPEN entry with no user and
      the catalog car of the plate. */
    method ForceOpen(plate: Option<string>, now: int)
      requires Valid()
      modifies barrier, tracking, detection
      ensures barrier.isOpen
      ensures tracking.logs == old(tracking.logs) + [TrackingLog(None, CarFor(cars, plate), ForcedOpen, now)]
      ensures detection.pending == WithoutPlate(old(detection.pending), plate)
    {
      barrier.Open();
      var car: Option<Car> := None;
      if plate.Some? {
        car := FindCar(cars, plate.value);
        detection.RemovePending(plate.value);
      }
      tracking.LogAction(None, car, ForcedOpen, now);
    }

    /** Closes the barrier and logs one FORCED_CLOSE entry with no user and
      no car; pending is untouched. */
    method ForceClose(now: int)
      requires Valid()
      modifies barrier, tracking
      ensures !barrier.isOpen
      ensures tracking.logs == old(tracking.logs) + [TrackingLog(None, None, ForcedClose, now)]
      ensures detection.pending == old(detection.pending)
    {
      barrier.Close();
      tracking.LogAction(None, None, ForcedClose, now);
    }

    /** Leaves the barrier as it is, drops the plate from pending if one is
      given (pending or not), and logs one REJECT entry with no user and
      the catalog car of the plate. */
    method Reject(plate: Option<string>, now: int)
      requires Valid()
      modifies tracking, detection
      ensures barrier.isOpen == old(barrier.isOpen)
      ensures tracking.logs == old(tracking.logs) + [TrackingLog(None, CarFor(cars, plate), TrackingAction.Reject, now)]
      ensures detection.pending == WithoutPlate(old(detection.pending), plate)
    {
      var car: Option<Car> := None;
      if plate.Some? {
        car := FindCar(cars, plate.value);
        detection.RemovePending(plate.value);
      }
      tracking.LogAction(None, car, TrackingAction.Reject, now);
    }
  }
}
