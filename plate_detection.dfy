/** The pending-detection map and the QR-driven automatic access. */
module PlateDetection {

  import opened Wrappers
  import opened Domain
  import opened Barrier
  import opened Tracking

  /** When a plate was seen and which way the camera faces. */
  datatype PendingDetection = PendingDetection(timestamp: int, direction: string)

  /** Seconds within which a QR scan must follow the plate detection. */
  const QrTimeoutSeconds: int := 20

  /** The catalog car with this plate, if any. */
  function FindCar(cars: map<string, Car>, plate: string): (r: Option<Car>)
    ensures r.Some? <==> plate in cars
    ensures r.Some? ==> r.value == cars[plate]
  {
    if plate in cars then Some(cars[plate]) else None
  }

  /** The plate of the first of `cars`, in their iteration order, that is
      pending. */
  function FirstPendingPlate(cars: seq<Car>, pending: map<string, PendingDetection>): (r: Option<string>)
    ensures r.Some? ==> r.value in pending
  {
    if cars == [] then None
    else if cars[0].plateNumber in pending then Some(cars[0].plateNumber)
    else FirstPendingPlate(cars[1..], pending)
  }

  /** None exactly when none of the cars is pending; otherwise the plate of
      a pending car that every car before it in the iteration order is not. */
  lemma {:induction false} FirstPendingPlateSpec(cars: seq<Car>, pending: map<string, PendingDetection>)
    ensures FirstPendingPlate(cars, pending).None? <==> forall i :: 0 <= i < |cars| ==> cars[i].plateNumber !in pending
    ensures FirstPendingPlate(cars, pending).Some? ==>
      exists k :: 0 <= k < |cars| && cars[k].plateNumber == FirstPendingPlate(cars, pending).value
        && cars[k].plateNumber in pending
        && forall j :: 0 <= j < k ==> cars[j].plateNumber !in pending
  {
    if cars != [] && cars[0].plateNumber !in pending {
      FirstPendingPlateSpec(cars[1..], pending);
      assert forall i :: 1 <= i < |cars| ==> cars[i] == cars[1..][i - 1];
      if FirstPendingPlate(cars[1..], pending).Some? {
        var k :| 0 <= k < |cars[1..]| && cars[1..][k].plateNumber == FirstPendingPlate(cars[1..], pending).value
          && cars[1..][k].plateNumber in pending
          && forall j :: 0 <= j < k ==> cars[1..][j].plateNumber !in pending;
        assert cars[k + 1].plateNumber == FirstPendingPlate(cars, pending).value;
      }
    }
  }

  /** What a QR scan for `userId` grants: the user and the plate to let
      through, or nothing when the user is unknown, none of the user's cars
      is pending, or the matching detection is 20 seconds old or older. */
  function QrGrant(users: map<int, UserRecord>, pending: map<string, PendingDetection>, userId: int, now: int)
    : Option<(UserRecord, string)>
  {
    if userId !in users then None
    else
      var user := users[userId];
      var target := FirstPendingPlate(user.cars, pending);
      if target.None? then None
      else if pending[target.value].timestamp > now - QrTimeoutSeconds then Some((user, target.value))
      else None
  }

  /** A grant names a known user, one of that user's cars, a pending plate
      whose detection is less than 20 seconds old, and the first such car
      in the user's car order. Conversely, whenever the first pending car
      of a known user is fresh, that is what is granted. */
  lemma QrGrantSpec(users: map<int, UserRecord>, pending: map<string, PendingDetection>, userId: int, now: int)
    ensures QrGrant(users, pending, userId, now).Some? ==>
      var (u, p) := QrGrant(users, pending, userId, now).value;
      && userId in users && u == users[userId]
      && p in pending && pending[p].timestamp > now - QrTimeoutSeconds
      && exists k :: 0 <= k < |u.cars| && u.cars[k].plateNumber == p
                     && forall j :: 0 <= j < k ==> u.cars[j].plateNumber !in pending
    ensures userId in users && FirstPendingPlate(users[userId].cars, pending).Some? ==>
      var p := FirstPendingPlate(users[userId].cars, pending).value;
      p in pending && QrGrant(users, pending, userId, now) ==
        if pending[p].timestamp > now - QrTimeoutSeconds then Some((users[userId], p)) else None
  {
    if userId in users {
      FirstPendingPlateSpec(users[userId].cars, pending);
    }
  }

  /** An unknown user is granted nothing. */
  lemma UnknownUserGetsNothing(users: map<int, UserRecord>, pending: map<string, PendingDetection>, userId: int, now: int)
    requires userId !in users
    ensures QrGrant(users, pending, userId, now) == None
  {
  }

  /** A user none of whose cars is pending is granted nothing. */
  lemma NoPendingCarGetsNothing(users: map<int, UserRecord>, pending: map<string, PendingDetection>, userId: int, now: int)
    requires userId in users
    requires forall i :: 0 <= i < |users[userId].cars| ==> users[userId].cars[i].plateNumber !in pending
    ensures QrGrant(users, pending, userId, now) == None
  {
    FirstPendingPlateSpec(users[userId].cars, pending);
  }

  class PlateDetectionService {
    /** The car catalog, keyed by plate number. */
    const cars: map<string, Car>
    /** The user catalog, keyed by user id. */
    const users: map<int, UserRecord>
    const barrier: BarrierService
    const tracking: TrackingService
    /** Plates waiting for a QR scan or a guard decision. */
    var pending: map<string, PendingDetection>

    constructor (cars: map<string, Car>, users: map<int, UserRecord>, barrier: BarrierService, tracking: TrackingService)
      ensures this.cars == cars && this.users == users
      ensures this.barrier == barrier && this.tracking == tracking
      ensures pending == map[]
    {
      this.cars := cars;
      this.users := users;
      this.barrier := barrier;
      this.tracking := tracking;
      pending := map[];
    }

    /** Records a detection at `now`, replacing any entry the plate already
      had; nothing else changes. */
    method HandleCameraInput(plate: string, direction: string, now: int)
      modifies this
      ensures pending == old(pending)[plate := PendingDetection(now, direction)]
    {
      pending := pending[plate := PendingDetection(now, direction)];
    }

    /** The one-argument form: a detection facing ENTER. */
    method HandleCameraInputEnter(plate: string, now: int)
      modifies this
      ensures pending == old(pending)[plate := PendingDetection(now, Enter)]
    {
      HandleCameraInput(plate, Enter, now);
    }

    /** The plate of the first of the user's cars that is pending: none
      exactly when no car of the user is pending. */
    method FindMatchingPendingPlate(user: UserRecord) returns (r: Option<string>)
      ensures r.None? <==> forall i :: 0 <= i < |user.cars| ==> user.cars[i].plateNumber !in pending
      ensures r.Some? ==> (r.value in pending &&
        exists k :: 0 <= k < |user.cars| && user.cars[k].plateNumber == r.value
          && forall j :: 0 <= j < k ==> user.cars[j].plateNumber !in pending)
      ensures r == FirstPendingPlate(user.cars, pending)
    {
      var i := 0;
      while i < |user.cars|
        invariant 0 <= i <= |user.cars|
        invariant forall j :: 0 <= j < i ==> user.cars[j].plateNumber !in pending
        invariant FirstPendingPlate(user.cars, pending) == FirstPendingPlate(user.cars[i..], pending)
      {
        if user.cars[i].plateNumber in pending {
          return Some(user.cars[i].plateNumber);
        }
        assert user.cars[i..][1..] == user.cars[i + 1..];
        i := i + 1;
      }
      return None;
    }

    /** A QR scan. A null id fails and changes nothing. Otherwise, when
      `QrGrant` grants a plate, the barrier opens, one AUTOMATIC_OPEN entry
      with the user and the catalog car is logged, whatever the detection's
      direction, and only that plate leaves the pending map; when it grants
      nothing, nothing changes. */
    method HandleQrInput(userId: Option<int>, now: int) returns (ok: bool)
      modifies this, barrier, tracking
      ensures ok == userId.Some?
      ensures var grant := if userId.Some? then QrGrant(users, old(pending), userId.value, now) else None;
        if grant.Some? then
          && barrier.isOpen
          && tracking.logs == old(tracking.logs) + [TrackingLog(Some(grant.value.0), FindCar(cars, grant.value.1), AutomaticOpen, now)]
          && pending == old(pending) - {grant.value.1}
        else
          && barrier.isOpen == old(barrier.isOpen)
          && tracking.logs == old(tracking.logs)
          && pending == old(pending)
    {
      if userId.None? {
        return false;
      }
      ok := true;
      var id := userId.value;
      if id !in users {
        return;
      }
      var user := users[id];
      var target := FindMatchingPendingPlate(user);
      if target.Some? {
        var detection := pending[target.value];
        if detection.timestamp > now - QrTimeoutSeconds {
          ProcessAccess(user, target.value, true, detection.direction, now);
        }
      }
    }

    /** Automatic access: open, log AUTOMATIC_OPEN, drop the plate. The
      direction does not influence what is logged. */
    method ProcessAccess(user: UserRecord, plate: string, auto: bool, direction: string, now: int)
      modifies this, barrier, tracking
      ensures auto ==> barrier.isOpen
      ensures !auto ==> barrier.isOpen == old(barrier.isOpen)
      ensures tracking.logs == old(tracking.logs) + (if auto then [TrackingLog(Some(user), FindCar(cars, plate), AutomaticOpen, now)] else [])
      ensures pending == if auto then old(pending) - {plate} else old(pending)
    {
      if auto {
        barrier.Open();
        var car := FindCar(cars, plate);
        tracking.LogAction(Some(user), car, AutomaticOpen, now);
        pending := pending - {plate};
      }
    }

    /** Every pending plate with its detection time, and no other key. */
    function GetPendingPlates(): (m: map<string, int>)
      reads this
      ensures m.Keys == pending.Keys
      ensures forall p :: p in m ==> m[p] == pending[p].timestamp
    {
      map p | p in pending :: pending[p].timestamp
    }

    /** The pending map itself, with directions. */
    method GetPendingPlatesWithDetails() returns (m: map<string, PendingDetection>)
      ensures m == pending
    {
      m := pending;
    }

    /** Drops `plate` if present; every other entry stays. */
    method RemovePending(plate: string)
      modifies this
      ensures pending == old(pending) - {plate}
      ensures plate !in pending
      ensures forall p :: p in old(pending) && p != plate ==> p in pending && pending[p] == old(pending)[p]
    {
      pending := pending - {plate};
    }
  }
}
