/** The guard's HTTP endpoints and the company-car list of `/car-status`. */
module GuardApi {

  import opened Wrappers
  import opened Domain
  import opened Barrier
  import opened Tracking
  import opened PlateDetection
  import opened Guard

  /** The company cars named by the history, each once, in order of first
      appearance. Cars are compared by value: every logged car comes from
      the catalog, where the plate number determines the car, so this is
      the comparison by plate number that entity identity gives. */
  function CompanyCarsInHistory(logs: seq<TrackingLog>): seq<Car>
  {
    if logs == [] then []
    else
      var seen := CompanyCarsInHistory(logs[..|logs| - 1]);
      var l := logs[|logs| - 1];
      if l.car.Some? && l.car.value.plateType == Company && l.car.value !in seen then seen + [l.car.value]
      else seen
  }

  /** Entry `k` of the history names `c`, and no entry up to `k` names `d`. */
  ghost predicate NamedBefore(logs: seq<TrackingLog>, c: Car, d: Car)
  {
    exists k :: 0 <= k < |logs| && logs[k].car == Some(c) && forall k' :: 0 <= k' <= k ==> logs[k'].car != Some(d)
  }

  /** The list has no duplicates; it holds exactly the company cars some
      entry names; and each car in it is named in the history before any
      car after it in the list. */
  lemma {:induction false} CompanyCarsInHistorySpec(logs: seq<TrackingLog>)
    ensures var r := CompanyCarsInHistory(logs);
      forall i, j :: 0 <= i < j < |r| ==> r[i] != r[j]
    ensures var r := CompanyCarsInHistory(logs);
      forall c :: c in r <==> c.plateType == Company && exists i :: 0 <= i < |logs| && logs[i].car == Some(c)
    ensures var r := CompanyCarsInHistory(logs);
      forall i, j :: 0 <= i < j < |r| ==> NamedBefore(logs, r[i], r[j])
  {
    if logs != [] {
      var n := |logs| - 1;
      var prefix := logs[..n];
      CompanyCarsInHistorySpec(prefix);
      assert forall i :: 0 <= i < n ==> prefix[i] == logs[i];
      var seen := CompanyCarsInHistory(prefix);
      var r := CompanyCarsInHistory(logs);
      forall i, j | 0 <= i < j < |r| ensures NamedBefore(logs, r[i], r[j]) {
        if j < |seen| {
          assert NamedBefore(prefix, seen[i], seen[j]);
          var k :| 0 <= k < |prefix| && prefix[k].car == Some(seen[i]) && forall k' :: 0 <= k' <= k ==> prefix[k'].car != Some(seen[j]);
          assert logs[k].car == Some(r[i]) && forall k' :: 0 <= k' <= k ==> logs[k'].car != Some(r[j]);
        } else {
          var c := logs[n].car.value;
          assert r[j] == c && c !in seen;
          assert r[i] in seen;
          var k :| 0 <= k < n && prefix[k].car == Some(r[i]);
          assert forall k' :: 0 <= k' <= k ==> logs[k'].car != Some(c);
        }
      }
    }
  }

  /** A company car that was never logged is not listed, so `/car-status`
      says nothing about it. */
  lemma NeverLoggedNotListed(logs: seq<TrackingLog>, c: Car)
    requires forall i :: 0 <= i < |logs| ==> logs[i].car != Some(c)
    ensures c !in CompanyCarsInHistory(logs)
  {
    CompanyCarsInHistorySpec(logs);
  }

  class GuardController {
    const guard: GuardService
    const detection: PlateDetectionService
    const tracking: TrackingService
    const barrier: BarrierService

    ghost predicate Valid()
    {
      guard.Valid() && guard.detection == detection && guard.tracking == tracking && guard.barrier == barrier
    }

    constructor (guard: GuardService, detection: PlateDetectionService, tracking: TrackingService, barrier: BarrierService)
      requires guard.Valid() && guard.detection == detection && guard.tracking == tracking && guard.barrier == barrier
      ensures Valid()
      ensures this.guard == guard && this.detection == detection && this.tracking == tracking && this.barrier == barrier
    {
      this.guard := guard;
      this.detection := detection;
      this.tracking := tracking;
      this.barrier := barrier;
    }

    /** `GET /pending`: the detection service's pending map, with
      directions and timestamps. */
    method GetPendingPlates() returns (m: map<string, PendingDetection>)
      ensures m == detection.pending
    {
      m := detection.GetPendingPlatesWithDetails();
    }

    /** `POST /open[?plate=]`: a guard force-open. */
    method ForceOpen(plate: Option<string>, now: int)
      requires Valid()
      modifies barrier, tracking, detection
      ensures barrier.isOpen
      ensures tracking.logs == old(tracking.logs) + [TrackingLog(None, CarFor(detection.cars, plate), ForcedOpen, now)]
      ensures detection.pending == WithoutPlate(old(detection.pending), plate)
    {
      guard.ForceOpen(plate, now);
    }

    /** `POST /close`: a guard force-close. */
    method ForceClose(now: int)
      requires Valid()
      modifies barrier, tracking
      ensures !barrier.isOpen
      ensures tracking.logs == old(tracking.logs) + [TrackingLog(None, None, ForcedClose, now)]
      ensures detection.pending == old(detection.pending)
    {
      guard.ForceClose(now);
    }

    /** `POST /reject[?plate=]`: a guard rejection. */
    method Reject(plate: Option<string>, now: int)
      requires Valid()
      modifies tracking, detection
      ensures barrier.isOpen == old(barrier.isOpen)
      ensures tracking.logs == old(tracking.logs) + [TrackingLog(None, CarFor(detection.cars, plate), TrackingAction.Reject, now)]
      ensures detection.pending == WithoutPlate(old(detection.pending), plate)
    {
      guard.Reject(plate, now);
    }

    /** `GET /logs`: the whole history. */
    method GetLogs() returns (logs: seq<TrackingLog>)
      ensures logs == tracking.logs
    {
      logs := tracking.GetHistory();
    }

    /** `GET /car-status`: one row per company car named in the history, in
      order of first appearance, each with its status from the log. */
    method GetCompanyCarStatus() returns (r: seq<CarStatus>)
      ensures var listed := CompanyCarsInHistory(tracking.logs);
        && |r| == |listed|
        && forall i :: 0 <= i < |r| ==> r[i].car == listed[i] && r[i].status == StatusOf(tracking.logs, listed[i].plateNumber)
    {
      var history := tracking.GetHistory();
      var companyCars := CompanyCarsInHistory(history);
      r := tracking.GetCompanyCarsStatus(companyCars);
    }

    /** `GET /barrier`: the barrier flag; nothing changes. */
    method GetBarrierStatus() returns (open: bool)
      ensures open == barrier.isOpen
    {
      open := barrier.GetStatus();
    }
  }
}
