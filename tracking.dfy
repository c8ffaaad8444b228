/** The append-only tracking log and the INSIDE/OUTSIDE status of company
    cars derived from it. */
module Tracking {

  import opened Wrappers
  import opened Domain

  datatype Status = Inside | Outside

  /** One row of the company-cars status report. */
  datatype CarStatus = CarStatus(car: Car, status: Status)

  /** The actions that mean a car went in. */
  predicate IsEntryAction(a: TrackingAction)
  {
    a == AutomaticOpen || a == ForcedOpen
  }

  /** A log entry is about the car with this plate. Entries without a car
      are about no car. */
  predicate About(l: TrackingLog, plate: string)
  {
    l.car.Some? && l.car.value.plateNumber == plate
  }

  /** The entry a maximum-by-timestamp reduction over the log picks for
      `plate`, scanning in log order: a later entry replaces the current
      pick only when its timestamp is strictly greater, so on ties the
      earliest entry wins. */
  function LatestLog(logs: seq<TrackingLog>, plate: string): Option<TrackingLog>
  {
    if logs == [] then None
    else
      var pick := LatestLog(logs[..|logs| - 1], plate);
      var l := logs[|logs| - 1];
      if !About(l, plate) then pick
      else if pick.Some? && pick.value.timestamp >= l.timestamp then pick
      else Some(l)
  }

  /** The status of the car with this plate: INSIDE exactly when its
      latest entry is an entry action. */
  function StatusOf(logs: seq<TrackingLog>, plate: string): Status
  {
    var last := LatestLog(logs, plate);
    if last.Some? && IsEntryAction(last.value.action) then Inside else Outside
  }

  /** The report for a list of cars, in the same order. */
  function CompanyCarsStatus(logs: seq<TrackingLog>, cars: seq<Car>): (r: seq<CarStatus>)
    ensures |r| == |cars|
    ensures forall i :: 0 <= i < |cars| ==> r[i].car == cars[i]
  {
    seq(|cars|, i requires 0 <= i < |cars| => CarStatus(cars[i], StatusOf(logs, cars[i].plateNumber)))
  }

  /** Entry `k` is the one the reduction picks: it is about the plate, no
      entry about the plate is later in time, and every entry about the
      plate before it in the log is strictly earlier in time. */
  ghost predicate IsLatestAt(logs: seq<TrackingLog>, plate: string, k: int)
  {
    && 0 <= k < |logs| && About(logs[k], plate)
    && (forall j :: 0 <= j < |logs| && About(logs[j], plate) ==> logs[j].timestamp <= logs[k].timestamp)
    && (forall j :: 0 <= j < k && About(logs[j], plate) ==> logs[j].timestamp < logs[k].timestamp)
  }

  /** At most one position is the latest one. */
  lemma IsLatestAtUnique(logs: seq<TrackingLog>, plate: string, k: int, k': int)
    requires IsLatestAt(logs, plate, k) && IsLatestAt(logs, plate, k')
    ensures k == k'
  {
  }

  /** Appending an entry that is not about the plate, or is not later than
      the latest one, keeps the latest position. */
  lemma ExtendKeepsLatest(logs: seq<TrackingLog>, plate: string, k: int)
    requires |logs| > 0 && IsLatestAt(logs[..|logs| - 1], plate, k)
    requires !About(logs[|logs| - 1], plate) || logs[|logs| - 1].timestamp <= logs[k].timestamp
    ensures IsLatestAt(logs, plate, k)
  {
    assert forall i :: 0 <= i < |logs| - 1 ==> logs[..|logs| - 1][i] == logs[i];
  }

  /** An entry about the plate that is later than every earlier entry
      about it is the latest one. */
  lemma LastIsLatest(logs: seq<TrackingLog>, plate: string)
    requires |logs| > 0 && About(logs[|logs| - 1], plate)
    requires forall j :: 0 <= j < |logs| - 1 && About(logs[j], plate) ==> logs[j].timestamp < logs[|logs| - 1].timestamp
    ensures IsLatestAt(logs, plate, |logs| - 1)
  {
  }

  /** The latest entry is absent exactly when no entry is about the plate;
      otherwise it sits at the position `IsLatestAt` describes. */
  lemma {:induction false} LatestLogSpec(logs: seq<TrackingLog>, plate: string)
    ensures LatestLog(logs, plate).None? <==> forall i :: 0 <= i < |logs| ==> !About(logs[i], plate)
    ensures LatestLog(logs, plate).Some? ==>
      exists k :: IsLatestAt(logs, plate, k) && logs[k] == LatestLog(logs, plate).value
  {
    if logs != [] {
      var n := |logs| - 1;
      var prefix := logs[..n];
      LatestLogSpec(prefix, plate);
      assert forall i :: 0 <= i < n ==> prefix[i] == logs[i];
      var pick := LatestLog(prefix, plate);
      var l := logs[n];
      if pick.Some? && (!About(l, plate) || pick.value.timestamp >= l.timestamp) {
        assert LatestLog(logs, plate) == pick;
        var k :| IsLatestAt(prefix, plate, k) && prefix[k] == pick.value;
        ExtendKeepsLatest(logs, plate, k);
        assert logs[k] == pick.value;
      } else if About(l, plate) {
        assert LatestLog(logs, plate) == Some(l);
        if pick.Some? {
          var k :| IsLatestAt(prefix, plate, k) && prefix[k] == pick.value;
          assert forall j :: 0 <= j < n && About(logs[j], plate) ==> logs[j].timestamp <= logs[k].timestamp;
        }
        LastIsLatest(logs, plate);
      } else {
        assert LatestLog(logs, plate) == None;
      }
    }
  }

  /** A car no entry is about is OUTSIDE. */
  lemma NeverLoggedIsOutside(logs: seq<TrackingLog>, plate: string)
    requires forall i :: 0 <= i < |logs| ==> !About(logs[i], plate)
    ensures StatusOf(logs, plate) == Outside
  {
    LatestLogSpec(logs, plate);
  }

  /** INSIDE exactly when the latest entry about the plate, in the sense
      of `IsLatestAt`, is an entry action. */
  lemma StatusOfSpec(logs: seq<TrackingLog>, plate: string)
    ensures StatusOf(logs, plate) == Inside <==>
      exists k :: IsLatestAt(logs, plate, k) && IsEntryAction(logs[k].action)
  {
    LatestLogSpec(logs, plate);
    if k :| IsLatestAt(logs, plate, k) && IsEntryAction(logs[k].action) {
      var k' :| IsLatestAt(logs, plate, k') && logs[k'] == LatestLog(logs, plate).value;
      IsLatestAtUnique(logs, plate, k, k');
    }
  }

  /** Entries about other cars, and entries without a car, never change a
      car's status when appended. */
  lemma UnrelatedEntryKeepsStatus(logs: seq<TrackingLog>, l: TrackingLog, plate: string)
    requires !About(l, plate)
    ensures StatusOf(logs + [l], plate) == StatusOf(logs, plate)
  {
    assert (logs + [l])[..|logs|] == logs;
  }

  /** Appending an entry about the car that is strictly later than every
      entry already logged decides the car's status by that entry alone. */
  lemma {:induction false} LaterEntryDecidesStatus(logs: seq<TrackingLog>, l: TrackingLog, plate: string)
    requires About(l, plate)
    requires forall i :: 0 <= i < |logs| ==> logs[i].timestamp < l.timestamp
    ensures StatusOf(logs + [l], plate) == if IsEntryAction(l.action) then Inside else Outside
  {
    assert (logs + [l])[..|logs|] == logs;
    LatestLogSpec(logs, plate);
  }

  /** The seeded scenario: two company cars with one automatic open each
      are INSIDE; a third whose open is followed by a later automatic
      close is OUTSIDE. */
  lemma SeededScenario(now: int)
    ensures
      var worker := UserRecord(2, "Alice Johnson", "EMPLOYEE", []);
      var director := UserRecord(1, "Robert Smith", "DIRECTOR", []);
      var lab := UserRecord(3, "Mark Thompson", "EMPLOYEE", []);
      var c1 := Car("123-ABC", Company, "Toyota Camry", 2022, "Silver");
      var c3 := Car("BOSS-01", Company, "Tesla Model S", 2024, "Black");
      var c5 := Car("LAB-101", Company, "Ford Transit", 2021, "Yellow");
      var logs := [TrackingLog(Some(worker), Some(c1), AutomaticOpen, now - 3600),
                   TrackingLog(Some(director), Some(c3), AutomaticOpen, now - 1800),
                   TrackingLog(Some(lab), Some(c5), AutomaticOpen, now - 5000),
                   TrackingLog(Some(lab), Some(c5), AutomaticClose, now - 4000)];
      CompanyCarsStatus(logs, [c1, c3, c5]) == [CarStatus(c1, Inside), CarStatus(c3, Inside), CarStatus(c5, Outside)]
  {
    var worker := UserRecord(2, "Alice Johnson", "EMPLOYEE", []);
    var director := UserRecord(1, "Robert Smith", "DIRECTOR", []);
    var lab := UserRecord(3, "Mark Thompson", "EMPLOYEE", []);
    var c1 := Car("123-ABC", Company, "Toyota Camry", 2022, "Silver");
    var c3 := Car("BOSS-01", Company, "Tesla Model S", 2024, "Black");
    var c5 := Car("LAB-101", Company, "Ford Transit", 2021, "Yellow");
    var logs := [TrackingLog(Some(worker), Some(c1), AutomaticOpen, now - 3600),
                 TrackingLog(Some(director), Some(c3), AutomaticOpen, now - 1800),
                 TrackingLog(Some(lab), Some(c5), AutomaticOpen, now - 5000),
                 TrackingLog(Some(lab), Some(c5), AutomaticClose, now - 4000)];
    assert logs[..3] == [logs[0], logs[1], logs[2]];
    assert logs[..3][..2] == [logs[0], logs[1]];
    assert logs[..3][..2][..1] == [logs[0]];
    assert logs[..3][..2][..1][..0] == [];
    assert LatestLog(logs[..3][..2][..1], c1.plateNumber) == Some(logs[0]);
    assert LatestLog(logs[..3][..2], c1.plateNumber) == Some(logs[0]);
    assert LatestLog(logs[..3], c1.plateNumber) == Some(logs[0]);
    assert LatestLog(logs[..3][..2][..1], c3.plateNumber) == None;
    assert LatestLog(logs[..3][..2], c3.plateNumber) == Some(logs[1]);
    assert LatestLog(logs[..3], c3.plateNumber) == Some(logs[1]);
    assert LatestLog(logs[..3][..2][..1], c5.plateNumber) == None;
    assert LatestLog(logs[..3][..2], c5.plateNumber) == None;
    assert LatestLog(logs[..3], c5.plateNumber) == Some(logs[2]);
    assert LatestLog(logs, c5.plateNumber) == Some(logs[3]);
    assert StatusOf(logs, c1.plateNumber) == Inside;
    assert StatusOf(logs, c3.plateNumber) == Inside;
    assert StatusOf(logs, c5.plateNumber) == Outside;
  }

  class TrackingService {
    /** The log store, in insertion order. */
    var logs: seq<TrackingLog>

    constructor ()
      ensures logs == []
    {
      logs := [];
    }

    /** Appends exactly one entry stamped with `now`; earlier entries stay. */
    method LogAction(user: Option<UserRecord>, car: Option<Car>, action: TrackingAction, now: int)
      modifies this
      ensures logs == old(logs) + [TrackingLog(user, car, action, now)]
    {
      logs := logs + [TrackingLog(user, car, action, now)];
    }

    /** The whole log. */
    method GetHistory() returns (history: seq<TrackingLog>)
      ensures history == logs
    {
      history := logs;
    }

    /** One row per given car, in order, each with that car's status as
      derived from the whole log. */
    method GetCompanyCarsStatus(cars: seq<Car>) returns (r: seq<CarStatus>)
      ensures |r| == |cars|
      ensures forall i :: 0 <= i < |cars| ==> r[i].car == cars[i] && r[i].status == StatusOf(logs, cars[i].plateNumber)
    {
      r := CompanyCarsStatus(logs, cars);
    }
  }
}
