/** The camera and QR input endpoints. */
module InputApi {

  import opened Wrappers
  import opened Domain
  import opened Barrier
  import opened Tracking
  import opened PlateDetection

  /** The camera request body; either field may be absent. */
  datatype CamInput = CamInput(plateNumber: Option<string>, direction: Option<string>)

  /** The QR request body; the id may be absent. */
  datatype QrInput = QrInput(userId: Option<int>)

  class InputController {
    const detection: PlateDetectionService

    constructor (detection: PlateDetectionService)
      ensures this.detection == detection
    {
      this.detection := detection;
    }

    /** `POST /input/camera`: creates or refreshes the pending entry of the
      body's plate with direction ENTER, whatever direction the body
      carries. A body without a plate fails and changes nothing. The
      barrier and the log never change. */
    method ReceiveCameraInput(input: CamInput, now: int) returns (ok: bool)
      modifies detection
      ensures ok == input.plateNumber.Some?
      ensures ok ==> detection.pending == old(detection.pending)[input.plateNumber.value := PendingDetection(now, Enter)]
      ensures !ok ==> detection.pending == old(detection.pending)
      ensures detection.barrier.isOpen == old(detection.barrier.isOpen)
      ensures detection.tracking.logs == old(detection.tracking.logs)
    {
      if input.plateNumber.None? {
        return false;
      }
      detection.HandleCameraInputEnter(input.plateNumber.value, now);
      ok := true;
    }

    /** `POST /input/qr`: the body's user id, unchanged, goes to the QR
      handler. */
    method ReceiveQrInput(input: QrInput, now: int) returns (ok: bool)
      modifies detection, detection.barrier, detection.tracking
      ensures ok == input.userId.Some?
      ensures var grant := if input.userId.Some? then QrGrant(detection.users, old(detection.pending), input.userId.value, now) else None;
        if grant.Some? then
          && detection.barrier.isOpen
          && detection.tracking.logs == old(detection.tracking.logs)
               + [TrackingLog(Some(grant.value.0), FindCar(detection.cars, grant.value.1), AutomaticOpen, now)]
          && detection.pending == old(detection.pending) - {grant.value.1}
        else
          && detection.barrier.isOpen == old(detection.barrier.isOpen)
          && detection.tracking.logs == old(detection.tracking.logs)
          && detection.pending == old(detection.pending)
    {
      ok := detection.HandleQrInput(input.userId, now);
    }
  }
}
