/** The sidecar's per-camera store of the latest plate reading. */
module LatestDetections {

  /** The left and right digit groups of a plate. */
  datatype PlateParts = PlateParts(left: string, right: string)

  /** The record served for a camera. */
  datatype LatestResult = LatestResult(plateText: string, plateParts: PlateParts, syntheticPlate: string, timestamp: int)

  /** The record served for a camera with no detection yet. */
  const NoDetection: LatestResult := LatestResult("", PlateParts("", ""), "", 0)

  /** The data-URL prefix of the synthetic plate image. */
  const JpegDataUrlPrefix: string := "data:image/jpeg;base64,"

  /** The text a store holds for a key; a missing entry counts as empty. */
  function StoredText(latest: map<string, LatestResult>, key: string): (t: string)
    ensures key !in latest ==> t == ""
    ensures key in latest ==> t == latest[key].plateText
  {
    if key in latest then latest[key].plateText else ""
  }

  class DetectionStore {
    /** Latest record per camera key. */
    var latest: map<string, LatestResult>

    constructor ()
      ensures latest == map[]
    {
      latest := map[];
    }

    /** The record stored for the key, or the empty default with timestamp
      0 when there is none; nothing changes. */
    method GetLatestResult(key: string) returns (r: LatestResult)
      ensures key in latest ==> r == latest[key]
      ensures key !in latest ==> r == NoDetection && r.plateText == "" && r.timestamp == 0
    {
      if key in latest {
        r := latest[key];
      } else {
        r := NoDetection;
      }
    }

    /** Stores a new reading for the key only when its text differs from
      the stored text; otherwise the store is left as it was. Other keys
      never change. */
    method Update(key: string, plateText: string, left: string, right: string, synthetic: string, now: int)
      modifies this
      ensures plateText != StoredText(old(latest), key) ==>
        latest == old(latest)[key := LatestResult(plateText, PlateParts(left, right), JpegDataUrlPrefix + synthetic, now)]
      ensures plateText == StoredText(old(latest), key) ==> latest == old(latest)
      ensures forall k :: k != key ==> (k in latest <==> k in old(latest)) && (k in latest ==> latest[k] == old(latest)[k])
    {
      if plateText != StoredText(latest, key) {
        latest := latest[key := LatestResult(plateText, PlateParts(left, right), JpegDataUrlPrefix + synthetic, now)];
      }
    }
  }
}
