/** Plain data of the access-control backend: cars, users as the services
    see them, tracking actions and tracking log entries. */
module Domain {

  import opened Wrappers

  /** The plate categories a car can carry. */
  datatype PlateType = Company | Employee | Guest

  /** The actions a tracking log entry can record. */
  datatype TrackingAction = AutomaticOpen | AutomaticClose | ForcedOpen | ForcedClose | Reject

  /** A car of the catalog; its plate number is its identity. */
  datatype Car = Car(plateNumber: string, plateType: PlateType, model: string, creationYear: int, color: string)

  /** A user of the catalog as loaded with its cars; the order of `cars`
      is the iteration order of the user's car set. */
  datatype UserRecord = UserRecord(id: int, name: string, role: string, cars: seq<Car>)

  /** One entry of the append-only tracking log. Its position in the log
      stands for its generated id. */
  datatype TrackingLog = TrackingLog(user: Option<UserRecord>, car: Option<Car>, action: TrackingAction, timestamp: int)

  /** Direction strings as sent by the dashboard cameras. */
  const Enter: string := "ENTER"
  const Exit: string := "EXIT"
}
