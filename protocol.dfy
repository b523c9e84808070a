/**
 * The records the live-update channel carries and the messages it sends.
 * The server and the client declare the same two records; they are declared
 * once here. Timestamps are milliseconds since the epoch, coordinates,
 * headings and speeds are mathematical reals.
 */
module Protocol {

  datatype VehicleLocation = VehicleLocation(
    routeId: int,
    latitude: real,
    longitude: real,
    heading: real,     // degrees
    speed: real,
    lastUpdate: int)

  datatype AlertType = Delay | Cancellation | Detour | Notice

  datatype Severity = Low | Medium | High

  datatype ServiceAlert = ServiceAlert(
    id: int,
    routeId: int,
    alertType: AlertType,
    severity: Severity,
    message: string,
    timestamp: int)

  /**
   * A message `{ type, data }` after parsing: the three types the server
   * sends, and any other type, which the client ignores.
   */
  datatype Message =
    | Init(vehicles: seq<VehicleLocation>, alerts: seq<ServiceAlert>)   // "INIT"
    | VehicleUpdates(updates: seq<VehicleLocation>)                     // "VEHICLE_UPDATES"
    | AlertMessage(alert: ServiceAlert)                                 // "SERVICE_ALERT"
    | Unrecognised(tag: string)
}
