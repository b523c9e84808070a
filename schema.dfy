/**
 * The two stored records, with the fields of the `stops` and `routes` tables.
 * Timestamps are milliseconds since the epoch.
 */
module Schema {

  datatype Stop = Stop(id: int, name: string, latitude: real, longitude: real)

  datatype Route = Route(
    id: int,
    name: string,
    description: string,
    startStopId: int,
    endStopId: int,
    duration: int,       // minutes
    nextDeparture: int)

  /** A stop before the store has given it an id. */
  datatype InsertStop = InsertStop(name: string, latitude: real, longitude: real) {
    /** `{ ...stop, id }`. */
    function WithId(id: int): (s: Stop)
      ensures s.id == id && s.name == name
    {
      Stop(id, name, latitude, longitude)
    }
  }

  /** A route before the store has given it an id. */
  datatype InsertRoute = InsertRoute(
    name: string,
    description: string,
    startStopId: int,
    endStopId: int,
    duration: int,
    nextDeparture: int)
  {
    /** `{ ...route, id }`. */
    function WithId(id: int): (r: Route)
      ensures r.id == id && r.startStopId == startStopId && r.endStopId == endStopId
    {
      Route(id, name, description, startStopId, endStopId, duration, nextDeparture)
    }
  }
}
