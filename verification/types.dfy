/** Records of the drone-log database: the rows of its tables and the
    error results its endpoints raise. */
module Types {

  datatype Option<+T> = None | Some(value: T)

  /** The HTTP errors the endpoints in this model raise. */
  datatype Error =
    | NotFound                         // 404 "... not found"
    | LocationInUse(flights: nat)      // 400 "Cannot delete location ... associated with N flights"
    | ImportDirMissing                 // 404 "Directory '/app/DroneLogImport' not found."
    | ImportFailed                     // 500 "An error occurred during bulk import."
    | LinkRepeated                     // 500: the commit breaks the key of `flight_battery_packs`

  datatype Result<+T> = Ok(value: T) | Err(error: Error)

  /** A latitude/longitude pair, in degrees. */
  datatype Coord = Coord(latitude: real, longitude: real)

  /** One telemetry sample of a flight (a `flight_data` row); only the
      fields the modelled rules look at. Timestamps are seconds since the
      epoch. */
  datatype DataPoint = DataPoint(timestamp: Option<real>, latitude: Option<real>, longitude: Option<real>)

  datatype Pilot = Pilot(name: string, isDefault: bool)

  datatype Location = Location(coord: Coord, isValid: bool)

  /** A `flights` row. Dates are day numbers; `packs` is the set of battery
      pack ids linked through the `flight_battery_packs` table. */
  datatype Flight = Flight(
    pilotId: int,
    droneId: int,
    locationId: Option<int>,
    flightDate: int,
    csvLogPath: Option<string>,
    notes: Option<string>,
    isValid: bool,
    packs: set<int>,
    data: seq<DataPoint>)
}
