/**
 * The record a row of the sightings table shows, after the client has
 * turned the server's JSON into numbers and a date.
 */
module Sightings {
  /**
   * One duck sighting. `datetime` is the instant of the sighting in
   * milliseconds since the epoch: that is the number JavaScript compares
   * when it orders two `Date` values.
   */
  datatype Duck = Duck(id: int, datetime: int, description: string, species: string, count: int)
}
