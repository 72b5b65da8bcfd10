/** The records the ingestion core passes around (models/models.go). */
module Models {

  /** A TLE record: models.TLE without its ID, which the database assigns on
      insert. SatNoardId is the satellite's catalog number as text (the
      source's spelling "noard" is kept), Time a Unix timestamp, Line1 and
      Line2 the two element lines. */
  datatype Tle = Tle(satNoardId: string, time: int, line1: string, line2: string)

  /** A row of the tle_site table: one configured TLE source; `name` is its `site` column. */
  datatype Site = Site(id: int, name: string, url: string, description: string)
}
