/** The records that flow through the acquisition pipeline, one datatype per
    stage: as fetched, after date reconstruction, with a point geometry, and
    after the waterbody join. */
module Occurrences {
  import opened Options

  /** A point geometry: `x` is the longitude and `y` the latitude. */
  datatype Point = Point(x: real, y: real)

  /** The descriptive fields of an occurrence that the pipeline carries
      through unchanged, apart from `group`, which is relabelled. */
  datatype Attributes = Attributes(
    speciesID: int,
    group: string,
    family: string,
    genus: string,
    species: string,
    scientificName: string,
    commonName: string,
    decimalLatitude: real,
    decimalLongitude: real,
    status: string,
    recordType: string,
    freshMarineIntro: string)

  /** An occurrence as the search service reports it: the date comes as three
      separate fields, any of which may be null. */
  datatype RawRecord = RawRecord(
    attrs: Attributes,
    year: Option<int>,
    month: Option<int>,
    day: Option<int>)

  /** An occurrence after date reconstruction: the year is always present,
      month and day are filled in, and `date` is the canonical string. */
  datatype Record = Record(
    attrs: Attributes,
    year: int,
    month: int,
    day: int,
    date: string)

  /** A record with the point geometry built from its coordinates. */
  datatype Located = Located(rec: Record, geometry: Point)

  /** A polygon given by its outline. The model never computes with it: only
      an `intersects` relation between points and shapes, supplied with the
      reference layer, looks at it. */
  datatype Shape = Polygon(outline: seq<Point>)

  /** A polygon of the waterbody layer with its name. */
  datatype Waterbody = Waterbody(name: string, shape: Shape)

  /** One row of the left spatial join: a located record and the name of the
      waterbody it was matched with, or `None` when it matched none. */
  datatype Joined = Joined(loc: Located, waterbody: Option<string>)
}
