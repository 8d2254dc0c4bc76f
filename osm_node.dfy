/** The imported OpenStreetMap node, the value the import hands to the rest of the application. */
module OsmNodes {
  import opened Wrappers

  /** Java's `Long`: a signed 64-bit integer. */
  newtype Long = x: int | -0x8000_0000_0000_0000 <= x < 0x8000_0000_0000_0000

  /**
   * An immutable node record. The id is required; latitude and longitude are optional
   * independently of each other; `tags` maps each OSM tag key to exactly one value.
   * Coordinates are of the opaque floating-point type `D`.
   */
  datatype OsmNode<D> = OsmNode(nodeId: Long, lat: Option<D>, lon: Option<D>, tags: map<string, string>)
}
