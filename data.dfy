/**
 * The records the visualisation page receives as static JSON, reduced to the
 * fields the modelled rendering logic reads. Similarity values and
 * coordinates, which are JavaScript doubles, are modelled as reals.
 */
module VizData {

  datatype Option<+T> = None | Some(value: T)

  /** `similarity_matrix.json`: the ordered id list and one row of similarities per id. */
  datatype SimilarityMatrix = SimilarityMatrix(subclusters: seq<string>, matrix: seq<seq<real>>)

  /** A member descriptor of a primary group in `metadata.json`. */
  datatype SubclusterRef = SubclusterRef(id: string, name: string)

  /** A primary group of `metadata.json`, with its members in display order. */
  datatype Primary = Primary(name: string, color: string, subclusters: seq<SubclusterRef>)

  datatype Metadata = Metadata(primaries: seq<Primary>)

  /** One entry of `coords_2d.json`; x and y are percentages of the map area. */
  datatype Point = Point(id: string, name: string, primaryName: string, x: real, y: real, articleCount: int)

  /** One entry of the `related` list of a per-subcluster detail record. */
  datatype Related = Related(id: string, name: string, primaryName: string, similarity: real)

  /** The `by_name` table of `colors.json`, from primary group name to a CSS colour. */
  type ColorTable = map<string, string>

  /** Colour used when the table has no usable colour for a name. */
  const FallbackColor: string := "#999"

  /**
   * `colors.by_name[name] || '#999'`: a missing key yields `undefined` and an
   * empty string is falsy, so both fall back to the neutral grey.
   */
  function ColorFor(colors: ColorTable, name: string): (c: string)
    ensures c != ""
    ensures name in colors && colors[name] != "" ==> c == colors[name]
    ensures (name !in colors || colors[name] == "") ==> c == FallbackColor
  {
    if name in colors && colors[name] != "" then colors[name] else FallbackColor
  }
}
