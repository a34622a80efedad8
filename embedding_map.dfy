/**
 * `renderEmbeddingMap`: a legend with one entry per primary group, in the
 * order the groups first appear among the coordinates, followed by one
 * positioned point per coordinate entry. The markup is replaced by the
 * records it is built from.
 */
module EmbeddingMap {
  import opened VizData
  import opened Sequences

  /** Legend captions show this many characters of the group name. */
  const LegendLabelLength: nat := 20

  datatype LegendEntry = LegendEntry(primaryName: string, caption: string, color: string)

  /** A point of the map; `isCurrent` selects the highlighted style of the page's own subcluster. */
  datatype MapPoint = MapPoint(id: string, name: string, primaryName: string, x: real, y: real,
                               articleCount: int, color: string, isCurrent: bool)

  function PrimaryNames(coords: seq<Point>): (names: seq<string>)
    ensures |names| == |coords|
    ensures forall i :: 0 <= i < |coords| ==> names[i] == coords[i].primaryName
  {
    seq(|coords|, i requires 0 <= i < |coords| => coords[i].primaryName)
  }

  lemma PrimaryNamesSnoc(coords: seq<Point>, i: nat)
    requires i < |coords|
    ensures PrimaryNames(coords[..i + 1]) == PrimaryNames(coords[..i]) + [coords[i].primaryName]
  {
  }

  /** The legend entry of one primary name: at most 20 characters of it, and its colour. */
  function LegendEntryFor(name: string, colors: ColorTable): (e: LegendEntry)
    ensures e.primaryName == name && e.caption <= name && |e.caption| <= LegendLabelLength
    ensures e.color == ColorFor(colors, name) && e.color != ""
  {
    LegendEntry(name, Take(name, LegendLabelLength), ColorFor(colors, name))
  }

  function LegendFor(names: seq<string>, colors: ColorTable): (legend: seq<LegendEntry>)
    ensures |legend| == |names|
    ensures forall i :: 0 <= i < |names| ==> legend[i] == LegendEntryFor(names[i], colors)
  {
    seq(|names|, i requires 0 <= i < |names| => LegendEntryFor(names[i], colors))
  }

  lemma LegendForSnoc(names: seq<string>, name: string, colors: ColorTable)
    ensures LegendFor(names + [name], colors) == LegendFor(names, colors) + [LegendEntryFor(name, colors)]
  {
  }

  lemma LegendStep(coords: seq<Point>, i: nat, colors: ColorTable)
    requires i < |coords|
    ensures Elements(PrimaryNames(coords[..i + 1])) == Elements(PrimaryNames(coords[..i])) + {coords[i].primaryName}
    ensures Legend(coords[..i + 1], colors) ==
      if coords[i].primaryName in Elements(PrimaryNames(coords[..i])) then Legend(coords[..i], colors)
      else Legend(coords[..i], colors) + [LegendEntryFor(coords[i].primaryName, colors)]
  {
    var names, name := PrimaryNames(coords[..i]), coords[i].primaryName;
    PrimaryNamesSnoc(coords, i);
    DistinctSnoc(names, name);
    LegendForSnoc(Distinct(names), name, colors);
  }

  /** The legend of the map: the distinct primary names, each with its label and swatch colour. */
  function Legend(coords: seq<Point>, colors: ColorTable): (legend: seq<LegendEntry>)
    ensures forall j :: 0 <= j < |legend| ==> legend[j].primaryName in PrimaryNames(coords)
  {
    LegendFor(Distinct(PrimaryNames(coords)), colors)
  }

  /** The point of one entry: its fields and position, its primary's colour, and the highlight flag. */
  function PointFor(p: Point, currentId: string, colors: ColorTable): (m: MapPoint)
    ensures m.id == p.id && m.x == p.x && m.y == p.y && m.articleCount == p.articleCount
    ensures m.color == ColorFor(colors, p.primaryName)
    ensures m.isCurrent <==> p.id == currentId
  {
    MapPoint(p.id, p.name, p.primaryName, p.x, p.y, p.articleCount, ColorFor(colors, p.primaryName), p.id == currentId)
  }

  function Points(coords: seq<Point>, currentId: string, colors: ColorTable): (points: seq<MapPoint>)
    ensures |points| == |coords|
    ensures forall i :: 0 <= i < |coords| ==> points[i] == PointFor(coords[i], currentId, colors)
  {
    seq(|coords|, i requires 0 <= i < |coords| => PointFor(coords[i], currentId, colors))
  }

  lemma PointsSnoc(coords: seq<Point>, k: nat, currentId: string, colors: ColorTable)
    requires k < |coords|
    ensures Points(coords[..k + 1], currentId, colors) ==
      Points(coords[..k], currentId, colors) + [PointFor(coords[k], currentId, colors)]
  {
  }

  /**
   * The two loops of `renderEmbeddingMap`: the first adds a legend entry for
   * each primary name not yet in the `primariesSeen` set and then adds the
   * name to it; the second emits one point per coordinate entry.
   */
  method RenderEmbeddingMap(coords: seq<Point>, currentId: string, colors: ColorTable)
    returns (legend: seq<LegendEntry>, points: seq<MapPoint>)
    ensures legend == Legend(coords, colors)
    ensures points == Points(coords, currentId, colors)
  {
    var primariesSeen: set<string> := {};
    legend := [];
    var i := 0;
    while i < |coords|
      invariant 0 <= i <= |coords|
      invariant primariesSeen == Elements(PrimaryNames(coords[..i]))
      invariant legend == Legend(coords[..i], colors)
    {
      var name := coords[i].primaryName;
      LegendStep(coords, i, colors);
      if name !in primariesSeen {
        primariesSeen := primariesSeen + {name};
        legend := legend + [LegendEntryFor(name, colors)];
      }
      i := i + 1;
    }
    assert coords[..i] == coords;

    points := [];
    var k := 0;
    while k < |coords|
      invariant 0 <= k <= |coords|
      invariant points == Points(coords[..k], currentId, colors)
    {
      PointsSnoc(coords, k, currentId, colors);
      points := points + [PointFor(coords[k], currentId, colors)];
      k := k + 1;
    }
    assert coords[..k] == coords;
  }

  /** There are as many legend entries as there are distinct primary names among the coordinates. */
  lemma LegendCountsDistinctPrimaries(coords: seq<Point>, colors: ColorTable)
    ensures |Legend(coords, colors)| == |Elements(PrimaryNames(coords))|
  {
    DistinctLength(PrimaryNames(coords));
  }

  /** Every primary name of the coordinates has a legend entry, and every legend entry names one of them. */
  lemma LegendCoversPrimaries(coords: seq<Point>, colors: ColorTable)
    ensures forall i :: 0 <= i < |coords| ==>
      exists j :: 0 <= j < |Legend(coords, colors)| && Legend(coords, colors)[j].primaryName == coords[i].primaryName
    ensures forall j :: 0 <= j < |Legend(coords, colors)| ==>
      exists i :: 0 <= i < |coords| && coords[i].primaryName == Legend(coords, colors)[j].primaryName
  {
    var names := PrimaryNames(coords);
    var d := Distinct(names);
    var legend := Legend(coords, colors);
    forall i | 0 <= i < |coords|
      ensures exists j :: 0 <= j < |legend| && legend[j].primaryName == coords[i].primaryName
    {
      assert names[i] in d;
      var j :| 0 <= j < |d| && d[j] == names[i];
      assert legend[j].primaryName == d[j];
    }
    forall j | 0 <= j < |legend|
      ensures exists i :: 0 <= i < |coords| && coords[i].primaryName == legend[j].primaryName
    {
      assert d[j] in names;
      var i :| 0 <= i < |names| && names[i] == d[j];
      assert coords[i].primaryName == legend[j].primaryName;
    }
  }

  /** No primary name has two legend entries. */
  lemma LegendHasNoDuplicates(coords: seq<Point>, colors: ColorTable)
    ensures forall j, k :: 0 <= j < k < |Legend(coords, colors)| ==>
      Legend(coords, colors)[j].primaryName != Legend(coords, colors)[k].primaryName
  {
    DistinctHasNoDuplicates(PrimaryNames(coords));
  }

  /** Legend entries follow the order in which their primary names first occur among the coordinates. */
  lemma LegendInFirstOccurrenceOrder(coords: seq<Point>, colors: ColorTable)
    ensures forall j, k :: 0 <= j < k < |Legend(coords, colors)| ==>
      IndexOf(PrimaryNames(coords), Legend(coords, colors)[j].primaryName) <
      IndexOf(PrimaryNames(coords), Legend(coords, colors)[k].primaryName)
  {
    DistinctFirstOccurrenceOrder(PrimaryNames(coords));
  }

  /** Exactly the points of entries with the page's own id are highlighted, and every point keeps its entry's position. */
  lemma PointsMarkCurrent(coords: seq<Point>, currentId: string, colors: ColorTable)
    ensures var points := Points(coords, currentId, colors);
      forall i :: 0 <= i < |coords| ==>
        && (points[i].isCurrent <==> coords[i].id == currentId)
        && points[i].x == coords[i].x && points[i].y == coords[i].y
  {
  }
}
