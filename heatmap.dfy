/**
 * `renderHeatmap`: one cell per subcluster of the metadata, primaries in
 * order and members in order, each coloured by its similarity to the page's
 * own subcluster; then one caption per primary group. The markup is replaced
 * by the records it is built from, and the three ways the function can end
 * are told apart.
 */
module Heatmap {
  import opened VizData
  import opened Sequences
  import opened ColorScale

  /** Primary captions show this many characters of the group name. */
  const CaptionLength: nat := 15

  /** The fixed denominator of a caption's width: the subcluster count the page was laid out for. */
  const ExpectedSubclusterCount: nat := 70

  /** One cell of the heatmap row; `isCurrent` draws the distinguishing border. */
  datatype Cell = Cell(id: string, name: string, primaryName: string, similarity: real, color: Rgb, isCurrent: bool)

  /** A caption under the row: truncated group name, group colour, and width in percent. */
  datatype PrimaryLabel = PrimaryLabel(caption: string, color: string, widthPercent: real)

  datatype HeatmapOutcome =
      /** The current id is not in the matrix: the function returns before building anything. */
    | Unchanged
      /**
       * A member has no similarity: either the matrix has no row for the current
       * id, so reading `simRow[idx]` throws, or the value read is undefined, so
       * `sim.toFixed` throws. Either way the container is never assigned.
       */
    | Thrown
      /** The container receives the cell row, the captions and the fixed two-caption legend. */
    | Rendered(cells: seq<Cell>, labels: seq<PrimaryLabel>)

  /** A member of a primary group, together with that group's name. */
  datatype Slot = Slot(primaryName: string, sub: SubclusterRef)

  function SlotsOf(p: Primary): (slots: seq<Slot>)
    ensures |slots| == |p.subclusters|
    ensures forall s :: 0 <= s < |p.subclusters| ==> slots[s] == Slot(p.name, p.subclusters[s])
  {
    seq(|p.subclusters|, s requires 0 <= s < |p.subclusters| => Slot(p.name, p.subclusters[s]))
  }

  /** The visiting order of the two nested `forEach` loops. */
  function Slots(ps: seq<Primary>): seq<Slot> {
    if ps == [] then [] else Slots(ps[..|ps| - 1]) + SlotsOf(ps[|ps| - 1])
  }

  /** The number of members over all primary groups. */
  function MemberCount(ps: seq<Primary>): nat {
    if ps == [] then 0 else MemberCount(ps[..|ps| - 1]) + |ps[|ps| - 1].subclusters|
  }

  /** `data.matrix[currentIdx]`, or None where JavaScript reads `undefined`. */
  function RowAt(data: SimilarityMatrix, idx: nat): (row: Option<seq<real>>)
    ensures row.Some? <==> idx < |data.matrix|
    ensures row.Some? ==> row.value == data.matrix[idx]
  {
    if idx < |data.matrix| then Some(data.matrix[idx]) else None
  }

  /**
   * `simRow[data.subclusters.indexOf(id)]` when it is a number; None when the
   * row is missing (reading from it throws), the id is not in the matrix
   * (`simRow[-1]`) or the row is too short, which all end in a throw.
   */
  function SimilarityOf(data: SimilarityMatrix, row: Option<seq<real>>, id: string): (sim: Option<real>)
    ensures sim.Some? <==> row.Some? && id in data.subclusters && IndexOf(data.subclusters, id) < |row.value|
    ensures sim.Some? ==> sim.value == row.value[IndexOf(data.subclusters, id)]
  {
    var idx := IndexOf(data.subclusters, id);
    if row.None? || idx < 0 || idx >= |row.value| then None else Some(row.value[idx])
  }

  /** The cell of one member: its fields, its similarity, the scale colour of that similarity, and the border flag. */
  function CellFor(slot: Slot, sim: real, currentId: string): (c: Cell)
    ensures c.id == slot.sub.id && c.name == slot.sub.name && c.primaryName == slot.primaryName
    ensures c.similarity == sim && c.color == HeatmapColor(c.similarity)
    ensures c.isCurrent <==> c.id == currentId
  {
    Cell(slot.sub.id, slot.sub.name, slot.primaryName, sim, HeatmapColor(sim), slot.sub.id == currentId)
  }

  /** The cells for the given slots, or None as soon as one slot has no similarity. */
  function Cells(data: SimilarityMatrix, row: Option<seq<real>>, slots: seq<Slot>, currentId: string): (cells: Option<seq<Cell>>)
    ensures cells.Some? ==> |cells.value| == |slots|
  {
    if slots == [] then Some([])
    else
      var last := slots[|slots| - 1];
      var before := Cells(data, row, slots[..|slots| - 1], currentId);
      var sim := SimilarityOf(data, row, last.sub.id);
      if before.Some? && sim.Some? then Some(before.value + [CellFor(last, sim.value, currentId)]) else None
  }

  /** The caption of one primary: at most 15 characters of its name, its colour, and its share of 70 members in percent. */
  function LabelFor(p: Primary): (l: PrimaryLabel)
    ensures l.caption <= p.name && |l.caption| <= CaptionLength && l.color == p.color
    ensures l.widthPercent >= 0.0
    ensures |p.subclusters| == ExpectedSubclusterCount ==> l.widthPercent == 100.0
  {
    PrimaryLabel(Take(p.name, CaptionLength), p.color,
                 (|p.subclusters| as real) / (ExpectedSubclusterCount as real) * 100.0)
  }

  function Labels(ps: seq<Primary>): (labels: seq<PrimaryLabel>)
    ensures |labels| == |ps|
    ensures forall i :: 0 <= i < |ps| ==> labels[i] == LabelFor(ps[i])
  {
    seq(|ps|, i requires 0 <= i < |ps| => LabelFor(ps[i]))
  }

  /** What `renderHeatmap(containerId, data, currentId, colors, metadata)` leaves behind. */
  function HeatmapSpec(data: SimilarityMatrix, currentId: string, metadata: Metadata): (outcome: HeatmapOutcome)
    ensures outcome.Rendered? ==> currentId in data.subclusters
    ensures outcome.Rendered? ==> |outcome.labels| == |metadata.primaries|
  {
    var idx := IndexOf(data.subclusters, currentId);
    if idx < 0 then Unchanged
    else
      match Cells(data, RowAt(data, idx), Slots(metadata.primaries), currentId)
      case None => Thrown
      case Some(cells) => Rendered(cells, Labels(metadata.primaries))
  }

  /**
   * The cell-building loops of `renderHeatmap`: look up the current row, then
   * visit every member of every primary and append its cell; the first member
   * without a similarity aborts the whole rendering.
   */
  method RenderHeatmap(data: SimilarityMatrix, currentId: string, metadata: Metadata) returns (outcome: HeatmapOutcome)
    ensures outcome == HeatmapSpec(data, currentId, metadata)
  {
    var currentIdx := IndexOf(data.subclusters, currentId);
    if currentIdx == -1 {
      return Unchanged;
    }
    var simRow := RowAt(data, currentIdx);
    var ps := metadata.primaries;
    var cells: seq<Cell> := [];
    var p := 0;
    while p < |ps|
      invariant 0 <= p <= |ps|
      invariant Cells(data, simRow, Slots(ps[..p]), currentId) == Some(cells)
    {
      var primary := ps[p];
      var s := 0;
      assert Slots(ps[..p]) + SlotsOf(primary)[..s] == Slots(ps[..p]);
      while s < |primary.subclusters|
        invariant 0 <= s <= |primary.subclusters|
        invariant Cells(data, simRow, Slots(ps[..p]) + SlotsOf(primary)[..s], currentId) == Some(cells)
      {
        var sub := primary.subclusters[s];
        var sim := SimilarityOf(data, simRow, sub.id);
        CellStep(data, simRow, Slots(ps[..p]), primary, s, currentId);
        if sim.None? {
          FailureIsFinal(data, simRow, ps, p, s, currentId);
          return Thrown;
        }
        cells := cells + [CellFor(Slot(primary.name, sub), sim.value, currentId)];
        s := s + 1;
      }
      SlotsStep(ps, p);
      p := p + 1;
    }
    assert ps[..p] == ps;
    return Rendered(cells, Labels(ps));
  }

  lemma SlotsStep(ps: seq<Primary>, p: nat)
    requires p < |ps|
    ensures Slots(ps[..p + 1]) == Slots(ps[..p]) + SlotsOf(ps[p])[..|ps[p].subclusters|]
  {
    assert ps[..p + 1][..p] == ps[..p];
    assert SlotsOf(ps[p])[..|ps[p].subclusters|] == SlotsOf(ps[p]);
  }

  lemma CellsSnoc(data: SimilarityMatrix, row: Option<seq<real>>, before: seq<Slot>, slot: Slot, currentId: string)
    ensures Cells(data, row, before + [slot], currentId) ==
      if Cells(data, row, before, currentId).Some? && SimilarityOf(data, row, slot.sub.id).Some?
      then Some(Cells(data, row, before, currentId).value + [CellFor(slot, SimilarityOf(data, row, slot.sub.id).value, currentId)])
      else None
  {
    assert (before + [slot])[..|before|] == before;
  }

  lemma CellStep(data: SimilarityMatrix, row: Option<seq<real>>, done: seq<Slot>, primary: Primary, s: nat, currentId: string)
    requires s < |primary.subclusters|
    ensures var before := done + SlotsOf(primary)[..s];
      var sim := SimilarityOf(data, row, primary.subclusters[s].id);
      Cells(data, row, done + SlotsOf(primary)[..s + 1], currentId) ==
        if Cells(data, row, before, currentId).Some? && sim.Some?
        then Some(Cells(data, row, before, currentId).value + [CellFor(Slot(primary.name, primary.subclusters[s]), sim.value, currentId)])
        else None
  {
    var after := done + SlotsOf(primary)[..s + 1];
    assert after[..|after| - 1] == done + SlotsOf(primary)[..s];
    assert after[|after| - 1] == Slot(primary.name, primary.subclusters[s]);
  }

  /** The slots of two lists of primaries joined end to end. */
  lemma {:induction false} SlotsConcat(a: seq<Primary>, b: seq<Primary>)
    ensures Slots(a + b) == Slots(a) + Slots(b)
    decreases |b|
  {
    if b == [] {
      assert a + b == a;
    } else {
      var n := |b| - 1;
      var ab := a + b;
      assert ab[..|ab| - 1] == a + b[..n];
      assert ab[|ab| - 1] == b[n];
      SlotsConcat(a, b[..n]);
      calc {
        Slots(ab);
        Slots(a + b[..n]) + SlotsOf(b[n]);
        (Slots(a) + Slots(b[..n])) + SlotsOf(b[n]);
        Slots(a) + (Slots(b[..n]) + SlotsOf(b[n]));
        Slots(a) + Slots(b);
      }
    }
  }

  /** The slots of primary p sit between those of the primaries before and after it. */
  lemma SlotsSplit(ps: seq<Primary>, p: nat)
    requires p < |ps|
    ensures Slots(ps) == Slots(ps[..p]) + SlotsOf(ps[p]) + Slots(ps[p + 1..])
  {
    var init := ps[..p + 1];
    assert ps == init + ps[p + 1..];
    SlotsConcat(init, ps[p + 1..]);
    assert init[..|init| - 1] == ps[..p];
    assert init[|init| - 1] == ps[p];
    assert Slots(init) == Slots(ps[..p]) + SlotsOf(ps[p]);
  }

  /** One member without a similarity leaves the whole row without cells. */
  lemma FailureIsFinal(data: SimilarityMatrix, row: Option<seq<real>>, ps: seq<Primary>, p: nat, s: nat, currentId: string)
    requires p < |ps| && s < |ps[p].subclusters|
    requires SimilarityOf(data, row, ps[p].subclusters[s].id).None?
    ensures Cells(data, row, Slots(ps), currentId).None?
  {
    SlotAt(ps, p, s);
    CellsExistIff(data, row, Slots(ps), currentId);
    var k := MemberCount(ps[..p]) + s;
    assert Slots(ps)[k].sub.id == ps[p].subclusters[s].id;
  }

  /** There is one slot per member of every primary group. */
  lemma {:induction false} SlotsCount(ps: seq<Primary>)
    ensures |Slots(ps)| == MemberCount(ps)
  {
    if ps != [] {
      SlotsCount(ps[..|ps| - 1]);
    }
  }

  /** Member s of primary p is visited after all members of the earlier primaries and the s members before it. */
  lemma SlotAt(ps: seq<Primary>, p: nat, s: nat)
    requires p < |ps| && s < |ps[p].subclusters|
    ensures MemberCount(ps[..p]) + s < |Slots(ps)|
    ensures Slots(ps)[MemberCount(ps[..p]) + s] == Slot(ps[p].name, ps[p].subclusters[s])
  {
    SlotsSplit(ps, p);
    SlotsCount(ps[..p]);
    var k := MemberCount(ps[..p]) + s;
    assert Slots(ps)[k] == SlotsOf(ps[p])[s];
  }

  /** Every slot is some member s of some primary p. */
  lemma {:induction false} SlotOrigin(ps: seq<Primary>, i: nat)
    requires i < |Slots(ps)|
    ensures exists p, s :: (0 <= p < |ps| && 0 <= s < |ps[p].subclusters| &&
                            Slots(ps)[i] == Slot(ps[p].name, ps[p].subclusters[s]))
  {
    var n := |ps| - 1;
    var init := ps[..n];
    if i < |Slots(init)| {
      SlotOrigin(init, i);
      var p, s :| 0 <= p < |init| && 0 <= s < |init[p].subclusters| &&
        Slots(init)[i] == Slot(init[p].name, init[p].subclusters[s]);
      assert ps[p] == init[p];
    } else {
      var s := i - |Slots(init)|;
      assert Slots(ps)[i] == SlotsOf(ps[n])[s];
    }
  }

  /** The cells exist exactly when every slot has a similarity. */
  lemma {:induction false} CellsExistIff(data: SimilarityMatrix, row: Option<seq<real>>, slots: seq<Slot>, currentId: string)
    ensures Cells(data, row, slots, currentId).Some? <==>
      forall i :: 0 <= i < |slots| ==> SimilarityOf(data, row, slots[i].sub.id).Some?
  {
    if slots != [] {
      var init := slots[..|slots| - 1];
      CellsExistIff(data, row, init, currentId);
      assert forall i :: 0 <= i < |init| ==> init[i] == slots[i];
    }
  }

  /** Cell i is built from slot i and that slot's similarity. */
  lemma {:induction false} CellsAt(data: SimilarityMatrix, row: Option<seq<real>>, slots: seq<Slot>, currentId: string)
    requires Cells(data, row, slots, currentId).Some?
    ensures var cells := Cells(data, row, slots, currentId).value;
      && |cells| == |slots|
      && forall i :: 0 <= i < |slots| ==>
        SimilarityOf(data, row, slots[i].sub.id).Some? &&
        cells[i] == CellFor(slots[i], SimilarityOf(data, row, slots[i].sub.id).value, currentId)
  {
    if slots != [] {
      var init := slots[..|slots| - 1];
      CellsAt(data, row, init, currentId);
      assert forall i :: 0 <= i < |init| ==> init[i] == slots[i];
    }
  }

  /** The container is left untouched exactly when the current id is not in the matrix's id list. */
  lemma HeatmapUnchangedIff(data: SimilarityMatrix, currentId: string, metadata: Metadata)
    ensures HeatmapSpec(data, currentId, metadata).Unchanged? <==> currentId !in data.subclusters
  {
  }

  /**
   * The rendering throws exactly when the current id is in the matrix but some
   * member of some primary group has no similarity in the current row.
   */
  lemma HeatmapThrowsIff(data: SimilarityMatrix, currentId: string, metadata: Metadata)
    ensures HeatmapSpec(data, currentId, metadata).Thrown? <==>
      currentId in data.subclusters &&
      exists p, s :: 0 <= p < |metadata.primaries| && 0 <= s < |metadata.primaries[p].subclusters| &&
        SimilarityOf(data, RowAt(data, IndexOf(data.subclusters, currentId)), metadata.primaries[p].subclusters[s].id).None?
  {
    var ps := metadata.primaries;
    if currentId in data.subclusters {
      var row := RowAt(data, IndexOf(data.subclusters, currentId));
      var slots := Slots(ps);
      CellsExistIff(data, row, slots, currentId);
      if Cells(data, row, slots, currentId).None? {
        var i :| 0 <= i < |slots| && SimilarityOf(data, row, slots[i].sub.id).None?;
        SlotOrigin(ps, i);
      } else {
        forall p, s | 0 <= p < |ps| && 0 <= s < |ps[p].subclusters|
          ensures SimilarityOf(data, row, ps[p].subclusters[s].id).Some?
        {
          SlotAt(ps, p, s);
        }
      }
    }
  }

  /**
   * Member s of primary p is shown by the cell that follows the members of all
   * earlier primaries and the s members before it. That cell carries the
   * member's id, name and group, its similarity in the current row of the
   * matrix, the scale colour of that similarity, and whether it is the page's
   * own subcluster.
   */
  predicate ShowsMember(cells: seq<Cell>, data: SimilarityMatrix, currentId: string, ps: seq<Primary>, p: int, s: int)
    requires 0 <= p < |ps| && 0 <= s < |ps[p].subclusters|
  {
    var sub := ps[p].subclusters[s];
    var k := MemberCount(ps[..p]) + s;
    var rowIdx, colIdx := IndexOf(data.subclusters, currentId), IndexOf(data.subclusters, sub.id);
    && k < |cells|
    && 0 <= rowIdx < |data.matrix|
    && 0 <= colIdx < |data.matrix[rowIdx]|
    && var sim := data.matrix[rowIdx][colIdx];
       cells[k] == Cell(sub.id, sub.name, ps[p].name, sim, HeatmapColor(sim), sub.id == currentId)
  }

  /** Cell k of a complete row is built from slot k and its similarity. */
  lemma CellAt(data: SimilarityMatrix, row: Option<seq<real>>, slots: seq<Slot>, currentId: string, k: nat)
    requires Cells(data, row, slots, currentId).Some?
    requires k < |slots|
    ensures |Cells(data, row, slots, currentId).value| == |slots|
    ensures SimilarityOf(data, row, slots[k].sub.id).Some?
    ensures Cells(data, row, slots, currentId).value[k] ==
      CellFor(slots[k], SimilarityOf(data, row, slots[k].sub.id).value, currentId)
  {
    CellsAt(data, row, slots, currentId);
  }

  /** The cell of member s of primary p, at the level of the cell list. */
  lemma MemberCell(data: SimilarityMatrix, row: Option<seq<real>>, ps: seq<Primary>, currentId: string, p: nat, s: nat)
    requires Cells(data, row, Slots(ps), currentId).Some?
    requires p < |ps| && s < |ps[p].subclusters|
    ensures var sub := ps[p].subclusters[s];
      var k := MemberCount(ps[..p]) + s;
      var cells := Cells(data, row, Slots(ps), currentId).value;
      && k < |cells|
      && SimilarityOf(data, row, sub.id).Some?
      && cells[k] == CellFor(Slot(ps[p].name, sub), SimilarityOf(data, row, sub.id).value, currentId)
  {
    SlotAt(ps, p, s);
    CellAt(data, row, Slots(ps), currentId, MemberCount(ps[..p]) + s);
  }

  lemma CellOfMember(data: SimilarityMatrix, currentId: string, metadata: Metadata, p: nat, s: nat)
    requires HeatmapSpec(data, currentId, metadata).Rendered?
    requires p < |metadata.primaries| && s < |metadata.primaries[p].subclusters|
    ensures ShowsMember(HeatmapSpec(data, currentId, metadata).cells, data, currentId, metadata.primaries, p, s)
  {
    var ps := metadata.primaries;
    var rowIdx := IndexOf(data.subclusters, currentId);
    var row := RowAt(data, rowIdx);
    assert HeatmapSpec(data, currentId, metadata).cells == Cells(data, row, Slots(ps), currentId).value;
    MemberCell(data, row, ps, currentId, p, s);
    var sub := ps[p].subclusters[s];
    var colIdx := IndexOf(data.subclusters, sub.id);
    assert SimilarityOf(data, row, sub.id).value == data.matrix[rowIdx][colIdx];
  }

  /** A rendered row has one cell per member, each showing its member in primary-then-member order. */
  lemma HeatmapCellsInOrder(data: SimilarityMatrix, currentId: string, metadata: Metadata)
    requires HeatmapSpec(data, currentId, metadata).Rendered?
    ensures |HeatmapSpec(data, currentId, metadata).cells| == MemberCount(metadata.primaries)
    ensures forall p, s :: 0 <= p < |metadata.primaries| && 0 <= s < |metadata.primaries[p].subclusters| ==>
      ShowsMember(HeatmapSpec(data, currentId, metadata).cells, data, currentId, metadata.primaries, p, s)
  {
    var ps := metadata.primaries;
    CellsAt(data, RowAt(data, IndexOf(data.subclusters, currentId)), Slots(ps), currentId);
    SlotsCount(ps);
    forall p, s | 0 <= p < |ps| && 0 <= s < |ps[p].subclusters|
      ensures ShowsMember(HeatmapSpec(data, currentId, metadata).cells, data, currentId, ps, p, s)
    {
      CellOfMember(data, currentId, metadata, p, s);
    }
  }

  /** In a rendered row a cell has the border exactly when it is the page's own subcluster. */
  lemma HeatmapMarksCurrent(data: SimilarityMatrix, currentId: string, metadata: Metadata)
    requires HeatmapSpec(data, currentId, metadata).Rendered?
    ensures var cells := HeatmapSpec(data, currentId, metadata).cells;
      forall i :: 0 <= i < |cells| ==> (cells[i].isCurrent <==> cells[i].id == currentId)
  {
    CellsAt(data, RowAt(data, IndexOf(data.subclusters, currentId)), Slots(metadata.primaries), currentId);
  }

  /** The matrix is square over its id list, as `similarity_matrix.json` promises. */
  predicate IsSquare(data: SimilarityMatrix) {
    |data.matrix| == |data.subclusters| &&
    forall i :: 0 <= i < |data.matrix| ==> |data.matrix[i]| == |data.subclusters|
  }

  /** Every member listed in the metadata has a row and column in the matrix. */
  predicate CoversMetadata(data: SimilarityMatrix, metadata: Metadata) {
    forall p, s :: 0 <= p < |metadata.primaries| && 0 <= s < |metadata.primaries[p].subclusters| ==>
      metadata.primaries[p].subclusters[s].id in data.subclusters
  }

  /** On consistent data the row renders whenever the current id is in the matrix. */
  lemma ConsistentDataRenders(data: SimilarityMatrix, currentId: string, metadata: Metadata)
    requires IsSquare(data) && CoversMetadata(data, metadata)
    requires currentId in data.subclusters
    ensures HeatmapSpec(data, currentId, metadata).Rendered?
  {
    HeatmapThrowsIff(data, currentId, metadata);
  }

  /** The sum of the caption widths, in percent. */
  function TotalWidth(labels: seq<PrimaryLabel>): real {
    if labels == [] then 0.0 else TotalWidth(labels[..|labels| - 1]) + labels[|labels| - 1].widthPercent
  }

  /**
   * The captions together are MemberCount/70 of the row's width, so they span
   * it exactly only when there are 70 members.
   */
  lemma {:induction false} CaptionWidths(ps: seq<Primary>)
    ensures TotalWidth(Labels(ps)) == (MemberCount(ps) as real) / (ExpectedSubclusterCount as real) * 100.0
    ensures TotalWidth(Labels(ps)) == 100.0 <==> MemberCount(ps) == ExpectedSubclusterCount
  {
    if ps != [] {
      var n := |ps| - 1;
      CaptionWidths(ps[..n]);
      assert Labels(ps)[..n] == Labels(ps[..n]);
    }
  }

  /**
   * Ids a, b, c, the row of b is [0.2, 1.0, 0.6], and one primary group lists
   * a, b, c: the cell of a is mostly blue, that of c mostly red, and only b's
   * cell has the border.
   */
  lemma ThreeSubclusterRow()
    ensures HeatmapSpec(SampleMatrix(), "b", SampleMetadata()) == Rendered(
        [Cell("a", "A", "P", 0.2, Rgb(102, 102, 255), false),
         Cell("b", "B", "P", 1.0, Red, true),
         Cell("c", "C", "P", 0.6, Rgb(255, 204, 204), false)],
        [PrimaryLabel("P", "#333", 3.0 / 70.0 * 100.0)])
  {
    var data, metadata := SampleMatrix(), SampleMetadata();
    var primary := metadata.primaries[0];
    assert IndexOf(data.subclusters, "b") == 1;
    var row := RowAt(data, 1);
    assert row == Some([0.2, 1.0, 0.6]);
    SampleSlots();
    var slots := Slots(metadata.primaries);
    SampleCells(slots, row);
    assert Take(primary.name, CaptionLength) == "P";
  }

  function SampleMatrix(): SimilarityMatrix {
    SimilarityMatrix(["a", "b", "c"], [[1.0, 0.2, 0.7], [0.2, 1.0, 0.6], [0.7, 0.6, 1.0]])
  }

  function SampleMetadata(): Metadata {
    Metadata([Primary("P", "#333", [SubclusterRef("a", "A"), SubclusterRef("b", "B"), SubclusterRef("c", "C")])])
  }

  lemma SampleSlots()
    ensures Slots(SampleMetadata().primaries) ==
      [Slot("P", SubclusterRef("a", "A")), Slot("P", SubclusterRef("b", "B")), Slot("P", SubclusterRef("c", "C"))]
  {
    var ps := SampleMetadata().primaries;
    assert ps[..0] == [];
    assert Slots(ps) == SlotsOf(ps[0]);
  }

  lemma SampleSimilarities(row: Option<seq<real>>)
    requires row == Some([0.2, 1.0, 0.6])
    ensures SimilarityOf(SampleMatrix(), row, "a") == Some(0.2)
    ensures SimilarityOf(SampleMatrix(), row, "b") == Some(1.0)
    ensures SimilarityOf(SampleMatrix(), row, "c") == Some(0.6)
  {
    var ids := SampleMatrix().subclusters;
    assert IndexOf(ids, "a") == 0;
    assert IndexOf(ids, "b") == 1;
    assert IndexOf(ids, "c") == 2;
  }

  lemma SampleCells(slots: seq<Slot>, row: Option<seq<real>>)
    requires slots == [Slot("P", SubclusterRef("a", "A")), Slot("P", SubclusterRef("b", "B")), Slot("P", SubclusterRef("c", "C"))]
    requires row == Some([0.2, 1.0, 0.6])
    ensures Cells(SampleMatrix(), row, slots, "b") == Some(
        [Cell("a", "A", "P", 0.2, Rgb(102, 102, 255), false),
         Cell("b", "B", "P", 1.0, Red, true),
         Cell("c", "C", "P", 0.6, Rgb(255, 204, 204), false)])
  {
    var data := SampleMatrix();
    SampleSimilarities(row);
    HeatmapColorSamples();
    HeatmapColorAnchors();
    var a := Cell("a", "A", "P", 0.2, Rgb(102, 102, 255), false);
    var b := Cell("b", "B", "P", 1.0, Red, true);
    var c := Cell("c", "C", "P", 0.6, Rgb(255, 204, 204), false);
    assert CellFor(slots[0], 0.2, "b") == a;
    assert CellFor(slots[1], 1.0, "b") == b;
    assert CellFor(slots[2], 0.6, "b") == c;
    CellsSnoc(data, row, [], slots[0], "b");
    assert [] + [slots[0]] == slots[..1];
    assert [] + [a] == [a];
    CellsSnoc(data, row, slots[..1], slots[1], "b");
    assert slots[..1] + [slots[1]] == slots[..2];
    assert [a] + [b] == [a, b];
    CellsSnoc(data, row, slots[..2], slots[2], "b");
    assert slots[..2] + [slots[2]] == slots;
    assert [a, b] + [c] == [a, b, c];
  }
}
