/** How the two implementations relate. They encode the tiles differently
    (Rust: WALL false, FLOOR true; C: WALL 1, FLOOR 0) and count different
    cells: the Rust counts cells `== true` (FLOOR), the C counts cells
    `!= TILE_FLOOR` (WALL). With the same thresholds they therefore apply
    different rules. */
module Polarity {
  import opened Neighbourhood
  import opened GenerationRules
  import MapGenerator
  import CaveC

  /** A Rust map in the C encoding: WALL (false) becomes 1, FLOOR (true) becomes 0. */
  function ToC(g: seq<seq<bool>>): (c: seq<seq<int>>)
    ensures SameShape(c, g)
    ensures forall i, j :: InGrid(g, i, j) ==>
      (c[i][j] == CaveC.TILE_WALL <==> g[i][j] == MapGenerator.TILE_WALL) &&
      (c[i][j] == CaveC.TILE_WALL || c[i][j] == CaveC.TILE_FLOOR)
  {
    seq(|g|, i requires 0 <= i < |g| =>
      seq(|g[i]|, j requires 0 <= j < |g[i]| =>
        if g[i][j] == MapGenerator.TILE_WALL then CaveC.TILE_WALL else CaveC.TILE_FLOOR))
  }

  /** The cells the C counts on the encoded map are exactly the cells the Rust
      does not count on the original. */
  lemma CountedCellsAreOpposite(g: seq<seq<bool>>)
    ensures CaveC.WallMarks(ToC(g)) == Negate(g)
  {
    var a, b := CaveC.WallMarks(ToC(g)), Negate(g);
    forall i | 0 <= i < |g|
      ensures a[i] == b[i]
    {
    }
  }

  /** At an interior cell the Rust radius-1 count (FLOOR cells) and the C
      radius-1 count (WALL cells) of the same map add up to 9. */
  lemma R1CountsAddToNine(g: seq<seq<bool>>, width: int, y: int, x: int)
    requires IsGrid(g, width, |g|) && Interior(g, y, x)
    ensures CountR1(g, y, x) + CountR1(CaveC.WallMarks(ToC(g)), y, x) == 9
  {
    CountedCellsAreOpposite(g);
    R1Complement(g, width, y, x);
  }

  /** At any cell the Rust radius-2 count (FLOOR cells) and the C radius-2
      count (WALL cells) of the same map add up to the number of in-grid
      positions of the 5x5 window without its corners. */
  lemma R2CountsAddToPositions(g: seq<seq<bool>>, y: int, x: int)
    ensures CountR2(g, y, x) + CountR2(CaveC.WallMarks(ToC(g)), y, x) == CountR2(Filled(g), y, x)
  {
    CountedCellsAreOpposite(g);
    R2Complement(g, y, x);
  }

  /** Two cells or more away from the border those positions number 21. */
  lemma R2CountsAddTo21(g: seq<seq<bool>>, width: int, y: int, x: int)
    requires IsGrid(g, width, |g|) && 2 <= y < |g| - 2 && 2 <= x < width - 2
    ensures CountR2(g, y, x) + CountR2(CaveC.WallMarks(ToC(g)), y, x) == 21
  {
    R2CountsAddToPositions(g, y, x);
    R2FullWindow(g, width, y, x);
  }

  /** From the same draws both initialisers build the same map. */
  lemma SameInitialMap(width: int, height: int, fill: MachineInts.i32, draws: seq<nat>)
    requires width >= 1 && height >= 1 && fill >= 0
    requires |draws| == InteriorCount(width, height)
    ensures ToC(MapGenerator.InitialGrid(width, height, fill, draws))
      == CaveC.InitialGrid(width, height, fill as int, draws)
  {
    var r := ToC(MapGenerator.InitialGrid(width, height, fill, draws));
    var c := CaveC.InitialGrid(width, height, fill as int, draws);
    forall i | 0 <= i < height
      ensures r[i] == c[i]
    {
      forall j | 0 <= j < width
        ensures r[i][j] == c[i][j]
      {
        MapGenerator.InitialGridCells(width, height, fill, draws, i, j);
        CaveC.InitialGridCells(width, height, fill as int, draws, i, j);
      }
    }
  }

  /** The 3x3 map whose border is WALL and whose one interior cell is FLOOR. */
  function FloorCentre(): seq<seq<bool>> {
    [[false, false, false], [false, true, false], [false, false, false]]
  }

  /** At fill 0 every interior draw gives FLOOR, so a 3x3 map starts as FloorCentre. */
  lemma FloorCentreIsInitial(draw: nat)
    ensures MapGenerator.InitialGrid(3, 3, 0, [draw]) == FloorCentre()
  {
    var g, f := MapGenerator.InitialGrid(3, 3, 0, [draw]), FloorCentre();
    forall i | 0 <= i < 3
      ensures g[i] == f[i]
    {
      forall j | 0 <= j < 3
        ensures g[i][j] == f[i][j]
      {
        MapGenerator.InitialGridCells(3, 3, 0, [draw], i, j);
      }
    }
  }

  /** Around the centre of FloorCentre the 3x3 window holds one FLOOR cell. */
  lemma FloorCentreR1()
    ensures CountR1(FloorCentre(), 1, 1) == 1
  {
    var g := FloorCentre();
    assert SpanCount(g, 0, 0, 3) == 0;
    assert SpanCount(g, 1, 0, 3) == 1;
    assert SpanCount(g, 2, 0, 3) == 0;
    assert R1Rows(g, 1, 1, 0) == 0;
  }

  /** One row of the radius-2 window around the centre of FloorCentre. */
  lemma FloorCentreR2Row(i: int)
    requires -1 <= i <= 3
    ensures R2Span(FloorCentre(), 1, 1, i, 4) == if i == 1 then 1 else 0
  {
    var g := FloorCentre();
    assert R2Span(g, 1, 1, i, -1) == 0;
    assert R2Span(g, 1, 1, i, 0) == 0;
    assert R2Span(g, 1, 1, i, 1) == 0;
    assert R2Span(g, 1, 1, i, 2) == (if i == 1 then 1 else 0);
    assert R2Span(g, 1, 1, i, 3) == (if i == 1 then 1 else 0);
  }

  /** Around the centre of FloorCentre the radius-2 window holds one FLOOR cell. */
  lemma FloorCentreR2()
    ensures CountR2(FloorCentre(), 1, 1) == 1
  {
    var g := FloorCentre();
    FloorCentreR2Row(-1);
    FloorCentreR2Row(0);
    FloorCentreR2Row(1);
    FloorCentreR2Row(2);
    FloorCentreR2Row(3);
    assert R2Rows(g, 1, 1, -1) == 0;
    assert R2Rows(g, 1, 1, 0) == 0;
    assert R2Rows(g, 1, 1, 1) == 0;
    assert R2Rows(g, 1, 1, 2) == 1;
    assert R2Rows(g, 1, 1, 3) == 1;
  }

  /** At fill 0 the centre of a 3x3 map sees one FLOOR cell on both radii. */
  lemma InitialCentreCounts(draw: nat)
    ensures CountR1(MapGenerator.InitialGrid(3, 3, 0, [draw]), 1, 1) == 1
    ensures CountR2(MapGenerator.InitialGrid(3, 3, 0, [draw]), 1, 1) == 1
  {
    FloorCentreIsInitial(draw);
    FloorCentreR1();
    FloorCentreR2();
  }

  /** The Rust on a 3x3 map at fill 0 under the rule (2, 0, 1): both window
      counts of FLOOR cells are 1, 1 < 2 and 1 > 0, so the centre stays FLOOR. */
  lemma RustKeepsCentreFloor(draw: nat)
    ensures MapGenerator.ApplyRules(MapGenerator.InitialGrid(3, 3, 0, [draw]), [New(2, 0, 1)])[1][1]
      == MapGenerator.TILE_FLOOR
  {
    var g := MapGenerator.InitialGrid(3, 3, 0, [draw]);
    InitialCentreCounts(draw);
    var rule := New(2, 0, 1);
    assert [rule][..0] == [];
    assert MapGenerator.ApplyRules(g, [rule]) == MapGenerator.Iterate(g, rule, 1);
    assert MapGenerator.Iterate(g, rule, 1) == MapGenerator.Step(g, rule);
    MapGenerator.StepInteriorCell(g, rule, 1, 1);
  }

  /** The C on the same input counts WALL cells: 8 in the 3x3 window, and
      8 >= 2, so the centre becomes WALL. The two programs disagree. */
  lemma CTurnsCentreWall(draw: nat)
    ensures CaveC.ApplyParams(CaveC.InitialGrid(3, 3, 0, [draw]), [CaveC.GenerationParams(2, 0, 1)])[1][1]
      == CaveC.TILE_WALL
  {
    var g := MapGenerator.InitialGrid(3, 3, 0, [draw]);
    InitialCentreCounts(draw);
    R1CountsAddToNine(g, 3, 1, 1);
    SameInitialMap(3, 3, 0, [draw]);
    var c := CaveC.InitialGrid(3, 3, 0, [draw]);
    assert CountR1(CaveC.WallMarks(c), 1, 1) == 8;
    var p := CaveC.GenerationParams(2, 0, 1);
    assert [p][..0] == [];
    assert CaveC.ApplyParams(c, [p]) == CaveC.Iterate(c, p, 1);
    assert CaveC.Iterate(c, p, 1) == CaveC.Step(c, p);
    CaveC.StepInteriorCell(c, p, 1, 1);
  }

}
