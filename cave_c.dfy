/** The original C cave generator of src/main.c. Tiles are ints with
    TILE_FLOOR = 0 and TILE_WALL = 1, and both neighbour counts test a cell
    `!= TILE_FLOOR`, so this implementation counts WALL cells. */
module CaveC {
  import opened Neighbourhood

  const TILE_FLOOR: int := 0
  const TILE_WALL: int := 1

  /** `generation_params`: the two cutoffs and the repeat count of one rule. */
  datatype GenerationParams = GenerationParams(r1Cutoff: int, r2Cutoff: int, reps: int)

  /** `randpick`, given the value `rand()` returned (never negative). */
  function RandPick(draw: nat, fillprob: int): (tile: int)
    ensures tile == TILE_WALL || tile == TILE_FLOOR
    ensures tile == TILE_WALL <==> draw % 100 < fillprob
  {
    if draw % 100 < fillprob then TILE_WALL else TILE_FLOOR
  }

  /** A fill probability of 0 or less always gives FLOOR, one of 100 or more always WALL. */
  lemma FillProbExtremes(draw: nat, fillprob: int)
    ensures fillprob <= 0 ==> RandPick(draw, fillprob) == TILE_FLOOR
    ensures fillprob >= 100 ==> RandPick(draw, fillprob) == TILE_WALL
  {
  }

  /** The cells the C counts: those that are not TILE_FLOOR. */
  function WallMarks(g: seq<seq<int>>): (m: seq<seq<bool>>)
    ensures SameShape(m, g)
    ensures forall i, j :: InGrid(g, i, j) ==> m[i][j] == (g[i][j] != TILE_FLOOR)
  {
    seq(|g|, i requires 0 <= i < |g| => seq(|g[i]|, j requires 0 <= j < |g[i]| => g[i][j] != TILE_FLOOR))
  }

  /** The tile `generation` writes into grid2 for interior cell (y, x) of grid g. */
  function NextTile(g: seq<seq<int>>, p: GenerationParams, y: int, x: int): (tile: int)
    ensures tile == TILE_WALL || tile == TILE_FLOOR
    ensures tile == TILE_WALL <==>
      CountR1(WallMarks(g), y, x) >= p.r1Cutoff || CountR2(WallMarks(g), y, x) <= p.r2Cutoff
  {
    if CountR1(WallMarks(g), y, x) >= p.r1Cutoff || CountR2(WallMarks(g), y, x) <= p.r2Cutoff
    then TILE_WALL
    else TILE_FLOOR
  }

  /** One generation: every interior cell recomputed from g as a whole, border kept. */
  function Step(g: seq<seq<int>>, p: GenerationParams): (r: seq<seq<int>>)
    ensures SameShape(r, g)
    ensures forall i, j :: InGrid(g, i, j) && !Interior(g, i, j) ==> r[i][j] == g[i][j]
  {
    seq(|g|, i requires 0 <= i < |g| =>
      seq(|g[i]|, j requires 0 <= j < |g[i]| =>
        if Interior(g, i, j) then NextTile(g, p, i, j) else g[i][j]))
  }

  /** An interior cell becomes TILE_WALL exactly when its WALL count over the
      3x3 window reaches r1_cutoff or its WALL count over the radius-2 window is
      at most r2_cutoff, and TILE_FLOOR otherwise. */
  lemma StepInteriorCell(g: seq<seq<int>>, p: GenerationParams, y: int, x: int)
    requires Interior(g, y, x)
    ensures Step(g, p)[y][x] == TILE_WALL <==>
      CountR1(WallMarks(g), y, x) >= p.r1Cutoff || CountR2(WallMarks(g), y, x) <= p.r2Cutoff
    ensures Step(g, p)[y][x] == TILE_WALL || Step(g, p)[y][x] == TILE_FLOOR
  {
  }

  /** `n` successive generations under one rule; none when n <= 0. */
  function Iterate(g: seq<seq<int>>, p: GenerationParams, n: int): (r: seq<seq<int>>)
    ensures SameShape(r, g)
    decreases n
  {
    if n <= 0 then g else Step(Iterate(g, p, n - 1), p)
  }

  /** Every rule applied `reps` times, in order. */
  function ApplyParams(g: seq<seq<int>>, ps: seq<GenerationParams>): (r: seq<seq<int>>)
    ensures SameShape(r, g)
    decreases |ps|
  {
    if ps == [] then g
    else
      var last := ps[|ps| - 1];
      Iterate(ApplyParams(g, ps[..|ps| - 1]), last, last.reps)
  }

  lemma ApplyParamsPrefix(g: seq<seq<int>>, ps: seq<GenerationParams>, i: int)
    requires 0 <= i < |ps|
    ensures ApplyParams(g, ps[..i + 1]) == Iterate(ApplyParams(g, ps[..i]), ps[i], ps[i].reps)
  {
    assert ps[..i + 1][..i] == ps[..i];
  }

  /** A rule with reps <= 0 performs no generation. */
  lemma IdleParamsChangeNothing(g: seq<seq<int>>, ps: seq<GenerationParams>, p: GenerationParams)
    requires p.reps <= 0
    ensures ApplyParams(g, ps + [p]) == ApplyParams(g, ps)
  {
    assert (ps + [p])[..|ps|] == ps;
  }

  /** Generations keep the grid's shape and never change a border cell. */
  lemma {:induction false} IterateKeepsBorder(g: seq<seq<int>>, p: GenerationParams, n: int)
    ensures SameShape(Iterate(g, p, n), g)
    ensures forall i, j :: InGrid(g, i, j) && !Interior(g, i, j) ==> Iterate(g, p, n)[i][j] == g[i][j]
    decreases n
  {
    if n > 0 {
      IterateKeepsBorder(g, p, n - 1);
    }
  }

  lemma {:induction false} ApplyParamsKeepsBorder(g: seq<seq<int>>, ps: seq<GenerationParams>)
    ensures SameShape(ApplyParams(g, ps), g)
    ensures forall i, j :: InGrid(g, i, j) && !Interior(g, i, j) ==> ApplyParams(g, ps)[i][j] == g[i][j]
    decreases |ps|
  {
    if ps != [] {
      var last := ps[|ps| - 1];
      ApplyParamsKeepsBorder(g, ps[..|ps| - 1]);
      IterateKeepsBorder(ApplyParams(g, ps[..|ps| - 1]), last, last.reps);
    }
  }

  /** A width-by-height grid of TILE_WALL: grid2 after `initmap`. */
  function WallGrid(width: int, height: int): (g: seq<seq<int>>)
    requires width >= 0 && height >= 0
    ensures IsGrid(g, width, height)
    ensures forall i, j :: InGrid(g, i, j) ==> g[i][j] == TILE_WALL
  {
    seq(height, _ => seq(width, _ => TILE_WALL))
  }

  /** Interior cell (i, j) after `initmap`: `randpick` of its own draw. */
  function InitialCell(width: int, height: int, fillprob: int, draws: seq<nat>, i: int, j: int): (tile: int)
    requires |draws| == InteriorCount(width, height)
    requires 1 <= i < height - 1 && 1 <= j < width - 1
    ensures tile == TILE_WALL || tile == TILE_FLOOR
    ensures tile == TILE_WALL <==> draws[DrawIndex(width, height, i, j)] % 100 < fillprob
  {
    RandPick(draws[DrawIndex(width, height, i, j)], fillprob)
  }

  /** grid after `initmap`: TILE_WALL on the border, `randpick` inside. */
  function InitialGrid(width: int, height: int, fillprob: int, draws: seq<nat>): (g: seq<seq<int>>)
    requires width >= 1 && height >= 1
    requires |draws| == InteriorCount(width, height)
    ensures IsGrid(g, width, height)
  {
    seq(height, i requires 0 <= i < height =>
      seq(width, j requires 0 <= j < width =>
        if 1 <= i < height - 1 && 1 <= j < width - 1
        then InitialCell(width, height, fillprob, draws, i, j)
        else TILE_WALL))
  }

  /** After `initmap` every border cell of grid is TILE_WALL and every interior
      cell holds a `randpick` result. */
  lemma InitialGridCells(width: int, height: int, fillprob: int, draws: seq<nat>, i: int, j: int)
    requires width >= 1 && height >= 1
    requires |draws| == InteriorCount(width, height)
    requires 0 <= i < height && 0 <= j < width
    ensures var g := InitialGrid(width, height, fillprob, draws);
      if Interior(g, i, j)
      then g[i][j] == RandPick(draws[DrawIndex(width, height, i, j)], fillprob)
      else g[i][j] == TILE_WALL
  {
  }

  /** The final map's border is all TILE_WALL, whatever the rules. */
  lemma FinalBorderIsWall(width: int, height: int, fillprob: int, draws: seq<nat>,
                          ps: seq<GenerationParams>, i: int, j: int)
    requires width >= 1 && height >= 1
    requires |draws| == InteriorCount(width, height)
    requires 0 <= i < height && 0 <= j < width && !(1 <= i < height - 1 && 1 <= j < width - 1)
    ensures ApplyParams(InitialGrid(width, height, fillprob, draws), ps)[i][j] == TILE_WALL
  {
    var g := InitialGrid(width, height, fillprob, draws);
    ApplyParamsKeepsBorder(g, ps);
    InitialGridCells(width, height, fillprob, draws, i, j);
  }

  /** The rules `main` reads from the command line: triple k is argv[4+3k],
      argv[5+3k], argv[6+3k], for k below (argc - 4) / 3. */
  function GroupArgs(argv: seq<int>): (ps: seq<GenerationParams>)
    requires |argv| >= 4
    ensures |ps| == (|argv| - 4) / 3
  {
    seq((|argv| - 4) / 3, k requires 0 <= k < (|argv| - 4) / 3 =>
      GenerationParams(argv[4 + 3 * k], argv[5 + 3 * k], argv[6 + 3 * k]))
  }

  /** Arguments after the last complete triple are ignored. */
  lemma GroupIgnoresTrailing(argv: seq<int>)
    requires |argv| >= 4
    ensures 4 + 3 * |GroupArgs(argv)| <= |argv| < 4 + 3 * |GroupArgs(argv)| + 3
    ensures GroupArgs(argv[..4 + 3 * |GroupArgs(argv)|]) == GroupArgs(argv)
  {
  }

  /** The global state of the C program. */
  class CaveGenerator {
    var grid: array2<int>
    var grid2: array2<int>
    var fillprob: int
    var sizeX: int
    var sizeY: int
    var params: GenerationParams
    var paramsSet: seq<GenerationParams>
    var generations: int

    /** Both grids exist, are distinct, and are size_y rows of size_x cells. */
    ghost predicate Valid()
      reads this
    {
      grid != grid2 &&
      grid.Length0 == sizeY && grid.Length1 == sizeX &&
      grid2.Length0 == sizeY && grid2.Length1 == sizeX
    }

    /** The globals' initial values; the grids are not allocated yet. */
    constructor ()
      ensures fillprob == 40 && sizeX == 64 && sizeY == 20
      ensures paramsSet == [] && generations == 0
      ensures grid.Length0 == 0 && grid2.Length0 == 0
    {
      fillprob := 40;
      sizeX := 64;
      sizeY := 20;
      grid := new int[0, 0];
      grid2 := new int[0, 0];
      params := GenerationParams(0, 0, 0);
      paramsSet := [];
      generations := 0;
    }

    /** `initmap`: allocates both grids, fills grid's interior from the draws
        (one per interior cell, row by row), sets all of grid2 and the border
        of grid to TILE_WALL. */
    method InitMap(draws: seq<nat>)
      requires sizeX >= 1 && sizeY >= 1
      requires |draws| == InteriorCount(sizeX, sizeY)
      modifies this
      ensures fresh(grid) && fresh(grid2) && Valid()
      ensures sizeX == old(sizeX) && sizeY == old(sizeY) && fillprob == old(fillprob)
      ensures params == old(params) && paramsSet == old(paramsSet) && generations == old(generations)
      ensures Cells(grid) == InitialGrid(sizeX, sizeY, fillprob, draws)
      ensures Cells(grid2) == WallGrid(sizeX, sizeY)
    {
      var g1, g2 := NewGrids(sizeX, sizeY, fillprob, draws);
      grid, grid2 := g1, g2;
    }

    /** The radius-1 loop of `generation`: counts the cells `!= TILE_FLOOR` in
        the 3x3 window centred on interior cell (yi, xi). */
    method CountR1At(yi: int, xi: int) returns (adjcount: int)
      requires 1 <= yi < grid.Length0 - 1 && 1 <= xi < grid.Length1 - 1
      ensures adjcount == CountR1(WallMarks(Cells(grid)), yi, xi)
    {
      ghost var m := WallMarks(Cells(grid));
      adjcount := 0;
      for ii := -1 to 2
        invariant adjcount == R1Rows(m, yi, xi, yi + ii)
      {
        for jj := -1 to 2
          invariant adjcount == R1Rows(m, yi, xi, yi + ii) + SpanCount(m, yi + ii, xi - 1, xi + jj)
        {
          if grid[yi + ii, xi + jj] != TILE_FLOOR {
            adjcount := adjcount + 1;
          }
        }
      }
    }

    /** The radius-2 loop of `generation`: counts the cells `!= TILE_FLOOR` in
        the 5x5 window centred on (yi, xi), skipping corners and positions
        outside the grid. */
    method CountR2At(yi: int, xi: int) returns (adjcount: int)
      requires Valid()
      ensures adjcount == CountR2(WallMarks(Cells(grid)), yi, xi)
    {
      ghost var m := WallMarks(Cells(grid));
      adjcount := 0;
      for ii := yi - 2 to yi + 3
        invariant adjcount == R2Rows(m, yi, xi, ii)
      {
        for jj := xi - 2 to xi + 3
          invariant adjcount == R2Rows(m, yi, xi, ii) + R2Span(m, yi, xi, ii, jj)
        {
          if Abs(ii - yi) == 2 && Abs(jj - xi) == 2 {
            continue;
          }
          if ii < 0 || jj < 0 || ii >= sizeY || jj >= sizeX {
            continue;
          }
          if grid[ii, jj] != TILE_FLOOR {
            adjcount := adjcount + 1;
          }
        }
      }
    }

    /** `generation`: grid becomes one Step of its old value under `params`;
        grid2's interior ends equal to grid's and its border is never written. */
    method Generation()
      requires Valid()
      modifies grid, grid2
      ensures Cells(grid) == Step(old(Cells(grid)), params)
      ensures forall i, j :: 0 <= i < sizeY && 0 <= j < sizeX ==>
        grid2[i, j] == if 1 <= i < sizeY - 1 && 1 <= j < sizeX - 1 then grid[i, j] else old(grid2[i, j])
    {
      ghost var g0 := Cells(grid);
      ComputeNext();
      CopyInterior();
      ghost var r := Step(g0, params);
      forall i, j | 0 <= i < sizeY && 0 <= j < sizeX
        ensures grid[i, j] == r[i][j]
      {
      }
      CellsAre(grid, r);
    }

    /** The first double loop of `generation`: each interior cell of grid2 gets
        the tile `params` gives it on grid, which is only read. */
    method ComputeNext()
      requires Valid()
      modifies grid2
      ensures forall i, j :: 0 <= i < sizeY && 0 <= j < sizeX ==>
        grid2[i, j] == if 1 <= i < sizeY - 1 && 1 <= j < sizeX - 1
                       then NextTile(Cells(grid), params, i, j) else old(grid2[i, j])
    {
      ghost var g0 := Cells(grid);
      var yi := 1;
      while yi < sizeY - 1
        invariant 1 <= yi <= if sizeY >= 2 then sizeY - 1 else 1
        invariant forall i, j :: 0 <= i < sizeY && 0 <= j < sizeX ==>
          grid2[i, j] == if 1 <= i < yi && 1 <= j < sizeX - 1 then NextTile(g0, params, i, j) else old(grid2[i, j])
      {
        var xi := 1;
        while xi < sizeX - 1
          invariant 1 <= xi <= if sizeX >= 2 then sizeX - 1 else 1
          invariant forall i, j :: 0 <= i < sizeY && 0 <= j < sizeX ==>
            grid2[i, j] == if (1 <= i < yi && 1 <= j < sizeX - 1) || (i == yi && 1 <= j < xi)
                           then NextTile(g0, params, i, j) else old(grid2[i, j])
        {
          var adjcountR1 := CountR1At(yi, xi);
          var adjcountR2 := CountR2At(yi, xi);
          if adjcountR1 >= params.r1Cutoff || adjcountR2 <= params.r2Cutoff {
            grid2[yi, xi] := TILE_WALL;
          } else {
            grid2[yi, xi] := TILE_FLOOR;
          }
          xi := xi + 1;
        }
        yi := yi + 1;
      }
    }

    /** The last double loop of `generation`: grid2's interior is copied into grid. */
    method CopyInterior()
      requires Valid()
      modifies grid
      ensures forall i, j :: 0 <= i < sizeY && 0 <= j < sizeX ==>
        grid[i, j] == if 1 <= i < sizeY - 1 && 1 <= j < sizeX - 1 then grid2[i, j] else old(grid[i, j])
    {
      var yi := 1;
      while yi < sizeY - 1
        invariant 1 <= yi <= if sizeY >= 2 then sizeY - 1 else 1
        invariant forall i, j :: 0 <= i < sizeY && 0 <= j < sizeX ==>
          grid[i, j] == if 1 <= i < yi && 1 <= j < sizeX - 1 then grid2[i, j] else old(grid[i, j])
      {
        var xi := 1;
        while xi < sizeX - 1
          invariant 1 <= xi <= if sizeX >= 2 then sizeX - 1 else 1
          invariant forall i, j :: 0 <= i < sizeY && 0 <= j < sizeX ==>
            grid[i, j] == if (1 <= i < yi && 1 <= j < sizeX - 1) || (i == yi && 1 <= j < xi)
                          then grid2[i, j] else old(grid[i, j])
        {
          grid[yi, xi] := grid2[yi, xi];
          xi := xi + 1;
        }
        yi := yi + 1;
      }
    }

    /** The inner loop of `main`'s apply phase: `generation` run params.reps
        times, not at all when reps <= 0. */
    method RepeatGeneration()
      requires Valid()
      modifies grid, grid2
      ensures Cells(grid) == Iterate(old(Cells(grid)), params, params.reps)
    {
      ghost var before := Cells(grid);
      var jj := 0;
      while jj < params.reps
        invariant 0 <= jj <= if params.reps >= 0 then params.reps else 0
        invariant Cells(grid) == Iterate(before, params, jj)
      {
        Generation();
        jj := jj + 1;
      }
    }

    /** `main` without its printing: with fewer than 7 arguments it returns 1;
        otherwise it takes size_x, size_y and fillprob from argv[1..3], groups
        the rest into rule triples, initialises the grids from the draws and
        applies every rule in order. argv holds the arguments already converted
        by `atoi`; argv[0], the program name, is not used. */
    method Run(argv: seq<int>, draws: seq<nat>) returns (status: int)
      requires |argv| >= 7 ==> argv[1] >= 1 && argv[2] >= 1
      requires |argv| >= 7 ==> |draws| == InteriorCount(argv[1], argv[2])
      modifies this
      ensures |argv| < 7 ==> status == 1 && unchanged(this)
      ensures |argv| >= 7 ==> status == 0 && Valid()
      ensures |argv| >= 7 ==> sizeX == argv[1] && sizeY == argv[2] && fillprob == argv[3]
      ensures |argv| >= 7 ==> generations == (|argv| - 4) / 3 && paramsSet == GroupArgs(argv)
      ensures |argv| >= 7 ==> Cells(grid) == ApplyParams(InitialGrid(sizeX, sizeY, fillprob, draws), paramsSet)
    {
      if |argv| < 7 {
        return 1;
      }
      sizeX := argv[1];
      sizeY := argv[2];
      fillprob := argv[3];
      generations := (|argv| - 4) / 3;
      paramsSet := GroupTriples(argv, generations);
      InitMap(draws);
      ApplyAll();
      return 0;
    }

    /** The apply loop of `main`: for each rule in order, `params` is pointed
        at it and `generation` runs reps times. */
    method ApplyAll()
      requires Valid() && generations == |paramsSet|
      modifies this, grid, grid2
      ensures Valid() && grid == old(grid) && grid2 == old(grid2)
      ensures sizeX == old(sizeX) && sizeY == old(sizeY) && fillprob == old(fillprob)
      ensures paramsSet == old(paramsSet) && generations == old(generations)
      ensures Cells(grid) == ApplyParams(old(Cells(grid)), paramsSet)
    {
      ghost var g0 := Cells(grid);
      for ii := 0 to generations
        invariant Valid() && grid == old(grid) && grid2 == old(grid2)
        invariant sizeX == old(sizeX) && sizeY == old(sizeY) && fillprob == old(fillprob)
        invariant paramsSet == old(paramsSet) && generations == old(generations)
        invariant Cells(grid) == ApplyParams(g0, paramsSet[..ii])
      {
        params := paramsSet[ii];
        RepeatGeneration();
        ApplyParamsPrefix(g0, paramsSet, ii);
      }
      assert paramsSet[..generations] == paramsSet;
    }
  }

  /** The body of `initmap` on the two grids it allocates: `malloc` leaves
      their cells unspecified, and the four loop nests then write every cell of
      both. */
  method NewGrids(width: int, height: int, fillprob: int, draws: seq<nat>) returns (g1: array2<int>, g2: array2<int>)
    requires width >= 1 && height >= 1
    requires |draws| == InteriorCount(width, height)
    ensures fresh(g1) && fresh(g2) && g1 != g2
    ensures g1.Length0 == g2.Length0 == height && g1.Length1 == g2.Length1 == width
    ensures Cells(g1) == InitialGrid(width, height, fillprob, draws)
    ensures Cells(g2) == WallGrid(width, height)
  {
    g1 := new int[height, width];
    g2 := new int[height, width];
    FillInterior(g1, fillprob, draws);
    ghost var filled := Cells(g1);
    FillScratch(g2);
    WallBorder(g1);
    ghost var g := InitialGrid(width, height, fillprob, draws);
    forall i, j | 0 <= i < height && 0 <= j < width
      ensures g1[i, j] == g[i][j]
    {
      InitialGridCells(width, height, fillprob, draws, i, j);
      if 1 <= i < height - 1 && 1 <= j < width - 1 {
        assert g1[i, j] == filled[i][j];
      }
    }
    CellsAre(g1, g);
    CellsAre(g2, WallGrid(width, height));
  }

  /** The `randpick` loop of `initmap`: each interior cell of grid gets the
      next draw's tile; the other cells are not written. */
  method FillInterior(grid: array2<int>, fillprob: int, draws: seq<nat>)
    requires |draws| == InteriorCount(grid.Length1, grid.Length0)
    modifies grid
    ensures forall i, j :: 0 <= i < grid.Length0 && 0 <= j < grid.Length1 ==>
      grid[i, j] == if 1 <= i < grid.Length0 - 1 && 1 <= j < grid.Length1 - 1
                    then InitialCell(grid.Length1, grid.Length0, fillprob, draws, i, j)
                    else old(grid[i, j])
  {
    var h, w := grid.Length0, grid.Length1;
    var next := 0;
    var yi := 1;
    while yi < h - 1
      invariant 1 <= yi <= if h >= 2 then h - 1 else 1
      invariant next == InteriorCount(w, yi + 1)
      invariant forall i, j :: 0 <= i < h && 0 <= j < w ==>
        grid[i, j] == if 1 <= i < yi && 1 <= j < w - 1
                      then InitialCell(w, h, fillprob, draws, i, j) else old(grid[i, j])
    {
      var xi := 1;
      while xi < w - 1
        invariant 1 <= xi <= if w >= 2 then w - 1 else 1
        invariant next == InteriorCount(w, yi + 1) + (xi - 1)
        invariant forall i, j :: 0 <= i < h && 0 <= j < w ==>
          grid[i, j] == if (1 <= i < yi && 1 <= j < w - 1) || (i == yi && 1 <= j < xi)
                        then InitialCell(w, h, fillprob, draws, i, j) else old(grid[i, j])
      {
        DrawIndexAfterRows(w, h, yi, xi);
        grid[yi, xi] := RandPick(draws[next], fillprob);
        next := next + 1;
        xi := xi + 1;
      }
      InteriorCountNextRow(w, yi);
      yi := yi + 1;
    }
  }

  /** The loop of `initmap` that sets every cell of grid2 to TILE_WALL. */
  method FillScratch(grid2: array2<int>)
    modifies grid2
    ensures forall i, j :: 0 <= i < grid2.Length0 && 0 <= j < grid2.Length1 ==> grid2[i, j] == TILE_WALL
  {
    for yi := 0 to grid2.Length0
      invariant forall i, j :: 0 <= i < yi && 0 <= j < grid2.Length1 ==> grid2[i, j] == TILE_WALL
    {
      for xi := 0 to grid2.Length1
        invariant forall i, j ::
          0 <= i < grid2.Length0 && 0 <= j < grid2.Length1 && (i < yi || (i == yi && j < xi)) ==>
            grid2[i, j] == TILE_WALL
      {
        grid2[yi, xi] := TILE_WALL;
      }
    }
  }

  /** The two border loops of `initmap`: columns 0 and size_x-1, then rows 0
      and size_y-1, become TILE_WALL; interior cells are not written. */
  method WallBorder(grid: array2<int>)
    requires grid.Length0 >= 1 && grid.Length1 >= 1
    modifies grid
    ensures forall i, j :: 0 <= i < grid.Length0 && 0 <= j < grid.Length1 ==>
      grid[i, j] == if 1 <= i < grid.Length0 - 1 && 1 <= j < grid.Length1 - 1
                    then old(grid[i, j]) else TILE_WALL
  {
    var h, w := grid.Length0, grid.Length1;
    for yi := 0 to h
      invariant forall i, j :: 0 <= i < h && 0 <= j < w ==>
        grid[i, j] == if i < yi && (j == 0 || j == w - 1) then TILE_WALL else old(grid[i, j])
    {
      grid[yi, w - 1] := TILE_WALL;
      grid[yi, 0] := TILE_WALL;
    }
    for xi := 0 to w
      invariant forall i, j :: 0 <= i < h && 0 <= j < w ==>
        grid[i, j] == if j == 0 || j == w - 1 || (j < xi && (i == 0 || i == h - 1))
                      then TILE_WALL else old(grid[i, j])
    {
      grid[h - 1, xi] := TILE_WALL;
      grid[0, xi] := TILE_WALL;
    }
  }

  /** The grouping loop of `main`: walks a write position through a fresh
      array of `generations` records, one triple of arguments per step,
      starting at argv[4], while a complete triple remains. */
  method GroupTriples(argv: seq<int>, generations: int) returns (ps: seq<GenerationParams>)
    requires |argv| >= 7 && generations == (|argv| - 4) / 3
    ensures ps == GroupArgs(argv)
  {
    var paramsSet := new GenerationParams[generations](_ => GenerationParams(0, 0, 0));
    var k := 0;
    var ii := 4;
    while ii + 2 < |argv|
      invariant ii == 4 + 3 * k && 0 <= k <= generations
      invariant forall n :: 0 <= n < k ==> paramsSet[n] == GroupArgs(argv)[n]
    {
      paramsSet[k] := GenerationParams(argv[ii], argv[ii + 1], argv[ii + 2]);
      k := k + 1;
      ii := ii + 3;
    }
    ps := paramsSet[..];
  }
}
