/** The Rust cave generator of src/map_generator.rs. Tiles are booleans with
    TILE_FLOOR = true and TILE_WALL = false, and both neighbour counts test a
    cell `== true`, so this implementation counts FLOOR cells. */
module MapGenerator {
  import opened MachineInts
  import opened GenerationRules
  import opened Neighbourhood

  const TILE_FLOOR: bool := true
  const TILE_WALL: bool := false

  /** `random_select`, given the random `u32` draw: WALL with probability
      fill_percent/100. A negative fill percentage is excluded (its cast to `u32`
      wraps). */
  function RandomSelect(draw: nat, fillPercent: i32): (tile: bool)
    requires fillPercent >= 0
    ensures tile == TILE_WALL <==> draw % 100 < fillPercent as int
  {
    if draw % 100 < fillPercent as int then TILE_WALL else TILE_FLOOR
  }

  /** A fill percentage of 0 always gives FLOOR, and one of 100 or more always WALL. */
  lemma FillPercentExtremes(draw: nat, fillPercent: i32)
    requires fillPercent >= 0
    ensures fillPercent == 0 ==> RandomSelect(draw, fillPercent) == TILE_FLOOR
    ensures fillPercent >= 100 ==> RandomSelect(draw, fillPercent) == TILE_WALL
  {
  }

  /** A width-by-height grid of WALL: what allocation in `inititalize_map` produces. */
  function WallGrid(width: int, height: int): (g: seq<seq<bool>>)
    requires width >= 0 && height >= 0
    ensures IsGrid(g, width, height)
    ensures forall i, j :: InGrid(g, i, j) ==> g[i][j] == TILE_WALL
  {
    seq(height, _ => seq(width, _ => TILE_WALL))
  }

  /** The working grid after `inititalize_map`: WALL on the border, and each
      interior cell decided by its own draw, the draws taken row by row. */
  function InitialGrid(width: int, height: int, fillPercent: i32, draws: seq<nat>): (g: seq<seq<bool>>)
    requires width >= 1 && height >= 1 && fillPercent >= 0
    requires |draws| == InteriorCount(width, height)
    ensures IsGrid(g, width, height)
  {
    seq(height, i requires 0 <= i < height =>
      seq(width, j requires 0 <= j < width =>
        if 1 <= i < height - 1 && 1 <= j < width - 1
        then InitialCell(width, height, fillPercent, draws, i, j)
        else TILE_WALL))
  }

  /** Border cells of the initial grid are WALL; interior cell (i, j) is the
      `random_select` of draw number DrawIndex(i, j). */
  lemma InitialGridCells(width: int, height: int, fillPercent: i32, draws: seq<nat>, i: int, j: int)
    requires width >= 1 && height >= 1 && fillPercent >= 0
    requires |draws| == InteriorCount(width, height)
    requires 0 <= i < height && 0 <= j < width
    ensures var g := InitialGrid(width, height, fillPercent, draws);
      if Interior(g, i, j)
      then g[i][j] == RandomSelect(draws[DrawIndex(width, height, i, j)], fillPercent)
      else g[i][j] == TILE_WALL
  {
  }

  /** With a fill percentage of 100 or more the initial grid is all WALL. */
  lemma FullFillIsAllWall(width: int, height: int, fillPercent: i32, draws: seq<nat>)
    requires width >= 1 && height >= 1 && fillPercent >= 100
    requires |draws| == InteriorCount(width, height)
    ensures InitialGrid(width, height, fillPercent, draws) == WallGrid(width, height)
  {
    var g, w := InitialGrid(width, height, fillPercent, draws), WallGrid(width, height);
    forall i | 0 <= i < height
      ensures g[i] == w[i]
    {
      forall j | 0 <= j < width
        ensures g[i][j] == w[i][j]
      {
        InitialGridCells(width, height, fillPercent, draws, i, j);
      }
    }
  }

  /** The tile `generation` writes for interior cell (y, x) of grid g. */
  function NextTile(g: seq<seq<bool>>, rule: GenerationRule, y: int, x: int): (tile: bool)
    ensures tile == TILE_WALL <==> CountR1(g, y, x) >= rule.rule1 as int || CountR2(g, y, x) <= rule.rule2 as int
    ensures tile == TILE_FLOOR <==> CountR1(g, y, x) < rule.rule1 as int && CountR2(g, y, x) > rule.rule2 as int
  {
    if CountR1(g, y, x) >= rule.rule1 as int || CountR2(g, y, x) <= rule.rule2 as int
    then TILE_WALL
    else TILE_FLOOR
  }

  /** One generation: every interior cell is recomputed from g as a whole, and
      border cells keep their value. */
  function Step(g: seq<seq<bool>>, rule: GenerationRule): (r: seq<seq<bool>>)
    ensures SameShape(r, g)
    ensures forall i, j :: InGrid(g, i, j) && !Interior(g, i, j) ==> r[i][j] == g[i][j]
  {
    seq(|g|, i requires 0 <= i < |g| =>
      seq(|g[i]|, j requires 0 <= j < |g[i]| =>
        if Interior(g, i, j) then NextTile(g, rule, i, j) else g[i][j]))
  }

  /** An interior cell becomes WALL exactly when its FLOOR count over the 3x3
      window reaches rule_1 or its FLOOR count over the radius-2 window is at
      most rule_2. */
  lemma StepInteriorCell(g: seq<seq<bool>>, rule: GenerationRule, y: int, x: int)
    requires Interior(g, y, x)
    ensures Step(g, rule)[y][x] == TILE_WALL <==>
      CountR1(g, y, x) >= rule.rule1 as int || CountR2(g, y, x) <= rule.rule2 as int
  {
  }

  /** With rule_1 <= 0 the radius-1 test always passes: every interior cell becomes WALL. */
  lemma StepWithNonPositiveRule1(g: seq<seq<bool>>, rule: GenerationRule, y: int, x: int)
    requires rule.rule1 <= 0 && Interior(g, y, x)
    ensures Step(g, rule)[y][x] == TILE_WALL
  {
  }

  /** A grid without interior (width or height at most 2) is left as it is. */
  lemma StepWithoutInterior(g: seq<seq<bool>>, rule: GenerationRule, width: int)
    requires IsGrid(g, width, |g|) && (width <= 2 || |g| <= 2)
    ensures Step(g, rule) == g
  {
    var r := Step(g, rule);
    forall i | 0 <= i < |g|
      ensures r[i] == g[i]
    {
      assert forall j :: 0 <= j < |g[i]| ==> !Interior(g, i, j);
    }
  }

  /** `n` successive generations under one rule; none when n <= 0. */
  function Iterate(g: seq<seq<bool>>, rule: GenerationRule, n: int): (r: seq<seq<bool>>)
    ensures SameShape(r, g)
    decreases n
  {
    if n <= 0 then g else Step(Iterate(g, rule, n - 1), rule)
  }

  /** Every rule applied `times_to_apply` times, rules in sequence order. */
  function ApplyRules(g: seq<seq<bool>>, rules: seq<GenerationRule>): (r: seq<seq<bool>>)
    ensures SameShape(r, g)
    decreases |rules|
  {
    if rules == [] then g
    else
      var last := rules[|rules| - 1];
      Iterate(ApplyRules(g, rules[..|rules| - 1]), last, last.timesToApply as int)
  }

  /** Extending the applied prefix by rule i runs that rule times_to_apply times. */
  lemma ApplyRulesPrefix(g: seq<seq<bool>>, rules: seq<GenerationRule>, i: int)
    requires 0 <= i < |rules|
    ensures ApplyRules(g, rules[..i + 1])
      == Iterate(ApplyRules(g, rules[..i]), rules[i], rules[i].timesToApply as int)
  {
    assert rules[..i + 1][..i] == rules[..i];
  }

  /** m generations followed by n more are m + n generations. */
  lemma {:induction false} IterateAdds(g: seq<seq<bool>>, rule: GenerationRule, m: nat, n: nat)
    ensures Iterate(g, rule, m + n) == Iterate(Iterate(g, rule, m), rule, n)
    decreases n
  {
    if n > 0 {
      IterateAdds(g, rule, m, n - 1);
    }
  }

  /** Applying a + b is applying a, then b: rules act strictly in order. */
  lemma {:induction false} ApplyRulesConcat(g: seq<seq<bool>>, a: seq<GenerationRule>, b: seq<GenerationRule>)
    ensures ApplyRules(g, a + b) == ApplyRules(ApplyRules(g, a), b)
    decreases |b|
  {
    if b == [] {
      assert a + b == a;
    } else {
      assert (a + b)[..|a + b| - 1] == a + b[..|b| - 1];
      ApplyRulesConcat(g, a, b[..|b| - 1]);
    }
  }

  /** A rule whose times_to_apply is zero or negative changes nothing. */
  lemma IdleRuleChangesNothing(g: seq<seq<bool>>, rules: seq<GenerationRule>, rule: GenerationRule)
    requires rule.timesToApply <= 0
    ensures ApplyRules(g, rules + [rule]) == ApplyRules(g, rules)
  {
    assert (rules + [rule])[..|rules|] == rules;
  }

  /** Generations keep the grid's shape and never change a border cell. */
  lemma {:induction false} IterateKeepsBorder(g: seq<seq<bool>>, rule: GenerationRule, n: int)
    ensures SameShape(Iterate(g, rule, n), g)
    ensures forall i, j :: InGrid(g, i, j) && !Interior(g, i, j) ==> Iterate(g, rule, n)[i][j] == g[i][j]
    decreases n
  {
    if n > 0 {
      IterateKeepsBorder(g, rule, n - 1);
    }
  }

  /** The whole rule sequence keeps the grid's shape and its border. */
  lemma {:induction false} ApplyRulesKeepsBorder(g: seq<seq<bool>>, rules: seq<GenerationRule>)
    ensures SameShape(ApplyRules(g, rules), g)
    ensures forall i, j :: InGrid(g, i, j) && !Interior(g, i, j) ==> ApplyRules(g, rules)[i][j] == g[i][j]
    decreases |rules|
  {
    if rules != [] {
      var last := rules[|rules| - 1];
      ApplyRulesKeepsBorder(g, rules[..|rules| - 1]);
      IterateKeepsBorder(ApplyRules(g, rules[..|rules| - 1]), last, last.timesToApply as int);
    }
  }

  /** An all-WALL grid stays all WALL under any number of generations of a rule with rule_1 <= 0. */
  lemma {:induction false} WallsStayUnderNonPositiveRule1(width: nat, height: nat, rule: GenerationRule, n: int)
    requires rule.rule1 <= 0
    ensures Iterate(WallGrid(width, height), rule, n) == WallGrid(width, height)
    decreases n
  {
    if n > 0 {
      var w := WallGrid(width, height);
      WallsStayUnderNonPositiveRule1(width, height, rule, n - 1);
      var r := Step(w, rule);
      forall i | 0 <= i < height
        ensures r[i] == w[i]
      {
      }
    }
  }

  /** A map filled at 100% or more and smoothed only by rules with rule_1 <= 0 is
      all WALL (the 5x5, fill 100, rule (0, 100, 1) example generalised). */
  lemma {:induction false} FullMapStaysWall(width: int, height: int, fillPercent: i32, draws: seq<nat>,
                                            rules: seq<GenerationRule>)
    requires width >= 1 && height >= 1 && fillPercent >= 100
    requires |draws| == InteriorCount(width, height)
    requires forall k :: 0 <= k < |rules| ==> rules[k].rule1 <= 0
    ensures ApplyRules(InitialGrid(width, height, fillPercent, draws), rules) == WallGrid(width, height)
    decreases |rules|
  {
    FullFillIsAllWall(width, height, fillPercent, draws);
    if rules != [] {
      var last := rules[|rules| - 1];
      FullMapStaysWall(width, height, fillPercent, draws, rules[..|rules| - 1]);
      WallsStayUnderNonPositiveRule1(width, height, last, last.timesToApply as int);
    }
  }

  /** The final map's border is all TILE_WALL, whatever the rules. */
  lemma FinalBorderIsWall(width: int, height: int, fillPercent: i32, draws: seq<nat>,
                          rules: seq<GenerationRule>, i: int, j: int)
    requires width >= 1 && height >= 1 && fillPercent >= 0
    requires |draws| == InteriorCount(width, height)
    requires 0 <= i < height && 0 <= j < width && !(1 <= i < height - 1 && 1 <= j < width - 1)
    ensures ApplyRules(InitialGrid(width, height, fillPercent, draws), rules)[i][j] == TILE_WALL
  {
    var g := InitialGrid(width, height, fillPercent, draws);
    ApplyRulesKeepsBorder(g, rules);
    InitialGridCells(width, height, fillPercent, draws, i, j);
  }

  /** The radius-1 loop of `generation`: counts the cells `== true` (FLOOR) in
      the 3x3 window centred on interior cell (yi, xi). */
  method CountR1At(grid1: array2<bool>, yi: int, xi: int) returns (adjCount: int)
    requires 1 <= yi < grid1.Length0 - 1 && 1 <= xi < grid1.Length1 - 1
    ensures adjCount == CountR1(Cells(grid1), yi, xi)
  {
    ghost var g := Cells(grid1);
    adjCount := 0;
    for ii := -1 to 2
      invariant adjCount == R1Rows(g, yi, xi, yi + ii)
    {
      for jj := -1 to 2
        invariant adjCount == R1Rows(g, yi, xi, yi + ii) + SpanCount(g, yi + ii, xi - 1, xi + jj)
      {
        if grid1[yi + ii, xi + jj] == true {
          adjCount := adjCount + 1;
        }
      }
    }
  }

  /** The radius-2 loop of `generation`: counts the cells `== true` (FLOOR) in
      the 5x5 window centred on (yi, xi), skipping its corners and the positions
      outside the grid. */
  method CountR2At(grid1: array2<bool>, yi: int, xi: int, xSize: int, ySize: int) returns (adjCount: int)
    requires grid1.Length0 == ySize && grid1.Length1 == xSize
    ensures adjCount == CountR2(Cells(grid1), yi, xi)
  {
    ghost var g := Cells(grid1);
    adjCount := 0;
    for ii := yi - 2 to yi + 3
      invariant adjCount == R2Rows(g, yi, xi, ii)
    {
      for jj := xi - 2 to xi + 3
        invariant adjCount == R2Rows(g, yi, xi, ii) + R2Span(g, yi, xi, ii, jj)
      {
        if Abs(ii - yi) == 2 && Abs(jj - xi) == 2 {
          continue;
        }
        if ii < 0 || jj < 0 || ii >= ySize || jj >= xSize {
          continue;
        }
        if grid1[ii, jj] == true {
          adjCount := adjCount + 1;
        }
      }
    }
  }

  /** `generation`: computes every interior cell of grid_2 from grid_1, then
      copies grid_2's interior back into grid_1. grid_1 ends as one Step of its
      old value; grid_2's border is never written. */
  method Generation(grid1: array2<bool>, grid2: array2<bool>, rule: GenerationRule, xSize: i32, ySize: i32)
    requires grid1 != grid2
    requires grid1.Length0 == ySize as int && grid2.Length0 == ySize as int
    requires grid1.Length1 == xSize as int && grid2.Length1 == xSize as int
    modifies grid1, grid2
    ensures Cells(grid1) == Step(old(Cells(grid1)), rule)
    ensures forall i, j :: 0 <= i < grid2.Length0 && 0 <= j < grid2.Length1 ==>
      grid2[i, j] == if 1 <= i < grid2.Length0 - 1 && 1 <= j < grid2.Length1 - 1
                     then grid1[i, j] else old(grid2[i, j])
  {
    ghost var g0 := Cells(grid1);
    ComputeNext(grid1, grid2, rule, xSize, ySize);
    CopyInterior(grid1, grid2, xSize, ySize);
    ghost var r := Step(g0, rule);
    forall i, j | 0 <= i < ySize as int && 0 <= j < xSize as int
      ensures grid1[i, j] == r[i][j]
    {
    }
    CellsAre(grid1, r);
  }

  /** The first double loop of `generation`: each interior cell of grid_2 gets
      the tile the rule gives it on grid_1, which is only read. */
  method ComputeNext(grid1: array2<bool>, grid2: array2<bool>, rule: GenerationRule, xSize: i32, ySize: i32)
    requires grid1 != grid2
    requires grid1.Length0 == ySize as int && grid2.Length0 == ySize as int
    requires grid1.Length1 == xSize as int && grid2.Length1 == xSize as int
    modifies grid2
    ensures forall i, j :: 0 <= i < ySize as int && 0 <= j < xSize as int ==>
      grid2[i, j] == if 1 <= i < ySize as int - 1 && 1 <= j < xSize as int - 1
                     then NextTile(Cells(grid1), rule, i, j) else old(grid2[i, j])
  {
    var h, w := ySize as int, xSize as int;
    ghost var g0 := Cells(grid1);
    var yi := 1;
    while yi < h - 1
      invariant 1 <= yi <= if h >= 2 then h - 1 else 1
      invariant forall i, j :: 0 <= i < h && 0 <= j < w ==>
        grid2[i, j] == if 1 <= i < yi && 1 <= j < w - 1 then NextTile(g0, rule, i, j) else old(grid2[i, j])
    {
      var xi := 1;
      while xi < w - 1
        invariant 1 <= xi <= if w >= 2 then w - 1 else 1
        invariant forall i, j :: 0 <= i < h && 0 <= j < w ==>
          grid2[i, j] == if (1 <= i < yi && 1 <= j < w - 1) || (i == yi && 1 <= j < xi)
                         then NextTile(g0, rule, i, j) else old(grid2[i, j])
      {
        var adjCountR1 := CountR1At(grid1, yi, xi);
        var adjCountR2 := CountR2At(grid1, yi, xi, w, h);
        if adjCountR1 >= rule.rule1 as int || adjCountR2 <= rule.rule2 as int {
          grid2[yi, xi] := TILE_WALL;
        } else {
          grid2[yi, xi] := TILE_FLOOR;
        }
        xi := xi + 1;
      }
      yi := yi + 1;
    }
  }

  /** The second double loop of `generation`: grid_2's interior is copied into
      grid_1; grid_1's border and all of grid_2 stay as they were. */
  method CopyInterior(grid1: array2<bool>, grid2: array2<bool>, xSize: i32, ySize: i32)
    requires grid1 != grid2
    requires grid1.Length0 == ySize as int && grid2.Length0 == ySize as int
    requires grid1.Length1 == xSize as int && grid2.Length1 == xSize as int
    modifies grid1
    ensures forall i, j :: 0 <= i < ySize as int && 0 <= j < xSize as int ==>
      grid1[i, j] == if 1 <= i < ySize as int - 1 && 1 <= j < xSize as int - 1
                     then grid2[i, j] else old(grid1[i, j])
  {
    var h, w := ySize as int, xSize as int;
    var yi := 1;
    while yi < h - 1
      invariant 1 <= yi <= if h >= 2 then h - 1 else 1
      invariant forall i, j :: 0 <= i < h && 0 <= j < w ==>
        grid1[i, j] == if 1 <= i < yi && 1 <= j < w - 1 then grid2[i, j] else old(grid1[i, j])
    {
      var xi := 1;
      while xi < w - 1
        invariant 1 <= xi <= if w >= 2 then w - 1 else 1
        invariant forall i, j :: 0 <= i < h && 0 <= j < w ==>
          grid1[i, j] == if (1 <= i < yi && 1 <= j < w - 1) || (i == yi && 1 <= j < xi)
                         then grid2[i, j] else old(grid1[i, j])
      {
        grid1[yi, xi] := grid2[yi, xi];
        xi := xi + 1;
      }
      yi := yi + 1;
    }
  }

  /** The interior cell (i, j) of the initial grid: `random_select` of its own draw. */
  function InitialCell(width: int, height: int, fillPercent: i32, draws: seq<nat>, i: int, j: int): (tile: bool)
    requires fillPercent >= 0 && |draws| == InteriorCount(width, height)
    requires 1 <= i < height - 1 && 1 <= j < width - 1
    ensures tile == TILE_WALL <==> draws[DrawIndex(width, height, i, j)] % 100 < fillPercent as int
  {
    RandomSelect(draws[DrawIndex(width, height, i, j)], fillPercent)
  }

  /** `inititalize_map`, with the random generator replaced by its draws, one
      per interior cell in row-major order. Allocation makes every cell of both
      grids WALL; the interior of grid_1 is then filled by `FillInterior`. */
  method InitializeMap(xSize: i32, ySize: i32, fillPercent: i32, draws: seq<nat>)
    returns (grid1: array2<bool>, grid2: array2<bool>)
    requires xSize >= 1 && ySize >= 1 && fillPercent >= 0
    requires |draws| == InteriorCount(xSize as int, ySize as int)
    ensures fresh(grid1) && fresh(grid2) && grid1 != grid2
    ensures grid1.Length0 == grid2.Length0 == ySize as int && grid1.Length1 == grid2.Length1 == xSize as int
    ensures Cells(grid1) == InitialGrid(xSize as int, ySize as int, fillPercent, draws)
    ensures Cells(grid2) == WallGrid(xSize as int, ySize as int)
  {
    var h, w := ySize as int, xSize as int;
    grid1 := new bool[h, w]((_, _) => TILE_WALL);
    grid2 := new bool[h, w]((_, _) => TILE_WALL);
    CellsAre(grid2, WallGrid(w, h));
    FillInterior(grid1, fillPercent, draws);
    ghost var g := InitialGrid(w, h, fillPercent, draws);
    forall i, j | 0 <= i < h && 0 <= j < w
      ensures grid1[i, j] == g[i][j]
    {
      InitialGridCells(w, h, fillPercent, draws, i, j);
    }
    CellsAre(grid1, g);
  }

  /** The draw loop of `inititalize_map`: each interior cell of grid_1 receives
      `random_select` of the next draw, rows top to bottom; the other cells are
      not written. */
  method FillInterior(grid1: array2<bool>, fillPercent: i32, draws: seq<nat>)
    requires fillPercent >= 0 && |draws| == InteriorCount(grid1.Length1, grid1.Length0)
    modifies grid1
    ensures forall i, j :: 0 <= i < grid1.Length0 && 0 <= j < grid1.Length1 ==>
      grid1[i, j] == if 1 <= i < grid1.Length0 - 1 && 1 <= j < grid1.Length1 - 1
                     then InitialCell(grid1.Length1, grid1.Length0, fillPercent, draws, i, j)
                     else old(grid1[i, j])
  {
    var h, w := grid1.Length0, grid1.Length1;
    var next := 0;
    var yi := 1;
    while yi < h - 1
      invariant 1 <= yi <= if h >= 2 then h - 1 else 1
      invariant next == InteriorCount(w, yi + 1)
      invariant forall i, j :: 0 <= i < h && 0 <= j < w ==>
        grid1[i, j] == if 1 <= i < yi && 1 <= j < w - 1
                       then InitialCell(w, h, fillPercent, draws, i, j) else old(grid1[i, j])
    {
      var xi := 1;
      while xi < w - 1
        invariant 1 <= xi <= if w >= 2 then w - 1 else 1
        invariant next == InteriorCount(w, yi + 1) + (xi - 1)
        invariant forall i, j :: 0 <= i < h && 0 <= j < w ==>
          grid1[i, j] == if (1 <= i < yi && 1 <= j < w - 1) || (i == yi && 1 <= j < xi)
                         then InitialCell(w, h, fillPercent, draws, i, j) else old(grid1[i, j])
      {
        DrawIndexAfterRows(w, h, yi, xi);
        grid1[yi, xi] := RandomSelect(draws[next], fillPercent);
        next := next + 1;
        xi := xi + 1;
      }
      InteriorCountNextRow(w, yi);
      yi := yi + 1;
    }
  }

  /** `create_random_cave_map`: initialises the grids from the draws, then runs
      every rule times_to_apply times, rules in vector order. */
  method CreateRandomCaveMap(xSize: i32, ySize: i32, fillPercent: i32, rules: seq<GenerationRule>, draws: seq<nat>)
    returns (cave: array2<bool>)
    requires xSize >= 1 && ySize >= 1 && fillPercent >= 0
    requires |draws| == InteriorCount(xSize as int, ySize as int)
    ensures Cells(cave) == ApplyRules(InitialGrid(xSize as int, ySize as int, fillPercent, draws), rules)
  {
    var grid1, grid2 := InitializeMap(xSize, ySize, fillPercent, draws);
    ghost var g0 := Cells(grid1);
    for i := 0 to |rules|
      invariant Cells(grid1) == ApplyRules(g0, rules[..i])
    {
      ApplyRule(grid1, grid2, rules[i], xSize, ySize);
      ApplyRulesPrefix(g0, rules, i);
    }
    assert rules[..|rules|] == rules;
    cave := grid1;
  }

  /** The inner loop of `create_random_cave_map`: `generation` run
      times_to_apply times under one rule, not at all when that is zero or less. */
  method ApplyRule(grid1: array2<bool>, grid2: array2<bool>, rule: GenerationRule, xSize: i32, ySize: i32)
    requires grid1 != grid2
    requires grid1.Length0 == ySize as int && grid2.Length0 == ySize as int
    requires grid1.Length1 == xSize as int && grid2.Length1 == xSize as int
    modifies grid1, grid2
    ensures Cells(grid1) == Iterate(old(Cells(grid1)), rule, rule.timesToApply as int)
  {
    ghost var before := Cells(grid1);
    var j := 0;
    while j < rule.timesToApply as int
      invariant 0 <= j <= if rule.timesToApply >= 0 then rule.timesToApply as int else 0
      invariant Cells(grid1) == Iterate(before, rule, j)
    {
      Generation(grid1, grid2, rule, xSize, ySize);
      j := j + 1;
    }
  }
}
