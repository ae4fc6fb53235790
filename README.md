# Cave map generator — a verified model

The repository generates cave-like maps with a cellular automaton, in two
implementations of the same algorithm: the original C program (`src/main.c`)
and a Rust port (`src/map_generator.rs`), plus two small Rust helpers, a
stepping iterator (`src/simple_step_range.rs`) and a rule record
(`src/generation_rule.rs`).

A map is a rectangle of WALL and FLOOR tiles. Initialisation gives each
interior cell of the working grid one random draw: for a fill of 0 or more,
WALL when `draw % 100 < fill`, FLOOR otherwise. A negative fill is where the
two programs part: the Rust compares with `fill_percent as u32`, which wraps
a negative value to 2^31 or more, so every interior cell is WALL; the C
compares with the signed `fillprob`, so every interior cell is FLOOR.

The two programs also get their WALL border differently. The Rust builds
both grids with every cell WALL before the draws, so the border is WALL from
allocation on. The C allocates its grids with unspecified contents, makes
the draws, sets every cell of the scratch grid to WALL, and only then writes
WALL on the border of the working grid. For a fill of 0 or more both end
with the same map.

One generation computes, for every interior cell, two counts on the map as
it was before the generation:

- `r1`, the 3x3 window centred on the cell, centre included (at most 9);
- `r2`, the 5x5 window minus its four corners, cells outside the map
  skipped (at most 21).

The cell becomes WALL when `r1 >= rule_1 || r2 <= rule_2` and FLOOR
otherwise; the new values go to a scratch grid whose interior is then copied
back. The driver applies every rule `times_to_apply` times, in order. The
border is never written by a generation, so it stays WALL.

The two implementations do not count the same cells. The Rust encodes
FLOOR as `true` and WALL as `false` and counts cells `== true`, i.e. FLOOR
cells; the C encodes FLOOR as 0 and WALL as 1 and counts cells
`!= TILE_FLOOR`, i.e. WALL cells. Each is modelled as written. The module
`Polarity` relates them: on the same draws and a fill of 0 or more they
start from the same map, at every interior cell their radius-1 counts add up
to 9, their radius-2 counts add up to the number of in-grid positions of the
window (21 away from the border), and on a 3x3 map at fill 0 under the rule
(2, 0, 1) the Rust keeps the centre FLOOR while the C turns it into WALL.

## Layout

- `machine_ints.dfy` (`MachineInts`): the `i32` and `usize` ranges.
- `generation_rule.dfy` (`GenerationRules`): the `GenerationRule` record.
- `simple_step_range.dfy` (`StepRange`): the `SimpleStepRange` iterator as
  a class whose `Next` updates `start`; `Yields` is the sequence it produces
  and `Collect` is the `for z in SimpleStepRange::new(..)` loop driving it.
- `neighbourhood.dfy` (`Neighbourhood`): grids as `seq<seq<T>>`, the view
  `Cells` of an `array2`, the row-major draw index, and the two window
  counts over a grid of "counted" marks, shared by both implementations.
- `map_generator.dfy` (`MapGenerator`): the Rust functions over
  `array2<bool>` grids, proved against the pure `Step`, `Iterate` and
  `ApplyRules`.
- `cave_c.dfy` (`CaveC`): the C program; its globals are the fields of the
  class `CaveGenerator`, its functions that class's methods, proved against
  `Step`, `Iterate` and `ApplyParams`.
- `polarity.dfy` (`Polarity`): the relation between the two.

Random draws are an input: a sequence with one natural number per interior
cell, consumed in row-major order (`DrawIndex`).

## Model

| member | source | states |
|---|---|---|
| GenerationRules.New | src/generation_rule.rs:18-24 | every field of the new rule is the argument given for it, with no validation |
| GenerationRules.NewKeepsArguments | src/generation_rule.rs:18-24 | two rules built by `new` are equal exactly when all three arguments are equal |
| StepRange.SimpleStepRange.constructor | src/simple_step_range.rs:28-33 | `start`, `end` and `step` are stored unchanged |
| StepRange.SimpleStepRange.Next | src/simple_step_range.rs:41-49 | when `start < end` it returns `Some(start)` and advances `start` by exactly `step`; otherwise it returns `None` and changes nothing, so an exhausted range stays exhausted and a zero step yields `start` forever |
| StepRange.Yields | src/simple_step_range.rs:41-49 | the values `next` yields from a range: none when `start >= end`, otherwise starting with `start`, every one in `[start, end)` |
| StepRange.Collect | src/main.rs:47-53 | iterating a fresh range with a positive step yields exactly `Yields(start, end, step)` and terminates |
| StepRange.YieldsAt | src/simple_step_range.rs:42-45 | the k-th yielded value is `start + k*step` and is below `end` |
| StepRange.YieldsLength | src/simple_step_range.rs:41-49 | a positive step yields ceil((end - start) / step) values, and none when `start >= end` |
| StepRange.YieldsIncreasing | src/simple_step_range.rs:43-44 | with a positive step the yielded values strictly increase |
| StepRange.TripleStartsInRange | src/main.rs:47-50 | from 4 in steps of 3 with `(end - 4) % 3 == 0`, every yielded `z` has `z + 2 < end`, so the three argument reads are in range |
| Neighbourhood.DrawIndex | src/map_generator.rs:78-80 | the row-major position of an interior cell's draw is below the number of interior cells |
| Neighbourhood.CountR1 | src/map_generator.rs:103-112 | the radius-1 count over the 3x3 window is at most 9 |
| Neighbourhood.CountR2 | src/map_generator.rs:113-125 | the radius-2 count over the in-grid 5x5 window minus corners is at most 21 |
| Neighbourhood.R1Complement | src/main.c:70-75 | at an interior cell the counted and the uncounted cells of the 3x3 window add up to 9 |
| Neighbourhood.Filled | src/map_generator.rs:118-121 | the grid whose every in-grid cell is counted; its counts are numbers of in-grid positions |
| Neighbourhood.R2Complement | src/main.c:76-85 | the counted and the uncounted cells of the radius-2 window add up to its in-grid non-corner positions |
| Neighbourhood.R2FullWindow | src/map_generator.rs:113-120 | two cells or more from the border the radius-2 window has 21 in-grid non-corner positions |
| MapGenerator.RandomSelect | src/map_generator.rs:45-51 | the tile is WALL exactly when `draw % 100 < fill_percent` |
| MapGenerator.FillPercentExtremes | src/map_generator.rs:45-51 | fill 0 always gives FLOOR and fill of 100 or more always WALL |
| MapGenerator.WallGrid | src/map_generator.rs:65-76 | the allocated grid has `y_size` rows of `x_size` cells, all WALL |
| MapGenerator.InitialGrid | src/map_generator.rs:65-82 | the initial map has `y_size` rows of `x_size` cells |
| MapGenerator.InitialGridCells | src/map_generator.rs:70-82 | a border cell of the initial map is WALL and an interior cell is `random_select` of its own draw |
| MapGenerator.InitialCell | src/map_generator.rs:80 | an interior cell is WALL exactly when its own row-major draw `% 100` is below `fill_percent` |
| MapGenerator.FullFillIsAllWall | src/map_generator.rs:78-82 | at fill 100 or more the initial map is all WALL |
| MapGenerator.Step | src/map_generator.rs:101-137 | a generation keeps the shape and every border cell |
| MapGenerator.StepInteriorCell | src/map_generator.rs:106-130 | an interior cell becomes WALL exactly when `r1 >= rule_1` or `r2 <= rule_2`, both counts taken on the map before the generation |
| MapGenerator.StepWithNonPositiveRule1 | src/map_generator.rs:126-127 | with `rule_1 <= 0` every interior cell becomes WALL |
| MapGenerator.StepWithoutInterior | src/map_generator.rs:101-102 | a map at most 2 wide or 2 high is left unchanged |
| MapGenerator.NextTile | src/map_generator.rs:126-130 | the new tile is WALL exactly when `r1 >= rule_1` or `r2 <= rule_2`, and FLOOR exactly when neither holds |
| MapGenerator.Iterate | src/map_generator.rs:30-32 | repeated generations keep the map's shape |
| MapGenerator.ApplyRules | src/map_generator.rs:28-33 | applying the rule list keeps the map's shape |
| MapGenerator.ApplyRulesPrefix | src/map_generator.rs:28-33 | rule i is applied after rules 0..i-1, `times_to_apply` times |
| MapGenerator.IterateAdds | src/map_generator.rs:30-32 | m generations followed by n generations are m + n generations |
| MapGenerator.ApplyRulesConcat | src/map_generator.rs:28-33 | applying a list then another is applying their concatenation |
| MapGenerator.IdleRuleChangesNothing | src/map_generator.rs:30-32 | a rule with `times_to_apply <= 0` leaves the map unchanged |
| MapGenerator.IterateKeepsBorder | src/map_generator.rs:101-134 | any number of generations leave every border cell unchanged |
| MapGenerator.ApplyRulesKeepsBorder | src/map_generator.rs:28-33 | the whole rule list leaves every border cell unchanged |
| MapGenerator.WallsStayUnderNonPositiveRule1 | src/map_generator.rs:126-127 | an all-WALL map stays all WALL under generations of a rule with `rule_1 <= 0` |
| MapGenerator.FullMapStaysWall | src/map_generator.rs:18-35 | a map filled at 100 or more and smoothed by rules with `rule_1 <= 0` comes out all WALL |
| MapGenerator.FinalBorderIsWall | src/map_generator.rs:18-35 | every border cell of the returned map is WALL |
| MapGenerator.CountR1At | src/map_generator.rs:103-112 | the loop counts the FLOOR (`== true`) cells of the 3x3 window, i.e. `CountR1` |
| MapGenerator.CountR2At | src/map_generator.rs:113-125 | the loop counts the FLOOR cells of the in-grid 5x5 window without corners, i.e. `CountR2` |
| MapGenerator.ComputeNext | src/map_generator.rs:101-132 | every interior cell of `grid_2` gets its next tile computed from `grid_1`; the border of `grid_2` is untouched |
| MapGenerator.CopyInterior | src/map_generator.rs:133-137 | the interior of `grid_1` becomes that of `grid_2`; the border of `grid_1` is untouched |
| MapGenerator.Generation | src/map_generator.rs:94-138 | `grid_1` becomes `Step` of its old value; the interior of `grid_2` equals `grid_1` and its border is untouched |
| MapGenerator.FillInterior | src/map_generator.rs:78-82 | each interior cell gets `random_select` of its row-major draw; every other cell keeps its value |
| MapGenerator.InitializeMap | src/map_generator.rs:59-85 | two distinct new grids of `y_size` by `x_size`: the first is the initial map, the second all WALL |
| MapGenerator.ApplyRule | src/map_generator.rs:30-32 | the inner loop runs `generation` `times_to_apply` times (none when it is not positive) |
| MapGenerator.CreateRandomCaveMap | src/map_generator.rs:18-36 | the returned map is the initial map from the draws with every rule applied in order |
| CaveC.RandPick | src/main.c:25-31 | the tile is WALL or FLOOR, WALL exactly when `draw % 100 < fillprob` |
| CaveC.FillProbExtremes | src/main.c:25-31 | `fillprob <= 0` always gives FLOOR and `fillprob >= 100` always WALL |
| CaveC.WallMarks | src/main.c:73-83 | a cell is counted exactly when it is `!= TILE_FLOOR` |
| CaveC.Step | src/main.c:64-93 | a generation keeps the shape and every border cell |
| CaveC.StepInteriorCell | src/main.c:86-89 | an interior cell becomes WALL exactly when `adjcount_r1 >= r1_cutoff` or `adjcount_r2 <= r2_cutoff` over non-FLOOR cells of the map before the generation, and FLOOR otherwise |
| CaveC.NextTile | src/main.c:86-89 | the new tile is TILE_WALL or TILE_FLOOR, TILE_WALL exactly when `adjcount_r1 >= r1_cutoff` or `adjcount_r2 <= r2_cutoff` over non-FLOOR cells |
| CaveC.Iterate | src/main.c:168-169 | repeated generations keep the map's shape |
| CaveC.ApplyParams | src/main.c:165-170 | applying the parameter list keeps the map's shape |
| CaveC.ApplyParamsPrefix | src/main.c:165-170 | triple i is applied after triples 0..i-1, `reps` times |
| CaveC.IdleParamsChangeNothing | src/main.c:168-169 | a triple with `reps <= 0` leaves the map unchanged |
| CaveC.IterateKeepsBorder | src/main.c:64-93 | any number of generations leave every border cell unchanged |
| CaveC.ApplyParamsKeepsBorder | src/main.c:165-170 | the whole parameter list leaves every border cell unchanged |
| CaveC.WallGrid | src/main.c:50-52 | a grid of `size_y` rows of `size_x` cells, all TILE_WALL |
| CaveC.InitialGrid | src/main.c:46-57 | the initial map has `size_y` rows of `size_x` cells |
| CaveC.InitialGridCells | src/main.c:46-57 | a border cell of the initial map is TILE_WALL and an interior cell is `randpick` of its own draw |
| CaveC.InitialCell | src/main.c:48 | an interior cell is TILE_WALL or TILE_FLOOR, TILE_WALL exactly when its own row-major draw `% 100` is below `fillprob` |
| CaveC.FinalBorderIsWall | src/main.c:54-57 | every border cell of the final map is TILE_WALL |
| CaveC.GroupArgs | src/main.c:149-159 | there are `(argc - 4) / 3` triples |
| CaveC.GroupIgnoresTrailing | src/main.c:153-159 | the triples use `argv[4 ..]` up to the last complete triple; up to two trailing arguments are ignored |
| CaveC.GroupTriples | src/main.c:149-159 | the grouping loop writes exactly `GroupArgs(argv)`: triple k from `argv[4+3k]`, `argv[5+3k]`, `argv[6+3k]` |
| CaveC.NewGrids | src/main.c:33-58 | two distinct new grids of `size_y` by `size_x`: the first is the initial map, the second all TILE_WALL |
| CaveC.FillInterior | src/main.c:46-48 | each interior cell gets `randpick` of its row-major draw; every other cell keeps its value |
| CaveC.FillScratch | src/main.c:50-52 | every cell of `grid2` becomes TILE_WALL |
| CaveC.WallBorder | src/main.c:54-57 | every border cell becomes TILE_WALL, the interior is untouched |
| CaveC.CaveGenerator.constructor | src/main.c:17-23 | the globals start at `fillprob = 40`, `size_x = 64`, `size_y = 20`, no parameters |
| CaveC.CaveGenerator.InitMap | src/main.c:33-58 | `grid` becomes the initial map and `grid2` all TILE_WALL; the other globals are kept |
| CaveC.CaveGenerator.CountR1At | src/main.c:67-75 | the loop counts the non-FLOOR cells of the 3x3 window |
| CaveC.CaveGenerator.CountR2At | src/main.c:76-85 | the loop counts the non-FLOOR cells of the in-grid 5x5 window without corners |
| CaveC.CaveGenerator.ComputeNext | src/main.c:64-90 | every interior cell of `grid2` gets its next tile computed from `grid`; the border of `grid2` is untouched |
| CaveC.CaveGenerator.CopyInterior | src/main.c:91-93 | the interior of `grid` becomes that of `grid2`; the border of `grid` is untouched |
| CaveC.CaveGenerator.Generation | src/main.c:60-94 | `grid` becomes `Step` of its old value under the current parameters; the interior of `grid2` equals `grid` |
| CaveC.CaveGenerator.RepeatGeneration | src/main.c:168-169 | the inner loop runs `generation` `reps` times (none when it is not positive) |
| CaveC.CaveGenerator.ApplyAll | src/main.c:165-170 | the triples are applied in order, each `reps` times |
| CaveC.CaveGenerator.Run | src/main.c:140-170 | with fewer than 7 arguments it returns 1 and changes nothing; otherwise it reads sizes and fill, groups the triples and leaves in `grid` the initial map with every triple applied in order, returning 0 |
| Polarity.ToC | src/map_generator.rs:5-6 | the C encoding of a Rust map: WALL to TILE_WALL, FLOOR to TILE_FLOOR, same shape |
| Polarity.CountedCellsAreOpposite | src/main.c:73-83 | the cells the C counts on the encoded map are exactly those the Rust does not count |
| Polarity.R1CountsAddToNine | src/map_generator.rs:106-112 | at an interior cell the Rust `r1` and the C `adjcount_r1` of the same map add up to 9 |
| Polarity.R2CountsAddToPositions | src/map_generator.rs:113-125 | at any cell the Rust `r2` and the C `adjcount_r2` of the same map add up to the in-grid non-corner positions of the 5x5 window |
| Polarity.R2CountsAddTo21 | src/main.c:76-85 | two cells or more from the border the Rust `r2` and the C `adjcount_r2` add up to 21 |
| Polarity.SameInitialMap | src/main.c:46-57 | from the same sizes, draws and a fill of 0 or more both programs build the same initial map |
| Polarity.FloorCentreIsInitial | src/map_generator.rs:78-82 | at fill 0 a 3x3 map starts with WALL border and FLOOR centre |
| Polarity.FloorCentreR1 | src/map_generator.rs:106-112 | on that map the Rust `r1` of the centre is 1 |
| Polarity.FloorCentreR2 | src/map_generator.rs:113-125 | on that map the Rust `r2` of the centre is 1 |
| Polarity.RustKeepsCentreFloor | src/map_generator.rs:126-130 | under the rule (2, 0, 1) the Rust keeps that centre FLOOR |
| Polarity.CTurnsCentreWall | src/main.c:86-89 | on the same input the C turns the centre into WALL |

## Left out

- Printing: `print_function` and `print_map` in the Rust, `printfunc` and
  `printmap` in the C, are console output only.
- Randomness: `rand::thread_rng`, `rand()` and `srand(time(NULL))` are
  replaced by the `draws` parameter, one draw per interior cell in row-major
  order. The Rust's `u32` draw and the C's `rand()` result are both modelled
  as natural numbers.
- Command-line handling: the Rust `src/main.rs` (argument parsing, exit,
  usage text) is not part of this model; only its loop over
  `SimpleStepRange` is, as `StepRange.Collect`. In the C, `atoi` is replaced
  by arguments that are already integers, `argv[0]` is not read, and the
  usage message is not printed.
- Memory: `malloc` becomes Dafny array allocation. The C grids keep
  unspecified contents until they are written, as in the program. The Rust
  `Vec` pushes become an allocation whose every cell is WALL, and
  `Vec<Vec<bool>>` is modelled as a rectangular `array2<bool>`. The C's `params++` walk through `params_set` is modelled
  as an index into a sequence.
- The C globals `r1_cutoff` and `r2_cutoff` are never read by the program
  and are not modelled.
- MapGenerator.RandomSelect: requires `fill_percent >= 0`; the wrap of a
  negative value through `as u32` is not modelled. With a negative fill the
  Rust initial map is all WALL while the C one is all FLOOR
  (`CaveC.FillProbExtremes`): a second divergence between the programs,
  besides the counting polarity, which this model states only for the C.
- MapGenerator.InitializeMap: requires `x_size, y_size >= 1`; the `as usize`
  casts of zero or negative sizes (which panic or wrap) are not modelled.
  The same holds for `MapGenerator.CreateRandomCaveMap`.
- CaveC.CaveGenerator.Run: requires positive sizes when it runs; the C
  behaviour with zero or negative sizes (allocation of a negative size and
  out-of-bounds writes) is not modelled. C `int` values are unbounded here.
- StepRange.SimpleStepRange.Next: requires that `start + step` does not
  overflow `usize` when a value is yielded; the overflow panic or wrap is
  not modelled.
- StepRange.Collect: requires a positive step, since a zero step never
  terminates (that case is stated by `Next` alone), and `end + step` within
  `usize`.
