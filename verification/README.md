# Turmite rule automaton — a Dafny model

This project models the core of a Langton's-ant simulator (a "turmite"). It
comes in two versions that share one rule table:

- the **square ant** (`src/main.rs`): a pattern over the letters `r`/`l`. On every
  tick the ant reads or creates the tile under it, recolours it, turns
  and moves one cell;
- the **hex-plugin ant** (`src/hex.rs`): a pattern over `r`/`l`/`u`/`n`. Its tick is
  split into `ant_movement` (apply the stored turn, move) followed by
  `bricks_rotation` (recolour or create the brick, store its turn), so the
  turn read from a brick is applied on the *next* tick.

Modules:

| file | module | contents |
|---|---|---|
| `outcomes.dfy` | `Outcomes` | `Option`, `Result`, and `Error`. `Error` classifies failures: a bad pattern, the `panic!` in `next`, and the `todo!()` in the hex movement |
| `headings.dfy` | `Headings` | one `Heading` type for `Direction` and `AntDirection` (Up = North, Down = South, Left = West, Right = East), the three rotations, grid moves |
| `patterns.dfy` | `Patterns` | the rule table, generic in marker type `M` and turn type `T`: `Parse`, `First`, `Next` and their properties |
| `square.dfy` | `Square` | `Turn`, the `r`/`l` alphabet, the one-tick `Step`, runs from the initial state |
| `hex.dfy` | `Hex` | `PatternDirection`, the `r`/`l`/`u`/`n` alphabet, `AntMovement`, `BricksRotation`, `Tick`, runs |

Modelling choices:

- **Markers.** A tile's random `Color` becomes a type parameter `M`. Markers are compared only for
  equality. `Parse` takes a marker source `draw: nat -> M`, and the character
  at index `i` draws `draw(i)`. The program draws a colour for every
  character, recognised or not, and keeps it only for turn letters. Markers
  are not assumed distinct. `DuplicateMarkersShadowEntries` shows what a
  collision does, and `RevisitCycles` states the cyclic behaviour that
  distinct markers give.
- **Positions.** The ant's pixel position moves in steps of `ANT_SPEED` = 20,
  and a tile is found by exact position equality. This becomes an integer
  grid (one unit is one step). Tiles/bricks are a `map<Pos, M>`, so there is
  at most one tile per cell by construction.
- **Failures.** `bail!` becomes `Err(IncorrectPattern)`. The `panic!` in
  `next` becomes `Err(NoMatchingColor)`, and the hex `todo!()` arm becomes
  `Err(Unimplemented)`. The run lemmas prove that neither fault is reachable
  from the initial state.
- **Hex ticks.** In the hex ant, the turn read from a brick is applied at the
  start of the following tick, and the first tick moves the ant before any
  brick exists. The model follows the code here, not the single-step
  description of the square ant.

## Model

| member | source | states |
|---|---|---|
| `Patterns.Parse` | src/main.rs:97-108 | Parsing fails, with the pattern error, exactly when fewer than two characters name a turn. On success the table has equal-length markers and turns, at least two of each, and lists the turn characters in order. |
| `Patterns.Lower` | src/main.rs:81 | Folding yields no upper-case ASCII letter; it leaves every character other than `A`–`Z` unchanged and sends each of `A`–`Z` to the lower-case letter at the same place in the alphabet (ASCII stand-in for `to_lowercase`, also at src/hex.rs:53). |
| `Patterns.LowerFolds` | src/hex.rs:53 | Folding is idempotent, and two characters fold to the same one exactly when they are equal or are the upper- and lower-case forms of one letter. |
| `Patterns.Collect` | src/main.rs:78-95 | The parsing loop pushes a marker and a turn together, so the two sequences always have equal length. |
| `Patterns.CollectLists` | src/main.rs:81-94 | There is one entry per recognised character, case-insensitively. The entry of the character at index `i` sits at that character's rank. It holds marker `draw(i)` and the character's turn. |
| `Patterns.ListsDeterminesPattern` | src/main.rs:81-94 | That listing fixes every entry: two tables listing the same text with the same markers are equal. |
| `Patterns.NextFrom` | src/hex.rs:91-103 | The scan over the windows `(colors[j], colors[j+1 mod N])` zipped with `turns` fails iff no window from `i` on has the marker. Otherwise the first matching window gives the result, which is a marker and a turn of the table. |
| `Patterns.Next` | src/main.rs:115-127 | `Next(c)` gives `(colors[(j+1) mod N], turns[j])` for the first `j` with `colors[j] == c`, wrapping from the last entry to the first. On a parsed table it fails (`Pattern::next` panics) exactly when `c` is not among the markers. |
| `Patterns.First` | src/main.rs:111-113 | The first-visit result is a marker and a turn of the table. It is exactly what `Next` gives for the first marker: the second marker with the first turn. A blank cell therefore behaves as if it held `colors[0]`. |
| `Patterns.NextOfDistinct` | src/main.rs:115-124 | With distinct markers, advancing entry `i`'s marker gives entry `i+1`'s marker (cyclically) and entry `i`'s turn. |
| `Patterns.RevisitCycles` | src/main.rs:115-124 | With distinct markers, `k` revisits of a cell move its marker `k` entries forward modulo the table length. |
| `Patterns.DuplicateMarkersShadowEntries` | src/main.rs:116-124 | On any parsed table where entries `i < j` share a marker, window `j` is the first match for no marker, so its turn is never taken. When `i` is that marker's first occurrence, `Next` of the marker returns entry `i`'s result: the marker after `i`, cyclically, and entry `i`'s turn. |
| `Patterns.DuplicateNeighboursFreeze` | src/main.rs:116-124 | When the first entry with marker `m` is followed cyclically by an entry with the same marker, a cell holding `m` keeps `m` on every revisit. |
| `Patterns.ExampleDuplicateMarkers` | src/main.rs:79-93 | In the table `[7, 7]` the lookup of 7 gives 7 with the first turn, and five revisits leave the cell at 7. |
| `Headings.RotateLeft` | src/hex.rs:115-122 | A counter-clockwise quarter turn: three clockwise quarters modulo four. |
| `Headings.RotateRight` | src/hex.rs:124-131 | A clockwise quarter turn. |
| `Headings.RotateBack` | src/hex.rs:133-140 | A half turn. |
| `Headings.LeftRightInverse` | src/main.rs:206-225 | Left and right rotations undo each other in both orders. |
| `Headings.RotateLeftInjective` | src/main.rs:207-214 | The left rotation is one-to-one. |
| `Headings.RotateRightInjective` | src/main.rs:216-223 | The right rotation is one-to-one. |
| `Headings.FourTurnsIdentity` | src/main.rs:206-225 | Four left turns, or four right turns, give back the starting heading. |
| `Headings.BackIsTwoQuarters` | src/hex.rs:115-141 | Two left turns and two right turns both equal the half turn, and the half turn is an involution. |
| `Headings.Move` | src/main.rs:227-232 | A move changes one coordinate by exactly one: `y` for North/South, `x` for West/East, upwards only for North and rightwards only for East. |
| `Headings.MoveBack` | src/hex.rs:177-182 | Moving and then moving in the opposite heading returns to the start. |
| `Square.Decode` | src/main.rs:83-92 | Only `r` (Right) and `l` (Left) name turns. |
| `Square.DecodeFolded` | src/main.rs:81-93 | After lowercasing, exactly `r`/`R` give Right and `l`/`L` give Left; every other character is skipped. |
| `Square.Parse` | src/main.rs:97-109 | The square pattern parses iff at least two characters are `r`/`l` in either case. Its table lists those letters in order. |
| `Square.ApplyTurn` | src/main.rs:206-225 | Right adds one clockwise quarter turn and Left adds three. |
| `Square.Step` | src/main.rs:172-232 | One tick. It fails iff the tile under the ant holds a marker outside the pattern. If there is no tile, one is created with the second marker and the ant takes the first turn. Otherwise the tile gets `Next`'s marker and the ant takes `Next`'s turn. The cell set gains at most the ant's cell, and no other tile changes. The ant then moves one cell in its new heading. |
| `Square.StepKeepsPainted` | src/main.rs:177-204 | If every tile's marker comes from the pattern, a tick cannot fail and keeps this true. |
| `Square.Run` | src/main.rs:56-59 | `n` fixed-rate ticks chained, stopping at the first fault. Zero ticks leave the world alone, and a fault is always a foreign marker. A successful run never removes a tile and adds at most one per tick. |
| `Square.RunKeepsPainted` | src/main.rs:56-59 | Any number of ticks from such a world never fail, keep every marker in the pattern, and add at most one tile per tick. |
| `Square.RunFromInitial` | src/main.rs:155-161 | From the empty grid with the ant at the origin facing North, no tick panics, and after `n` ticks at most `n` tiles exist. |
| `Square.Initial` | src/main.rs:155-161 | The spawned ant stands at the origin facing North, and no tile exists yet. |
| `Square.ExampleRL` | src/main.rs:24-26 | The default pattern "RL" gives markers `[0, 1]` and turns `[Right, Left]`. |
| `Square.ExampleRLTicks` | src/main.rs:172-232 | The first tick of "RL" paints the origin with marker 1, faces East and moves to (1, 0). The second tick also lands on a blank cell, paints it with marker 1, and faces South. |
| `Square.ExampleRejected` | src/main.rs:104-106 | "R-x" has one turn letter and is rejected. |
| `Hex.Decode` | src/hex.rs:59-77 | `r`, `l`, `u`, `n` name `R1`, `L1`, `Uturn` and no turn. Nothing else is a turn. |
| `Hex.DecodeFolded` | src/hex.rs:53-77 | After lowercasing, each of `r`, `l`, `u`, `n` gives its turn in either case, and every other character is skipped. |
| `Hex.Parse` | src/hex.rs:48-85 | The hex pattern parses iff at least two characters are `r`/`l`/`u`/`n` in either case. It lists them in order and never yields `R2` or `L2`. |
| `Hex.ParsedTurnsSupported` | src/hex.rs:59-77 | Every turn a hex parse lists has a movement rule. |
| `Hex.Turned` | src/hex.rs:160-175 | `R1` adds a clockwise quarter, `L1` three, `Uturn` two, and no turn zero. `R2`/`L2` are faults. |
| `Hex.AntMovement` | src/hex.rs:157-183 | Applies the stored turn and moves one cell in the resulting heading. It faults iff the stored turn is `R2`/`L2`. The bricks and the stored turn do not change. |
| `Hex.BricksRotation` | src/hex.rs:185-224 | Recolours (with `Next`) or creates (with the second marker) only the brick under the ant, and stores the lookup's turn. The ant does not move or turn. It fails iff that brick's marker is not in the pattern. |
| `Hex.Tick` | src/hex.rs:21-27 | One chained tick. A stored `R2`/`L2` faults. Otherwise the ant turns by its stored turn and moves one cell. The brick at the new cell is then created (second marker, first turn stored) or advanced with `Next` (its turn stored). No other brick changes. It fails iff that brick's marker is not in the pattern. |
| `Hex.TickKeepsConsistent` | src/hex.rs:157-224 | If every brick's marker comes from the pattern and the stored turn has a rule, a tick hits neither the `todo!()` nor the `panic!`. This stays true afterwards. |
| `Hex.Run` | src/hex.rs:21-27 | `n` chained movement-then-bricks ticks, stopping at the first fault. Zero ticks leave the world alone, and a fault is a foreign marker or an unimplemented turn. A successful run never removes a brick and adds at most one per tick. |
| `Hex.RunKeepsConsistent` | src/hex.rs:21-27 | Any number of chained ticks keep that invariant, never fault, and add at most one brick per tick. |
| `Hex.RunFromInitial` | src/hex.rs:146-155 | From the origin, facing Up with no stored turn, no tick of a parsed pattern ever faults. After `n` ticks at most `n` bricks exist. |
| `Hex.Initial` | src/hex.rs:146-155 | The spawned ant stands at the origin facing Up with no stored turn (`PatternDirection::None`), and no brick exists yet. |
| `Hex.TurnAppliedNextTick` | src/hex.rs:23-24 | The turn one tick stores on the ant is the turn the ant makes at the start of the following tick. |
| `Hex.ExampleRu` | src/hex.rs:87-103 | "ru" lists `R1` then `Uturn`. The lookup wraps around: marker 0 gives (1, `R1`) and marker 1 gives (0, `Uturn`). |
| `Hex.ExampleN` | src/hex.rs:80-82 | "N" has a single turn letter and is rejected. |
| `Hex.ExampleFirstTick` | src/hex.rs:146-224 | The first tick moves the ant Up to (0, 1) before painting. The brick created there carries the second marker and stores the first turn. |

## Left out

- Bevy wiring is not modelled: `main`, `AntPlugin::build`, the fixed-rate clock, the pause key, the camera, the window icon, sprite/mesh/material creation and asset loading. These are engine plumbing, rendering and I/O. A run of `n` ticks stands for the clock.
- The `clap` arguments are not modelled beyond the default pattern "RL". The render rate only paces the clock.
- `rand::thread_rng` and the float RGB channels of `Color` are not modelled. Markers come from the `draw` parameter and are compared by equality only.
- `to_lowercase` is modelled as ASCII case folding only. Unicode lowercasing can change the number of characters for non-ASCII text, which would shift which drawn marker each letter gets.
- `rotate_z` and the float `Transform` arithmetic are not modelled. Positions are integer grid cells. Every coordinate is a multiple of 20, which an `f32` holds exactly below 2^26 pixels (about 3.3 million steps from the origin along one axis). Beyond that, the float rounding is not modelled.
- ECS query and deferred-spawn semantics are not modelled. At most one tile or brick exists per cell, and a tick is a pure state transition.
- The error message texts of `bail!` and `panic!` are not modelled, only which error occurs.
- Square.Step, Square.Run: require a well-shaped table (`Patterns.Valid`). The program builds tables only through `parse`, which always returns one.
- Hex.BricksRotation, Hex.Tick, Hex.Run: require a well-shaped table (`Patterns.Valid`). `AntPattern` derives `Default` and is public (src/hex.rs:41-45), so any caller can build one with empty sequences. `AntPlugin::build` inserts `ant_pattern` and never parses the `pattern` string (src/hex.rs:13-19). A plugin given only a `pattern` therefore runs with an empty table, and its first tick panics on the `unwrap` in `first()` (src/hex.rs:88, src/hex.rs:204). The model does not cover that configuration; it assumes the table came from `parse`.
