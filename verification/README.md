# Coin Collector playspace generator, in Dafny

This project models the grid logic of the Coin Collector game (`src/main.rs`):

- the playspace matrix, a `height` by `width` grid of game objects (`Wall`,
  `Player` or `Empty`), each of which records its grid position and its
  display symbol;
- the matrix operations: overwrite one cell, a bounds-checked lookup that
  takes signed coordinates, and the 8-connected neighbour query;
- the generator that `GameState::from_world` runs once at start-up. It
  builds the border list, stamps it as walls, places the player at a spawn
  point and carves one opening in the border;
- the map from grid coordinates to world coordinates used to place sprites.

The source fixes the grid at 12 rows by 20 columns (a 1000 by 600 window
with 50-unit sprites). Here `height` and `width` are parameters, and
`WorldCoords.ConfiguredPlayspace` derives the source's values from its
constants.

Layout:

- `wrappers.dfy`: `Option`.
- `neighbours.dfy`: the candidate list and the in-grid filter behind the
  neighbour query, and the lemmas about them.
- `playspace.dfy`: `GameObjType`, `GameObject` and the class
  `PlayspaceMatrix`. The class holds the source's `Vec<Vec<GameObject>>` as a
  `seq<seq<GameObject>>` field that its methods reassign.
- `generation.dfy`: the border list and the class `GameState` with its
  `FromWorld` constructor.
- `world_coords.dfy`: the sizing constants and the world-coordinate map.

The model assumes a 64-bit target: `isize` spans -2^63 to 2^63 - 1 and the
`as usize` cast adds 2^64 to a negative value. Lookup results are the same on
any width; only the overflow bound in `NeighboursAt`'s precondition depends
on it.

The source draws the spawn cell and the border cell at random. Here they are
inputs: `spawnRow`, `spawnCol` and `openingIndex`, each with a range
precondition. The range for the spawn is `gen_range(1..h-1)`, a half-open
range, so `1 <= spawnRow <= h - 2`.

Facts about the code that shape the model:

- Writing outside the grid panics on the index, so `InstantiateAt` requires
  an in-bounds coordinate.
- A grid smaller than 3 by 3 makes `gen_range` panic on an empty range, so
  `FromWorld` requires `h, w >= 3`.
- The neighbour list keeps the code's fixed candidate order.
- Every cell stores a symbol: `"W"`, `"P"` or `"0"`, or `"X"` for the
  placeholder that `Default` overwrites.
- Exactly one opening is always carved.
- The second push loop runs over `1..h`, so `(h-1, 0)` and `(h-1, w-1)` each
  appear twice in the border list (`Generation.BorderListDuplicates`). This
  does not change the stamped grid. It does make each of those two corners
  twice as likely as any other border cell to be chosen as the opening.

## Model

| member | source | states |
|---|---|---|
| `Playspace.Symbol` | src/main.rs:63-69 | the kind-to-symbol table of `instantiate_gameobject_at_coord`: "W" for `Wall`, "P" for `Player`, "0" for `Empty`; it has no contract of its own, and `SymbolIdentifiesKind` carries its properties |
| `Playspace.DefaultGameObject` | src/main.rs:182-186 | `GameObject::default()`: an `Empty` object at `(0, 0)` with the placeholder symbol "X"; it has no contract of its own, and the constructor's ensures say that every placeholder is overwritten |
| `Playspace.SymbolIdentifiesKind` | src/main.rs:63-69 | the stored symbols "W", "P", "0" are distinct per kind and differ from the placeholder "X" of `GameObject::default` |
| `Playspace.AsUsize` | src/main.rs:72-75 | the `isize as usize` cast keeps non-negative values and sends every negative value above `isize::MAX` |
| `Playspace.PlayspaceMatrix.constructor` | src/main.rs:108-118 | `Default`: a well-formed `height` by `width` matrix whose every cell `(i, j)` is `Empty` with position `(i, j)` and symbol "0" |
| `Playspace.PlayspaceMatrix.InstantiateAt` | src/main.rs:63-69 | cell `coord` becomes an object of the given kind, positioned at `coord`, with that kind's symbol; every other cell is unchanged; the shape and well-formedness are kept |
| `Playspace.PlayspaceMatrix.GetGameObjAt` | src/main.rs:71-77 | returns `Some` of the stored cell exactly when `0 <= r < height` and `0 <= c < width`, otherwise `None` (negative coordinates included); a well-formed matrix returns the cell whose position is the query |
| `Playspace.PlayspaceMatrix.NeighboursAt` | src/main.rs:79-105 | returns, in candidate order, the stored cells at the in-grid candidate coordinates; in a well-formed matrix they are exactly the in-grid cells at Chebyshev distance 1 from the query, with no repeats |
| `Playspace.PlayspaceMatrix.CollectInGrid` | src/main.rs:96-100 | the filtering loop keeps, in order, the cell of every candidate whose lookup is `Some` |
| `Playspace.PlayspaceMatrix.NeighbourObjects` | src/main.rs:96-103 | the collected cells are in-grid Moore neighbours of the query, every in-grid Moore neighbour is collected, and none twice |
| `Playspace.NeighbourCandidates` | src/main.rs:80-94 | the conditional pushes build exactly the candidate list `Candidates(a, b)` |
| `Neighbours.Candidates` | src/main.rs:80-94 | the candidate list has no repeats and holds only Moore neighbours of `(a, b)` |
| `Neighbours.CandidatesCover` | src/main.rs:80-94 | every Moore neighbour with non-negative coordinates is among the candidates, so the `a - 1 >= 0` and `b - 1 >= 0` guards drop only cells outside the grid |
| `Neighbours.KeepInGrid` | src/main.rs:96-100 | the filter is no longer than its input and every coordinate it keeps is inside the grid |
| `Neighbours.KeepInGridMembers` | src/main.rs:96-100 | a coordinate is kept exactly when it is a candidate and inside the grid |
| `Neighbours.KeepInGridDistinct` | src/main.rs:96-100 | filtering a list without repeats leaves a list without repeats |
| `Neighbours.NeighbourCoords` | src/main.rs:79-100 | the coordinates collected are exactly the in-grid cells at Chebyshev distance 1, none twice, and never the query itself |
| `Neighbours.NeighbourCount` | src/main.rs:79-100 | for an in-grid query the list length is (rows of the clipped 3 by 3 block) times (its columns) minus one |
| `Neighbours.CornerHasThreeNeighbours` | src/main.rs:79-100 | a corner cell of a grid of at least 2 by 2 has 3 neighbours |
| `Neighbours.EdgeHasFiveNeighbours` | src/main.rs:79-100 | a non-corner edge cell of a grid of at least 3 by 3 has 5 neighbours |
| `Neighbours.InteriorHasEightNeighbours` | src/main.rs:79-100 | an interior cell has 8 neighbours |
| `Generation.BorderList` | src/main.rs:132-141 | the border list has length `2w + 2(h - 1)` |
| `Generation.BorderWallCoords` | src/main.rs:130-141 | the two push loops produce exactly `BorderList(h, w)`: `(0, i), (h-1, i)` for each column, then `(i, 0), (i, w-1)` for each row in `1..h` |
| `Generation.BorderListIsRing` | src/main.rs:132-141 | a coordinate is in the border list exactly when it is in the grid and on row 0, row `h-1`, column 0 or column `w-1` |
| `Generation.BorderListDuplicates` | src/main.rs:133-141 | `(h-1, 0)` sits at indices 1 and `len-2`, `(h-1, w-1)` at `2w-1` and `len-1`; no other two entries are equal |
| `Generation.StampWalls` | src/main.rs:143-146 | after the loop a cell is `Wall` if it is listed and keeps its old kind otherwise; the matrix stays well-formed |
| `Generation.GameState.FromWorld` | src/main.rs:121-163 | the generated grid is well-formed with `h` by `w` cells; the only `Player` cell is the spawn; the opening is a ring cell; on the ring the opening is `Empty` and every other cell is `Wall`; every interior cell other than the spawn is `Empty` |
| `WorldCoords.PlayspaceExtent` | src/main.rs:23-25 | the playspace side is the number of whole sprites that fit the window side; exactly the window when the sprite size divides it |
| `WorldCoords.ConfiguredPlayspace` | src/main.rs:21-25 | the configured window gives a 12-row by 20-column playspace |
| `WorldCoords.PlayspaceToWorld` | src/main.rs:294-298 | `playspace_coords_to_world_coords`, taking `(col, row)` as the caller at line 263 passes `(j, i)`: x = (-window width + sprite)/2 + col * sprite, y = (window height - sprite)/2 - row * sprite, z = 0; it has no contract of its own, and `WorldSteps`, `WorldCentred`, `WorldInsideWindow` and `WorldRoundTrip` carry its properties |
| `WorldCoords.WorldSteps` | src/main.rs:294-298 | one column right adds one sprite size to x; one row down subtracts one sprite size from y; z is 0 |
| `WorldCoords.WorldCentred` | src/main.rs:294-298 | when `width * sprite` and `height * sprite` equal the window sides, x of column 0 plus x of column `width-1` is 0, and likewise for y over the rows |
| `WorldCoords.WorldInsideWindow` | src/main.rs:258-298 | every cell's sprite, centred at its world point, lies inside the window when the grid fills it (the caller passes `(j, i)`, column first) |
| `WorldCoords.WorldRoundTrip` | src/main.rs:294-298 | the map is undone by `WorldToPlayspace`, so distinct cells get distinct world points |
| `WorldCoords.WorldExample` | src/main.rs:294-298 | a 10 by 8 grid of 50-unit sprites in a 500 by 400 window puts cell (0, 0) at (-225, 175, 0) |

## Left out

- `main`, `spawn_camera` and the sprite and physics bundles of `spawn_playspace_entities`: these are engine setup, asset loading and physics-body construction. The only link to the core that is kept is the world-coordinate map, with its column-first argument order.
- `move_player`: keyboard polling and `f32` velocity on an engine component.
- `rand::thread_rng`, `gen_range` and `choose`: the model takes the drawn values as inputs, with range preconditions. It says nothing about their distribution beyond the duplicate entries of the border list.
- `print_playspace` and the `println!` in `get_neighbours_at_coord`: these are console output. `NeighboursAt` returns the collected cells instead.
- The neighbour query at `src/main.rs:161` passes `(spawn.0, spawn.0)`, the spawn row twice. `FromWorld` makes the same query and discards the result, since in the source it only prints.
- `f32` rounding in `playspace_coords_to_world_coords`: the map is exact `real` arithmetic.
- `Playspace.PlayspaceMatrix.InstantiateAt`: requires an in-bounds coordinate. Out of bounds, the source's `self.0[coord.0][coord.1]` index panics, so there is no result to model.
- `Generation.GameState.FromWorld`: requires `h, w >= 3`. A smaller grid makes `gen_range(1..h-1)` or `gen_range(1..w-1)` panic on an empty range (and `h - 1` underflow for a zero side), so there is no error result to model.
- `NeighboursAt`: requires `a` and `b` strictly inside the `isize` range. At `isize::MIN` or `isize::MAX` the source's `a - 1` or `a + 1` overflows, which panics in debug builds and wraps in release builds; that case is not modelled.
- `BorderWallCoords`: requires `h, w >= 1`. For a few zero-sized grids the source's loops happen not to underflow; those grids are not modelled.
- `Clone` on `GameState` and `PlayspaceMatrix`, and the `Player` marker component: no behaviour to model.
