/**
 * The sizing constants and `playspace_coords_to_world_coords`, which places
 * the centre of grid cell `(col, row)` in world space so that the grid is
 * centred on the origin with row 0 at the top. Arithmetic is exact (`real`),
 * not `f32`.
 */
module WorldCoords {

  const WindowWidth: nat := 1000
  const WindowHeight: nat := 600
  const SpriteSize: nat := 50

  /** `PLAYSPACE_WIDTH` / `PLAYSPACE_HEIGHT`: how many whole sprites fit across a window side. */
  function PlayspaceExtent(window: nat, sprite: nat): (n: nat)
    requires sprite > 0
    ensures n * sprite <= window < (n + 1) * sprite
    ensures window % sprite == 0 ==> n * sprite == window
  {
    window / sprite
  }

  /** The configured playspace is 12 rows of 20 cells, large enough to have an interior. */
  lemma ConfiguredPlayspace()
    ensures PlayspaceExtent(WindowWidth, SpriteSize) == 20
    ensures PlayspaceExtent(WindowHeight, SpriteSize) == 12
  {
  }

  /** The world `(x, y, z)` of the centre of the cell in column `col`, row `row`. */
  function PlayspaceToWorld(col: int, row: int, sprite: real, windowWidth: real, windowHeight: real): (real, real, real) {
    ((-windowWidth + sprite) / 2.0 + col as real * sprite,
     (windowHeight - sprite) / 2.0 - row as real * sprite,
     0.0)
  }

  /** Moving one column right adds one sprite to x; moving one row down takes one sprite from y. */
  lemma WorldSteps(col: int, row: int, sprite: real, windowWidth: real, windowHeight: real)
    ensures var p := PlayspaceToWorld(col, row, sprite, windowWidth, windowHeight);
      && PlayspaceToWorld(col + 1, row, sprite, windowWidth, windowHeight) == (p.0 + sprite, p.1, 0.0)
      && PlayspaceToWorld(col, row + 1, sprite, windowWidth, windowHeight) == (p.0, p.1 - sprite, 0.0)
  {
    var p := PlayspaceToWorld(col, row, sprite, windowWidth, windowHeight);
    var right := PlayspaceToWorld(col + 1, row, sprite, windowWidth, windowHeight);
    var below := PlayspaceToWorld(col, row + 1, sprite, windowWidth, windowHeight);
    assert (col + 1) as real == col as real + 1.0;
    assert (row + 1) as real == row as real + 1.0;
    assert (col as real + 1.0) * sprite == col as real * sprite + sprite;
    assert (row as real + 1.0) * sprite == row as real * sprite + sprite;
    assert right.0 == p.0 + sprite && right.1 == p.1;
    assert below.0 == p.0 && below.1 == p.1 - sprite;
  }

  /** When the grid exactly fills the window, the first and last cells are symmetric about the origin. */
  lemma WorldCentred(width: nat, height: nat, sprite: real, windowWidth: real, windowHeight: real)
    requires width >= 1 && height >= 1
    requires width as real * sprite == windowWidth && height as real * sprite == windowHeight
    ensures PlayspaceToWorld(0, 0, sprite, windowWidth, windowHeight).0
          + PlayspaceToWorld(width - 1, 0, sprite, windowWidth, windowHeight).0 == 0.0
    ensures PlayspaceToWorld(0, 0, sprite, windowWidth, windowHeight).1
          + PlayspaceToWorld(0, height - 1, sprite, windowWidth, windowHeight).1 == 0.0
  {
  }

  /** Every cell of a grid that fills the window is drawn wholly inside the window. */
  lemma WorldInsideWindow(width: nat, height: nat, col: nat, row: nat,
                            sprite: real, windowWidth: real, windowHeight: real)
    requires sprite > 0.0 && col < width && row < height
    requires width as real * sprite == windowWidth && height as real * sprite == windowHeight
    ensures var p := PlayspaceToWorld(col, row, sprite, windowWidth, windowHeight);
      && -windowWidth / 2.0 <= p.0 - sprite / 2.0 && p.0 + sprite / 2.0 <= windowWidth / 2.0
      && -windowHeight / 2.0 <= p.1 - sprite / 2.0 && p.1 + sprite / 2.0 <= windowHeight / 2.0
  {
    assert col as real * sprite <= (width - 1) as real * sprite by {
      assert (width - 1 - col) as real * sprite >= 0.0;
    }
    assert row as real * sprite <= (height - 1) as real * sprite by {
      assert (height - 1 - row) as real * sprite >= 0.0;
    }
    assert (width - 1) as real * sprite == windowWidth - sprite;
    assert (height - 1) as real * sprite == windowHeight - sprite;
  }

  /** Recover the grid position from a world position: the inverse of the map. */
  function WorldToPlayspace(x: real, y: real, sprite: real, windowWidth: real, windowHeight: real): (real, real)
    requires sprite != 0.0
  {
    ((x - (-windowWidth + sprite) / 2.0) / sprite, ((windowHeight - sprite) / 2.0 - y) / sprite)
  }

  /** Distinct cells land on distinct world points, and the map can be undone. */
  lemma WorldRoundTrip(col: int, row: int, sprite: real, windowWidth: real, windowHeight: real)
    requires sprite != 0.0
    ensures var p := PlayspaceToWorld(col, row, sprite, windowWidth, windowHeight);
      WorldToPlayspace(p.0, p.1, sprite, windowWidth, windowHeight) == (col as real, row as real)
  {
    var p := PlayspaceToWorld(col, row, sprite, windowWidth, windowHeight);
    assert p.0 - (-windowWidth + sprite) / 2.0 == col as real * sprite;
    assert (windowHeight - sprite) / 2.0 - p.1 == row as real * sprite;
    assert (col as real * sprite) / sprite == col as real;
    assert (row as real * sprite) / sprite == row as real;
  }

  /** An example: a 10 by 8 grid of 50-unit sprites puts cell (0, 0) at (-225, 175). */
  lemma WorldExample()
    ensures PlayspaceToWorld(0, 0, 50.0, 500.0, 400.0) == (-225.0, 175.0, 0.0)
  {
  }
}
