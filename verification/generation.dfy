/**
 * `FromWorld for GameState`: build the list of border coordinates, stamp
 * them as walls, place the player at the spawn point and carve one opening
 * in the border. The two random draws of the source are parameters.
 */
module Generation {
  import opened Neighbours
  import opened Playspace

  /** `c` lies on the outer ring of an `h` by `w` grid. */
  predicate OnRing(h: int, w: int, c: ICoord) {
    c.0 == 0 || c.0 == h - 1 || c.1 == 0 || c.1 == w - 1
  }

  /** Entry `k` of the top-and-bottom loop: `(0, i)` then `(h - 1, i)` for each column `i`. */
  function TopBottomAt(h: nat, k: nat): Coord
    requires h >= 1
  {
    if k % 2 == 0 then (0, k / 2) else (h - 1, k / 2)
  }

  /** Entry `k` of the left-and-right loop: `(i, 0)` then `(i, w - 1)` for each row `i` in `1..h`. */
  function LeftRightAt(w: nat, k: nat): Coord
    requires w >= 1
  {
    if k % 2 == 0 then (k / 2 + 1, 0) else (k / 2 + 1, w - 1)
  }

  /** `coords_border_wall` as the two push loops leave it. */
  function BorderList(h: nat, w: nat): (r: seq<Coord>)
    requires h >= 1 && w >= 1
    ensures |r| == 2 * w + 2 * (h - 1)
  {
    seq(2 * w, k requires 0 <= k < 2 * w => TopBottomAt(h, k))
    + seq(2 * (h - 1), k requires 0 <= k < 2 * (h - 1) => LeftRightAt(w, k))
  }

  /** The border list holds exactly the ring cells of the grid. */
  lemma BorderListIsRing(h: nat, w: nat)
    requires h >= 1 && w >= 1
    ensures forall c :: c in BorderList(h, w) <==> c.0 < h && c.1 < w && OnRing(h, w, c)
  {
    var r := BorderList(h, w);
    forall c: Coord | c.0 < h && c.1 < w && OnRing(h, w, c)
      ensures c in r
    {
      if c.0 == 0 {
        assert r[2 * c.1] == c;
      } else if c.0 == h - 1 {
        assert r[2 * c.1 + 1] == c;
      } else if c.1 == 0 {
        assert r[2 * w + 2 * (c.0 - 1)] == c;
      } else {
        assert r[2 * w + 2 * (c.0 - 1) + 1] == c;
      }
    }
  }

  /**
   * Because the second loop runs over `1..h` rather than `1..h - 1`, the two
   * bottom corners are pushed twice, and nothing else is.
   */
  lemma BorderListDuplicates(h: nat, w: nat)
    requires h >= 2 && w >= 2
    ensures var r := BorderList(h, w);
      r[1] == r[|r| - 2] == (h - 1, 0) && r[2 * w - 1] == r[|r| - 1] == (h - 1, w - 1)
    ensures var r := BorderList(h, w);
      forall j, k :: 0 <= j < k < |r| && r[j] == r[k] ==>
        (j == 1 && k == |r| - 2) || (j == 2 * w - 1 && k == |r| - 1)
  {
  }

  /** The two push loops that build `coords_border_wall`. */
  method BorderWallCoords(h: nat, w: nat) returns (coords: seq<Coord>)
    requires h >= 1 && w >= 1
    ensures coords == BorderList(h, w)
  {
    coords := [];
    for i := 0 to w
      invariant |coords| == 2 * i
      invariant forall k :: 0 <= k < 2 * i ==> coords[k] == TopBottomAt(h, k)
    {
      coords := coords + [(0, i)];
      coords := coords + [(h - 1, i)];
    }
    for i := 1 to h
      invariant |coords| == 2 * w + 2 * (i - 1)
      invariant forall k :: 0 <= k < 2 * w ==> coords[k] == TopBottomAt(h, k)
      invariant forall k :: 0 <= k < 2 * (i - 1) ==> coords[2 * w + k] == LeftRightAt(w, k)
    {
      coords := coords + [(i, 0)];
      coords := coords + [(i, w - 1)];
    }
  }

  /** The loop that writes a `Wall` at every listed coordinate. */
  method StampWalls(m: PlayspaceMatrix, coords: seq<Coord>)
    requires m.WellFormed()
    requires forall c :: c in coords ==> c.0 < m.height && c.1 < m.width
    modifies m
    ensures m.WellFormed()
    ensures forall i, j :: 0 <= i < m.height && 0 <= j < m.width ==>
      m.KindAt(i, j) == if (i, j) in coords then Wall else old(m.KindAt(i, j))
  {
    for k := 0 to |coords|
      invariant m.WellFormed()
      invariant forall i, j :: 0 <= i < m.height && 0 <= j < m.width ==>
        m.KindAt(i, j) == if (i, j) in coords[..k] then Wall else old(m.KindAt(i, j))
    {
      assert coords[k] in coords;
      m.InstantiateAt(coords[k], Wall);
      assert forall c :: c in coords[..k + 1] <==> c in coords[..k] || c == coords[k];
    }
    assert coords[..|coords|] == coords;
  }

  class GameState {
    var playerSpawnPos: Coord
    var playspaceMatrix: PlayspaceMatrix

    /**
     * `GameState::from_world` with the random spawn drawn as
     * `(spawnRow, spawnCol)` and the random border choice as `openingIndex`
     * into the border list.
     */
    constructor FromWorld(h: nat, w: nat, spawnRow: nat, spawnCol: nat, openingIndex: nat)
      requires 3 <= h <= IsizeMax && 3 <= w <= IsizeMax
      requires 1 <= spawnRow <= h - 2 && 1 <= spawnCol <= w - 2
      requires openingIndex < 2 * w + 2 * (h - 1)
      ensures fresh(playspaceMatrix)
      ensures playspaceMatrix.WellFormed() && playspaceMatrix.height == h && playspaceMatrix.width == w
      ensures playerSpawnPos == (spawnRow, spawnCol)
      ensures var opening := BorderList(h, w)[openingIndex];
        opening.0 < h && opening.1 < w && OnRing(h, w, opening)
      ensures forall i, j :: 0 <= i < h && 0 <= j < w ==>
        (playspaceMatrix.KindAt(i, j) == Player <==> i == spawnRow && j == spawnCol)
      ensures var opening := BorderList(h, w)[openingIndex];
        forall i, j :: 0 <= i < h && 0 <= j < w && OnRing(h, w, (i, j)) ==>
          playspaceMatrix.KindAt(i, j) == if (i, j) == opening then Empty else Wall
      ensures forall i, j :: 0 <= i < h && 0 <= j < w && !OnRing(h, w, (i, j)) && (i != spawnRow || j != spawnCol) ==>
        playspaceMatrix.KindAt(i, j) == Empty
    {
      var m := new PlayspaceMatrix(h, w);
      var border := BorderWallCoords(h, w);
      BorderListIsRing(h, w);
      StampWalls(m, border);
      var spawn := (spawnRow, spawnCol);
      m.InstantiateAt(spawn, Player);
      var opening := border[openingIndex];
      assert opening in border;
      m.InstantiateAt(opening, Empty);
      // The source then queries the neighbours of (spawn row, spawn row) and only prints them.
      var _ := m.NeighboursAt(spawnRow, spawnRow);
      playerSpawnPos := spawn;
      playspaceMatrix := m;
    }
  }
}
