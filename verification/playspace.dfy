/**
 * The playspace matrix: a `height` by `width` grid of game objects, each a
 * wall, the player or empty, that knows its own grid position and the
 * one-character symbol used when the grid is printed.
 */
module Playspace {
  import opened Wrappers
  import opened Neighbours

  /** The bounds of the source's `isize`, on a 64-bit target. */
  const IsizeMin: int := -0x8000_0000_0000_0000
  const IsizeMax: int := 0x7fff_ffff_ffff_ffff

  predicate IsIsize(x: int) {
    IsizeMin <= x <= IsizeMax
  }

  /** A `(row, col)` grid position, the source's `(usize, usize)`. */
  type Coord = (nat, nat)

  datatype GameObjType = Wall | Player | Empty

  datatype GameObject = GameObject(objType: GameObjType, position: Coord, symbol: string)

  /** The symbol `instantiate_gameobject_at_coord` stores for each kind. */
  function Symbol(t: GameObjType): string {
    match t
    case Wall => "W"
    case Player => "P"
    case Empty => "0"
  }

  /** `GameObject::default()`: the placeholder the matrix is first filled with. */
  const DefaultGameObject: GameObject := GameObject(Empty, (0, 0), "X")

  /** Distinct kinds print differently, and none prints as the placeholder. */
  lemma SymbolIdentifiesKind(s: GameObjType, t: GameObjType)
    ensures Symbol(s) == Symbol(t) ==> s == t
    ensures Symbol(s) != DefaultGameObject.symbol
  {
  }

  /** The source's `as usize` on an `isize`: two's-complement reinterpretation. */
  function AsUsize(x: int): (u: nat)
    requires IsIsize(x)
    ensures x >= 0 ==> u == x
    ensures x < 0 ==> u > IsizeMax
  {
    if x < 0 then x + 0x1_0000_0000_0000_0000 else x
  }

  class PlayspaceMatrix {
    const height: nat
    const width: nat
    var rows: seq<seq<GameObject>>

    /** The shape: `height` rows of `width` objects; a `Vec` never holds more than `isize::MAX` items. */
    ghost predicate Valid()
      reads this
    {
      height <= IsizeMax && width <= IsizeMax &&
      |rows| == height && forall i :: 0 <= i < |rows| ==> |rows[i]| == width
    }

    /** Every object sits at the position it records and carries its kind's symbol. */
    ghost predicate WellFormed()
      reads this
    {
      Valid() &&
      forall i, j :: 0 <= i < height && 0 <= j < width ==>
        rows[i][j].position == (i, j) && rows[i][j].symbol == Symbol(rows[i][j].objType)
    }

    ghost function KindAt(i: nat, j: nat): GameObjType
      reads this
      requires Valid() && i < height && j < width
    {
      rows[i][j].objType
    }

    /** `Default for PlayspaceMatrix`: fill with placeholders, then write `Empty` everywhere. */
    constructor (height: nat, width: nat)
      requires height <= IsizeMax && width <= IsizeMax
      ensures this.height == height && this.width == width
      ensures WellFormed()
      ensures forall i, j :: 0 <= i < height && 0 <= j < width ==>
        rows[i][j] == GameObject(Empty, (i, j), "0")
    {
      this.height := height;
      this.width := width;
      rows := seq(height, _ => seq(width, _ => DefaultGameObject));
      new;
      var i := 0;
      while i < height
        invariant 0 <= i <= height
        invariant Valid()
        invariant forall r, c :: 0 <= r < height && 0 <= c < width ==>
          rows[r][c] == if r < i then GameObject(Empty, (r, c), "0") else DefaultGameObject
      {
        var j := 0;
        while j < width
          invariant 0 <= j <= width
          invariant Valid()
          invariant forall r, c :: 0 <= r < height && 0 <= c < width ==>
            rows[r][c] == if r < i || (r == i && c < j) then GameObject(Empty, (r, c), "0") else DefaultGameObject
        {
          InstantiateAt((i, j), Empty);
          j := j + 1;
        }
        i := i + 1;
      }
    }

    /**
     * `instantiate_gameobject_at_coord`: overwrite one cell with a fresh
     * object of the given kind that records `coord` as its position.
     */
    method InstantiateAt(coord: Coord, objType: GameObjType)
      requires Valid()
      requires coord.0 < height && coord.1 < width
      modifies this
      ensures Valid()
      ensures rows[coord.0][coord.1] == GameObject(objType, coord, Symbol(objType))
      ensures forall i, j :: 0 <= i < height && 0 <= j < width && (i != coord.0 || j != coord.1) ==>
        rows[i][j] == old(rows[i][j])
      ensures old(WellFormed()) ==> WellFormed()
    {
      rows := rows[coord.0 := rows[coord.0][coord.1 := GameObject(objType, coord, Symbol(objType))]];
    }

    /**
     * `get_gameobj_at_coord`: look the row up, then the column, each after
     * the `as usize` cast, so a negative coordinate misses.
     */
    function GetGameObjAt(coord: ICoord): (o: Option<GameObject>)
      reads this
      requires Valid()
      requires IsIsize(coord.0) && IsIsize(coord.1)
      ensures InGrid(height, width, coord) ==> o == Some(rows[coord.0][coord.1])
      ensures !InGrid(height, width, coord) ==> o == None
      ensures WellFormed() && o.Some? ==> o.value.position == (coord.0, coord.1)
    {
      var r := AsUsize(coord.0);
      if r < |rows| then
        var row := rows[r];
        var c := AsUsize(coord.1);
        if c < |row| then Some(row[c]) else None
      else None
    }

    /**
     * `get_neighbours_at_coord`, returning the objects it collects instead of
     * printing their positions. The bounds on `a` and `b` keep `a + 1`,
     * `a - 1`, `b + 1`, `b - 1` inside `isize`.
     */
    method NeighboursAt(a: int, b: int) returns (ns: seq<GameObject>)
      requires Valid()
      requires IsizeMin < a < IsizeMax && IsizeMin < b < IsizeMax
      ensures var cs := NeighbourCoords(height, width, a, b);
        |ns| == |cs| && forall k :: 0 <= k < |ns| ==> InGrid(height, width, cs[k]) && ns[k] == rows[cs[k].0][cs[k].1]
      ensures WellFormed() ==> forall g :: g in ns ==> InGrid(height, width, g.position) && Adjacent(g.position, (a, b))
      ensures WellFormed() ==> forall i, j :: InGrid(height, width, (i, j)) && Adjacent((i, j), (a, b)) ==>
        rows[i][j] in ns
      ensures WellFormed() ==> Distinct(ns)
    {
      var candidates := NeighbourCandidates(a, b);
      ns := CollectInGrid(candidates);
      if WellFormed() {
        NeighbourObjects(a, b, ns);
      }
    }

    /** The filtering loop of `get_neighbours_at_coord`: keep every candidate whose lookup is `Some`. */
    method CollectInGrid(candidates: seq<ICoord>) returns (ns: seq<GameObject>)
      requires Valid()
      requires forall c :: c in candidates ==> IsIsize(c.0) && IsIsize(c.1)
      ensures var kept := KeepInGrid(height, width, candidates);
        |ns| == |kept| && forall k :: 0 <= k < |ns| ==> InGrid(height, width, kept[k]) && ns[k] == rows[kept[k].0][kept[k].1]
    {
      ns := [];
      for k := 0 to |candidates|
        invariant var kept := KeepInGrid(height, width, candidates[..k]);
          |ns| == |kept| && forall m :: 0 <= m < |ns| ==> InGrid(height, width, kept[m]) && ns[m] == rows[kept[m].0][kept[m].1]
      {
        assert candidates[..k + 1] == candidates[..k] + [candidates[k]];
        KeepInGridSnoc(height, width, candidates[..k], candidates[k]);
        var found := GetGameObjAt(candidates[k]);
        if found.Some? {
          ns := ns + [found.value];
        }
      }
      assert candidates[..|candidates|] == candidates;
    }

    /** What the collected objects are, once every object knows its position. */
    lemma NeighbourObjects(a: int, b: int, ns: seq<GameObject>)
      requires WellFormed()
      requires var cs := NeighbourCoords(height, width, a, b);
        |ns| == |cs| && forall k :: 0 <= k < |ns| ==> InGrid(height, width, cs[k]) && ns[k] == rows[cs[k].0][cs[k].1]
      ensures forall g :: g in ns ==> InGrid(height, width, g.position) && Adjacent(g.position, (a, b))
      ensures forall i, j :: InGrid(height, width, (i, j)) && Adjacent((i, j), (a, b)) ==> rows[i][j] in ns
      ensures Distinct(ns)
    {
    }
  }

  /** The candidate vector of `get_neighbours_at_coord`, grown by conditional pushes. */
  method NeighbourCandidates(a: int, b: int) returns (candidates: seq<ICoord>)
    ensures candidates == Candidates(a, b)
  {
    candidates := [(a + 1, b), (a, b + 1), (a + 1, b + 1)];
    if a - 1 >= 0 {
      candidates := candidates + [(a - 1, b)];
      candidates := candidates + [(a - 1, b + 1)];
    }
    if b - 1 >= 0 {
      candidates := candidates + [(a, b - 1)];
      candidates := candidates + [(a + 1, b - 1)];
    }
    if a - 1 >= 0 && b - 1 >= 0 {
      candidates := candidates + [(a - 1, b - 1)];
    }
  }
}
