/**
 * The coordinate arithmetic behind `PlayspaceMatrix::get_neighbours_at_coord`:
 * the fixed list of candidate coordinates the source builds around a query
 * coordinate, and the in-grid filter applied to it. Coordinates here are the
 * source's signed `isize` pairs, `(row, col)`.
 */
module Neighbours {

  type ICoord = (int, int)

  predicate InGrid(h: int, w: int, c: ICoord) {
    0 <= c.0 < h && 0 <= c.1 < w
  }

  /** `c` and `d` are at Chebyshev distance exactly one (the Moore neighbourhood). */
  predicate Adjacent(c: ICoord, d: ICoord) {
    c != d && -1 <= c.0 - d.0 <= 1 && -1 <= c.1 - d.1 <= 1
  }

  predicate Distinct<T(==)>(s: seq<T>) {
    forall i, j :: 0 <= i < j < |s| ==> s[i] != s[j]
  }

  /**
   * The candidate list in the source's order: three cells below and to the
   * right, then the row above when `a - 1 >= 0`, then the column to the left
   * when `b - 1 >= 0`, then the upper-left diagonal when both hold.
   */
  function Candidates(a: int, b: int): (r: seq<ICoord>)
    ensures Distinct(r)
    ensures forall c :: c in r ==> Adjacent(c, (a, b))
  {
    [(a + 1, b), (a, b + 1), (a + 1, b + 1)]
    + (if a - 1 >= 0 then [(a - 1, b), (a - 1, b + 1)] else [])
    + (if b - 1 >= 0 then [(a, b - 1), (a + 1, b - 1)] else [])
    + (if a - 1 >= 0 && b - 1 >= 0 then [(a - 1, b - 1)] else [])
  }

  /** Every Moore neighbour with non-negative coordinates is a candidate. */
  lemma CandidatesCover(a: int, b: int, c: ICoord)
    requires c.0 >= 0 && c.1 >= 0 && Adjacent(c, (a, b))
    ensures c in Candidates(a, b)
  {
  }

  /**
   * The candidates that lie inside an `h` by `w` grid, in their original
   * order: the loop over `possible_neighbour_coords` that keeps each
   * coordinate whose lookup is `Some`.
   */
  function KeepInGrid(h: int, w: int, s: seq<ICoord>): (r: seq<ICoord>)
    ensures |r| <= |s|
    ensures forall k :: 0 <= k < |r| ==> InGrid(h, w, r[k])
  {
    if s == [] then []
    else
      var last := s[|s| - 1];
      KeepInGrid(h, w, s[..|s| - 1]) + (if InGrid(h, w, last) then [last] else [])
  }

  /** The filter keeps exactly the in-grid members of its input. */
  lemma {:induction false} KeepInGridMembers(h: int, w: int, s: seq<ICoord>)
    ensures forall c :: c in KeepInGrid(h, w, s) <==> c in s && InGrid(h, w, c)
  {
    if s != [] {
      var init := s[..|s| - 1];
      KeepInGridMembers(h, w, init);
      assert forall c :: c in s <==> c in init || c == s[|s| - 1];
    }
  }

  /** The filter keeps a list without repeats free of repeats. */
  lemma {:induction false} KeepInGridDistinct(h: int, w: int, s: seq<ICoord>)
    requires Distinct(s)
    ensures Distinct(KeepInGrid(h, w, s))
  {
    if s != [] {
      var init, last := s[..|s| - 1], s[|s| - 1];
      KeepInGridDistinct(h, w, init);
      KeepInGridMembers(h, w, init);
      assert last !in init;
    }
  }

  lemma {:induction false} KeepInGridAppend(h: int, w: int, s: seq<ICoord>, t: seq<ICoord>)
    ensures KeepInGrid(h, w, s + t) == KeepInGrid(h, w, s) + KeepInGrid(h, w, t)
    decreases |t|
  {
    if t == [] {
      assert s + t == s;
    } else {
      var init := t[..|t| - 1];
      assert (s + t)[..|s + t| - 1] == s + init;
      KeepInGridAppend(h, w, s, init);
    }
  }

  lemma KeepInGridSnoc(h: int, w: int, s: seq<ICoord>, c: ICoord)
    ensures KeepInGrid(h, w, s + [c]) == KeepInGrid(h, w, s) + (if InGrid(h, w, c) then [c] else [])
  {
  }

  function Indicator(b: bool): nat {
    if b then 1 else 0
  }

  lemma KeepInGridLength(h: int, w: int, s: seq<ICoord>)
    requires |s| <= 3
    ensures |KeepInGrid(h, w, s)| ==
      (if |s| > 0 then Indicator(InGrid(h, w, s[0])) else 0)
      + (if |s| > 1 then Indicator(InGrid(h, w, s[1])) else 0)
      + (if |s| > 2 then Indicator(InGrid(h, w, s[2])) else 0)
  {
  }

  /** The coordinates whose cells `get_neighbours_at_coord` collects. */
  function NeighbourCoords(h: int, w: int, a: int, b: int): (r: seq<ICoord>)
    ensures Distinct(r)
    ensures forall c :: c in r <==> InGrid(h, w, c) && Adjacent(c, (a, b))
  {
    var r := KeepInGrid(h, w, Candidates(a, b));
    KeepInGridMembers(h, w, Candidates(a, b));
    KeepInGridDistinct(h, w, Candidates(a, b));
    assert forall c :: InGrid(h, w, c) && Adjacent(c, (a, b)) ==> c in r by {
      forall c | InGrid(h, w, c) && Adjacent(c, (a, b)) {
        CandidatesCover(a, b, c);
      }
    }
    r
  }

  /** How many of `x - 1`, `x`, `x + 1` lie in `[0, n)`, for `0 <= x < n`. */
  function Span(x: int, n: int): int {
    Indicator(x >= 1) + 1 + Indicator(x + 1 < n)
  }

  /**
   * The neighbour list of an in-grid cell has one entry per cell of the
   * clipped 3 by 3 block around it, less the cell itself.
   */
  lemma NeighbourCount(h: int, w: int, a: int, b: int)
    requires 0 <= a < h && 0 <= b < w
    ensures |NeighbourCoords(h, w, a, b)| == Span(a, h) * Span(b, w) - 1
  {
    var up, down, left, right := a >= 1, a + 1 < h, b >= 1, b + 1 < w;
    var s1 := [(a + 1, b), (a, b + 1), (a + 1, b + 1)];
    var s2 := if a - 1 >= 0 then [(a - 1, b), (a - 1, b + 1)] else [];
    var s3 := if b - 1 >= 0 then [(a, b - 1), (a + 1, b - 1)] else [];
    var s4 := if a - 1 >= 0 && b - 1 >= 0 then [(a - 1, b - 1)] else [];
    assert Candidates(a, b) == s1 + s2 + s3 + s4;
    KeepInGridAppend(h, w, s1 + s2 + s3, s4);
    KeepInGridAppend(h, w, s1 + s2, s3);
    KeepInGridAppend(h, w, s1, s2);
    PieceLengths(h, w, a, b);
    var total := Indicator(down) + Indicator(right) + Indicator(down && right)
                 + Indicator(up) + Indicator(up && right)
                 + Indicator(left) + Indicator(left && down)
                 + Indicator(up && left);
    assert |KeepInGrid(h, w, Candidates(a, b))| == total;
    SpanProduct(h, w, a, b);
  }

  lemma PieceLengths(h: int, w: int, a: int, b: int)
    requires 0 <= a < h && 0 <= b < w
    ensures var up, down, left, right := a >= 1, a + 1 < h, b >= 1, b + 1 < w;
      && |KeepInGrid(h, w, [(a + 1, b), (a, b + 1), (a + 1, b + 1)])|
           == Indicator(down) + Indicator(right) + Indicator(down && right)
      && |KeepInGrid(h, w, if a - 1 >= 0 then [(a - 1, b), (a - 1, b + 1)] else [])|
           == Indicator(up) + Indicator(up && right)
      && |KeepInGrid(h, w, if b - 1 >= 0 then [(a, b - 1), (a + 1, b - 1)] else [])|
           == Indicator(left) + Indicator(left && down)
      && |KeepInGrid(h, w, if a - 1 >= 0 && b - 1 >= 0 then [(a - 1, b - 1)] else [])|
           == Indicator(up && left)
  {
    KeepInGridLength(h, w, [(a + 1, b), (a, b + 1), (a + 1, b + 1)]);
    KeepInGridLength(h, w, if a - 1 >= 0 then [(a - 1, b), (a - 1, b + 1)] else []);
    KeepInGridLength(h, w, if b - 1 >= 0 then [(a, b - 1), (a + 1, b - 1)] else []);
    KeepInGridLength(h, w, if a - 1 >= 0 && b - 1 >= 0 then [(a - 1, b - 1)] else []);
  }

  /** The clipped block count, one indicator per candidate in the source's order. */
  lemma SpanProduct(h: int, w: int, a: int, b: int)
    ensures var up, down, left, right := a >= 1, a + 1 < h, b >= 1, b + 1 < w;
      Indicator(down) + Indicator(right) + Indicator(down && right)
      + Indicator(up) + Indicator(up && right)
      + Indicator(left) + Indicator(left && down)
      + Indicator(up && left)
      == Span(a, h) * Span(b, w) - 1
  {
  }

  predicate OnEdge(h: int, a: int) {
    a == 0 || a == h - 1
  }

  lemma CornerHasThreeNeighbours(h: int, w: int, a: int, b: int)
    requires 2 <= h && 2 <= w && 0 <= a < h && 0 <= b < w
    requires OnEdge(h, a) && OnEdge(w, b)
    ensures |NeighbourCoords(h, w, a, b)| == 3
  {
    NeighbourCount(h, w, a, b);
  }

  lemma EdgeHasFiveNeighbours(h: int, w: int, a: int, b: int)
    requires 3 <= h && 3 <= w && 0 <= a < h && 0 <= b < w
    requires OnEdge(h, a) != OnEdge(w, b)
    ensures |NeighbourCoords(h, w, a, b)| == 5
  {
    NeighbourCount(h, w, a, b);
  }

  lemma InteriorHasEightNeighbours(h: int, w: int, a: int, b: int)
    requires 0 < a < h - 1 && 0 < b < w - 1
    ensures |NeighbourCoords(h, w, a, b)| == 8
  {
    NeighbourCount(h, w, a, b);
  }
}
