/**
 * Cursor-edge detection of src/ui.rs: which window edge or corner the cursor
 * is within `EDGE_EPSILON` pixels of, as worked out by
 * `cache_window_attrs_system`.
 */
module Ui {
  import opened Wrappers
  import opened Vectors

  /** `CursorEdge` */
  datatype CursorEdge = N | E | S | W | NE | SE | SW | NW

  predicate North(e: CursorEdge) { e == N || e == NE || e == NW }
  predicate South(e: CursorEdge) { e == S || e == SE || e == SW }
  predicate East(e: CursorEdge) { e == E || e == NE || e == SE }
  predicate West(e: CursorEdge) { e == W || e == NW || e == SW }

  /** How many of the four edge predicates hold. */
  function Sides(e: CursorEdge): nat {
    (if North(e) then 1 else 0) + (if South(e) then 1 else 0) + (if East(e) then 1 else 0) + (if West(e) then 1 else 0)
  }

  /**
   * No edge is both north and south, nor both east and west. The four sides
   * satisfy one predicate each and the four corners two each.
   */
  lemma EdgePredicates(e: CursorEdge)
    ensures !(North(e) && South(e)) && !(East(e) && West(e))
    ensures Sides(e) == 1 <==> e in {N, E, S, W}
    ensures Sides(e) == 2 <==> e in {NE, SE, SW, NW}
  {
  }

  const EDGE_EPSILON: real := 10.0

  /**
   * The edge a cursor at c in a window of the given size reaches: some edge
   * exactly when it is within `EDGE_EPSILON` of a side, west taking
   * precedence over east and a small y (south) over a small distance to the
   * top (north).
   */
  predicate Classified(reached: Option<CursorEdge>, size: Vec2, c: Vec2) {
    var d := Vec2(size.x - c.x, size.y - c.y);
    (reached.Some? <==> c.x < EDGE_EPSILON || d.x < EDGE_EPSILON || c.y < EDGE_EPSILON || d.y < EDGE_EPSILON) &&
    (reached.Some? ==>
       (West(reached.value) <==> c.x < EDGE_EPSILON) &&
       (East(reached.value) <==> !(c.x < EDGE_EPSILON) && d.x < EDGE_EPSILON) &&
       (South(reached.value) <==> c.y < EDGE_EPSILON) &&
       (North(reached.value) <==> !(c.y < EDGE_EPSILON) && d.y < EDGE_EPSILON))
  }

  /** The part of `UiContext` the edge detection reads and writes. */
  class UiContext {
    var windowSize: Vec2
    var cursorPosition: Vec2
    var cursorEdge: Option<CursorEdge>

    /**
     * The edge test of `cache_window_attrs_system`: `cursor_edge` is set to
     * W or E from the horizontal distances (W first), then combined with the
     * vertical test (a small y first, then a small distance to the top). The
     * value it reaches is returned, and `cursor_edge` is then reset to `None`.
     */
    method ClassifyEdge() returns (reached: Option<CursorEdge>)
      modifies this
      ensures windowSize == old(windowSize) && cursorPosition == old(cursorPosition) && cursorEdge == None
      ensures Classified(reached, windowSize, cursorPosition)
    {
      var cPos := cursorPosition;
      var deltaPos := Vec2(windowSize.x - cPos.x, windowSize.y - cPos.y);
      cursorEdge := None;
      if cPos.x < EDGE_EPSILON {
        cursorEdge := Some(W);
      } else if deltaPos.x < EDGE_EPSILON {
        cursorEdge := Some(E);
      }
      if cPos.y < EDGE_EPSILON {
        match cursorEdge {
          case Some(W) => cursorEdge := Some(SW);
          case Some(E) => cursorEdge := Some(SE);
          case None => cursorEdge := Some(S);
          case _ => assert false;
        }
      } else if deltaPos.y < EDGE_EPSILON {
        match cursorEdge {
          case Some(W) => cursorEdge := Some(NW);
          case Some(E) => cursorEdge := Some(NE);
          case None => cursorEdge := Some(N);
          case _ => assert false;
        }
      }
      reached := cursorEdge;
      cursorEdge := None;
    }

    /**
     * `cache_window_attrs_system` without the camera matrix. On a resize
     * (the first `WindowResized` event) the window size is taken from it and
     * the cursor is forced to the middle. On a resize or a mouse motion, the
     * cursor position is updated (to the window's cursor, or (0, 0) when it
     * has none) and the edge test runs; otherwise nothing changes.
     */
    method CacheWindowAttrs(resized: Option<Vec2>, moved: bool, cursor: Option<Vec2>) returns (reached: Option<CursorEdge>)
      modifies this
      ensures resized.Some? ==> windowSize == resized.value && cursorPosition == Vec2(resized.value.x / 2.0, resized.value.y / 2.0)
      ensures resized.None? ==> windowSize == old(windowSize)
      ensures resized.None? && moved ==> cursorPosition == (if cursor.Some? then cursor.value else Vec2(0.0, 0.0))
      ensures resized.Some? || moved ==> cursorEdge == None && Classified(reached, windowSize, cursorPosition)
      ensures resized.None? && !moved ==> cursorPosition == old(cursorPosition) && cursorEdge == old(cursorEdge) && reached == None
    {
      var forceMiddle: Option<Vec2> := None;
      if resized.Some? {
        windowSize := resized.value;
        forceMiddle := Some(Vec2(windowSize.x / 2.0, windowSize.y / 2.0));
      }
      reached := None;
      if moved || forceMiddle.Some? {
        cursorPosition := match forceMiddle
          case Some(p) => p
          case None => match cursor case Some(p) => p case None => Vec2(0.0, 0.0);
        reached := ClassifyEdge();
      }
    }
  }
}
