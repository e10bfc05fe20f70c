/**
 * The splitter drag handlers of `initSplitters` (`electron/renderer/main.js`):
 * the sidebar and the mini hub are resized to the mouse position, clamped
 * between a minimum width and half the window (with an absolute cap).
 */
module Layout {

  function MinR(a: real, b: real): real { if a < b then a else b }
  function MaxR(a: real, b: real): real { if a < b then b else a }

  /** The sidebar width for mouse position `x`: `max(180, min(min(innerWidth * 0.5, 500), x))`. */
  function SidebarWidth(x: int, innerWidth: int): (w: real)
    ensures w >= 180.0
    ensures w <= MaxR(180.0, MinR(innerWidth as real * 0.5, 500.0))
    ensures 180 <= x && x as real <= MinR(innerWidth as real * 0.5, 500.0) ==> w == x as real
  {
    MaxR(180.0, MinR(MinR(innerWidth as real * 0.5, 500.0), x as real))
  }

  /**
   * The mini hub width for mouse position `x`, measured from the right edge:
   * `max(220, min(min(innerWidth * 0.5, 560), innerWidth - x))`.
   */
  function MinihubWidth(x: int, innerWidth: int): (w: real)
    ensures w >= 220.0
    ensures w <= MaxR(220.0, MinR(innerWidth as real * 0.5, 560.0))
    ensures 220 <= innerWidth - x && (innerWidth - x) as real <= MinR(innerWidth as real * 0.5, 560.0) ==> w == (innerWidth - x) as real
  {
    MaxR(220.0, MinR(MinR(innerWidth as real * 0.5, 560.0), (innerWidth - x) as real))
  }

  /** Dragging further right never narrows the sidebar, and never widens the mini hub. */
  lemma WidthsMonotone(x: int, y: int, innerWidth: int)
    requires x <= y
    ensures SidebarWidth(x, innerWidth) <= SidebarWidth(y, innerWidth)
    ensures MinihubWidth(x, innerWidth) >= MinihubWidth(y, innerWidth)
  {
  }
}
