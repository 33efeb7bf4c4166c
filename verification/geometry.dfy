/**
 * What the viewport reads from the host page. The detector never reads the
 * page itself: every handler is given the values the page would return.
 */
module Geometry {

  /**
   * One synchronous read of the host: the clock (`Date.now()`, whole
   * milliseconds) and the viewport's scroll offsets and size. Offsets are
   * real because browsers report fractional scroll positions.
   */
  datatype HostReading = HostReading(
    now: int,
    scrollLeft: real,
    scrollTop: real,
    width: real,
    height: real)

  /** The four-number snapshot returned by `getRect`. */
  datatype Rect = Rect(left: real, top: real, width: real, height: real)

  /** `getRect`: left is the horizontal offset, top the vertical one, then width and height. */
  function ViewportRect(h: HostReading): Rect
  {
    Rect(h.scrollLeft, h.scrollTop, h.width, h.height)
  }

  function Abs(x: real): real
  {
    if x < 0.0 then -x else x
  }
}
