/** The pixel-size inputs both rasterizers read off a decoded image. */
module Imaging {

  /**
   * `img.naturalWidth || img.width || fallback`: the first size that is not zero.
   * The result is never zero when the fallback is not.
   */
  function Dimension(natural: nat, declared: nat, fallback: nat): (d: nat)
    ensures fallback > 0 ==> d > 0
    ensures d == natural || d == declared || d == fallback
    ensures natural > 0 ==> d == natural
    ensures natural == 0 && declared > 0 ==> d == declared
    ensures natural == 0 && declared == 0 ==> d == fallback
  {
    if natural != 0 then natural else if declared != 0 then declared else fallback
  }

  /** `Math.max(width, height)`. */
  function LongestEdge(width: nat, height: nat): (m: nat)
    ensures m >= width && m >= height && (m == width || m == height)
  {
    if width >= height then width else height
  }

  /** `edge * scale`: one canvas dimension, before the canvas truncates it to whole pixels. */
  function Scaled(edge: nat, scale: real): real {
    edge as real * scale
  }
}
