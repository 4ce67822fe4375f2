/** The PDF viewer's zoom and rotation controls. */
module PdfViewer {

  /** A zoom the controls can reach: a multiple of 25 between 50 and 200 percent. */
  predicate ValidZoom(z: int)
  {
    50 <= z <= 200 && z % 25 == 0
  }

  /** A quarter-turn orientation. */
  predicate ValidRotation(r: int)
  {
    r == 0 || r == 90 || r == 180 || r == 270
  }

  /** `Math.min(z + 25, 200)`: one step larger, stopping at 200. */
  function ZoomedIn(z: int): (r: int)
    ensures ValidZoom(z) ==> ValidZoom(r)
    ensures r <= 200 && (z <= 200 ==> z <= r)
    ensures z < 200 && ValidZoom(z) ==> r == z + 25
    ensures z >= 175 ==> r == 200
  {
    if z + 25 < 200 then z + 25 else 200
  }

  /** `Math.max(z - 25, 50)`: one step smaller, stopping at 50. */
  function ZoomedOut(z: int): (r: int)
    ensures ValidZoom(z) ==> ValidZoom(r)
    ensures r >= 50 && (z >= 50 ==> r <= z)
    ensures z > 50 && ValidZoom(z) ==> r == z - 25
    ensures z <= 75 ==> r == 50
  {
    if z - 25 > 50 then z - 25 else 50
  }

  /** JavaScript's `a % n` for a positive `n`: the remainder takes the sign of `a`, so it
      agrees with the Euclidean remainder only for `a >= 0`. */
  function JsRem(a: int, n: int): (r: int)
    requires n > 0
    ensures a >= 0 ==> r == a % n && 0 <= r < n
    ensures a < 0 ==> r == -((-a) % n) && -n < r <= 0
  {
    if a >= 0 then a % n else -((-a) % n)
  }

  /** `(r + 90) % 360`: a quarter turn clockwise. From any angle the controls can reach it
      is the Euclidean remainder, in [0, 360); below -90 it would be negative. */
  function NextRotation(r: int): (next: int)
    ensures ValidRotation(r) ==> ValidRotation(next)
    ensures r >= -90 ==> next == (r + 90) % 360 && 0 <= next < 360
    ensures r < -90 ==> -360 < next <= 0
  {
    JsRem(r + 90, 360)
  }

  /** Four quarter turns bring any reachable orientation back. */
  lemma FourRotationsRestore(r: int)
    requires ValidRotation(r)
    ensures NextRotation(NextRotation(NextRotation(NextRotation(r)))) == r
  {
  }

  /** Below the top, zooming out undoes zooming in; above the bottom, the reverse. */
  lemma ZoomStepsUndo(z: int)
    requires ValidZoom(z)
    ensures z < 200 ==> ZoomedOut(ZoomedIn(z)) == z
    ensures z > 50 ==> ZoomedIn(ZoomedOut(z)) == z
  {
  }

  /** Zooming in at the top and out at the bottom change nothing. */
  lemma ZoomClampsAreFixedPoints()
    ensures ZoomedIn(200) == 200 && ZoomedOut(50) == 50
  {
  }

  class Viewer {
    var zoom: int
    var rotation: int

    ghost predicate Valid()
      reads this
    {
      ValidZoom(zoom) && ValidRotation(rotation)
    }

    /** 100 percent, upright. */
    constructor ()
      ensures Valid() && zoom == 100 && rotation == 0
    {
      zoom, rotation := 100, 0;
    }

    method ZoomIn()
      requires Valid()
      modifies this
      ensures Valid() && zoom == ZoomedIn(old(zoom)) && rotation == old(rotation)
    {
      zoom := ZoomedIn(zoom);
    }

    method ZoomOut()
      requires Valid()
      modifies this
      ensures Valid() && zoom == ZoomedOut(old(zoom)) && rotation == old(rotation)
    {
      zoom := ZoomedOut(zoom);
    }

    method Rotate()
      requires Valid()
      modifies this
      ensures Valid() && rotation == NextRotation(old(rotation)) && zoom == old(zoom)
    {
      rotation := NextRotation(rotation);
    }
  }
}
