/** Conversion between population per pixel (ppp) and population per
    hectare (pph) with r.mapcalc's `area()`, the cell area in square metres
    (SheDecides_Python_chain.py, lines 121, 133, 342 and 360). */
module Density {
  import opened Wrappers
  import opened MapCalc

  const SquareMetresPerHectare: real := 10000.0

  /** Lines 121 and 133: people per pixel divided by the cell area in hectares. */
  function PerHectare(ppp: Cell, area: real): (r: Cell)
    ensures r.Some? <==> ppp.Some? && area != 0.0
    ensures r.Some? ==> r.value * area == ppp.value * SquareMetresPerHectare
  {
    Div(ppp, Some(area / SquareMetresPerHectare))
  }

  /** Lines 342 and 360: people per hectare times the cell area in hectares. */
  function PerPixel(pph: Cell, area: real): (r: Cell)
    ensures r.Some? <==> pph.Some?
    ensures r.Some? ==> r.value * SquareMetresPerHectare == pph.value * area
  {
    Div(Mul(pph, Some(area)), Some(SquareMetresPerHectare))
  }

  lemma CancelFactor(a: real, b: real, c: real)
    requires c != 0.0 && a * c == b * c
    ensures a == b
  {
    assert (a - b) * c == 0.0;
  }

  /** On a cell of non-zero area, going to density and back gives the
      original count. */
  lemma PixelHectarePixel(ppp: Cell, area: real)
    requires area != 0.0
    ensures PerPixel(PerHectare(ppp, area), area) == ppp
  {
  }

  /** On a cell of non-zero area, going to counts and back gives the
      original density. */
  lemma HectarePixelHectare(pph: Cell, area: real)
    requires area != 0.0
    ensures PerHectare(PerPixel(pph, area), area) == pph
  {
    if pph.Some? {
      var counts := PerPixel(pph, area);
      var back := PerHectare(counts, area);
      assert back.value * area == pph.value * area;
      CancelFactor(back.value, pph.value, area);
    }
  }
}
