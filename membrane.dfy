/**
 * Membrane transport as the OpenCL reaction kernels write it: the flux
 * `D * (outside - inside) * area / gridVolume` between a cell's pool and the
 * grid voxel it sits in, counted positive into the cell by `specRateCL` and
 * negative by `sigRateCL`.
 */
module Membrane {

  /**
   * What a kernel reads for one cell: the pools inside the cell, the grid
   * values at the cell, the cell's membrane area and the voxel volume.
   */
  datatype Chemistry = Chemistry(
    toxinIn: real, inhibitorIn: real, toxin: real, inhibitor: real, area: real, gridVolume: real)

  /** `rates[0]` (toxin) and `rates[1]` (inhibitor). */
  datatype Rates = Rates(toxin: real, inhibitor: real)

  /** `D * (outside - inside) * area / gridVolume`: diffusion across the membrane. */
  function Exchange(d: real, outside: real, inside: real, area: real, gridVolume: real): real
    requires gridVolume > 0.0
  {
    d * (outside - inside) * area / gridVolume
  }

  /** The same flux seen from the grid, written as the signal kernel writes it. */
  function Outflux(d: real, outside: real, inside: real, area: real, gridVolume: real): real
    requires gridVolume > 0.0
  {
    -d * (outside - inside) * area / gridVolume
  }

  /** What leaves the grid across a membrane enters the cell. */
  lemma OutfluxIsExchange(d: real, outside: real, inside: real, area: real, gridVolume: real)
    requires gridVolume > 0.0
    ensures Outflux(d, outside, inside, area, gridVolume) == -Exchange(d, outside, inside, area, gridVolume)
  {
    var p := d * (outside - inside) * area;
    assert -d * (outside - inside) * area == -p;
  }

  /** The sign of `d * x * a / g` for positive `d`, `a`, `g` is the sign of `x`. */
  lemma FluxSign(d: real, x: real, a: real, g: real)
    requires d > 0.0 && a > 0.0 && g > 0.0
    ensures d * x * a / g > 0.0 <==> x > 0.0
    ensures d * x * a / g == 0.0 <==> x == 0.0
  {
    var da := d * a;
    MulPositive(d, a);
    var p := d * x * a;
    assert p == da * x;
    SignOfProduct(da, x);
    var q := p / g;
    assert q * g == p;
    SignOfProduct(g, q);
  }

  lemma MulPositive(a: real, b: real)
    requires a > 0.0 && b > 0.0
    ensures a * b > 0.0
  {
  }

  /** For positive `k`, `k * x` has the sign of `x`. */
  lemma SignOfProduct(k: real, x: real)
    requires k > 0.0
    ensures k * x > 0.0 <==> x > 0.0
    ensures k * x == 0.0 <==> x == 0.0
  {
    if x > 0.0 {
      MulPositive(k, x);
    } else if x < 0.0 {
      MulPositive(k, -x);
      assert k * (-x) == -(k * x);
    }
  }
}
