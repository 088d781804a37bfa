/**
 * The cell state record that every CellModeller regulation script reads and
 * writes, and the small numeric helpers the scripts share.
 *
 * Geometry (`volume`, `pos`, `dir`) is owned by the mechanics engine and the
 * chemistry (`signals`, `species`) by the diffusion solver; the regulation
 * hooks read them and write only the physiological fields.
 */
module CellState {

  /** A point or a direction: the `pos` and `dir` triples. */
  datatype Vec3 = Vec3(x: real, y: real, z: real)

  /** A display colour, the `[R, G, B]` list handed to the renderer. */
  datatype Color = Color(r: real, g: real, b: real)

  /** One cell state as the regulation hooks see it. */
  datatype Cell = Cell(
    cellType: int,
    growthRate: real,
    targetVol: real,
    divideFlag: bool,
    deadCounter: int,
    color: Color,
    volume: real,
    pos: Vec3,
    dir: Vec3,
    signals: seq<real>,
    species: seq<real>)

  /** Type tags shared by every script. */
  const SA_TYPE: int := 0
  const PA_TYPE: int := 1
  const DEAD_TYPE: int := 2

  /** Grey, the colour of every dead cell. */
  const COL_DEAD: Color := Color(0.6, 0.6, 0.6)

  /** Python's `max(a, b)` on floats. */
  function Max(a: real, b: real): (r: real)
    ensures r >= a && r >= b && (r == a || r == b)
  {
    if a >= b then a else b
  }

  /** Python's `min(a, b)` on floats. */
  function Min(a: real, b: real): (r: real)
    ensures r <= a && r <= b && (r == a || r == b)
  {
    if a <= b then a else b
  }

  /** For a positive `k`, `n / k` reaches 1 exactly when `n` reaches `k`. */
  lemma RatioAtLeastOne(n: real, k: real)
    requires k > 0.0
    ensures n / k >= 1.0 <==> n >= k
  {
    var q := n / k;
    assert q * k == n;
    if q >= 1.0 {
      assert (q - 1.0) * k >= 0.0;
    } else {
      assert (1.0 - q) * k > 0.0;
    }
  }

  /** Dividing by a positive `k` keeps the order. */
  lemma RatioMonotone(a: real, b: real, k: real)
    requires k > 0.0 && a <= b
    ensures a / k <= b / k
  {
    var qa, qb := a / k, b / k;
    assert (qb - qa) * k == b - a;
  }

  /** `(a - b) / k` splits into `a / k - b / k`. */
  lemma RatioDiff(a: real, b: real, k: real)
    requires k > 0.0
    ensures a / k - b / k == (a - b) / k
  {
    var qa, qb, qd := a / k, b / k, (a - b) / k;
    assert (qa - qb) * k == a - b;
    assert qd * k == a - b;
    assert (qa - qb - qd) * k == 0.0;
  }

  /** A number no larger than `k` in magnitude, divided by `k`, lies in `[-1, 1]`. */
  lemma RatioWithinOne(n: real, k: real)
    requires k > 0.0 && -k <= n <= k
    ensures -1.0 <= n / k <= 1.0
  {
    var q := n / k;
    assert q * k == n;
  }

  /** For `0 <= a < b`, `a*a < b*b`. */
  lemma SquareLess(a: real, b: real)
    requires 0.0 <= a < b
    ensures a * a < b * b
  {
    assert (b - a) * a >= 0.0;
    assert (b - a) * b > 0.0;
  }

  /** A square bounded by `r*r` bounds the number by `r`. */
  lemma AbsFromSquare(d: real, r: real)
    requires r > 0.0 && d * d <= r * r
    ensures -r <= d <= r
  {
    if d > r {
      SquareLess(r, d);
    } else if d < -r {
      SquareLess(r, -d);
    }
  }

  /** A colour whose three channels lie in `[0, 1]`. */
  predicate InUnitCube(c: Color) {
    0.0 <= c.r <= 1.0 && 0.0 <= c.g <= 1.0 && 0.0 <= c.b <= 1.0
  }

  /** `base * (1 - norm) + 1 * norm`, channel by channel: the fade toward white. */
  function Whiten(base: Color, norm: real): Color {
    Color(Blend(base.r, norm), Blend(base.g, norm), Blend(base.b, norm))
  }

  /** One channel of the fade: `v * (1 - norm) + 1 * norm`. */
  function Blend(v: real, norm: real): real {
    v * (1.0 - norm) + 1.0 * norm
  }

  /** One channel of the fade stays between its base value and 1. */
  lemma BlendBetween(v: real, norm: real)
    requires 0.0 <= v <= 1.0 && 0.0 <= norm <= 1.0
    ensures v <= Blend(v, norm) <= 1.0
    ensures norm == 0.0 ==> Blend(v, norm) == v
    ensures norm == 1.0 ==> Blend(v, norm) == 1.0
  {
    var rest, keep := 1.0 - v, 1.0 - norm;
    MulNonNegative(rest, norm);
    MulNonNegative(rest, keep);
    assert Blend(v, norm) - v == rest * norm;
    assert 1.0 - Blend(v, norm) == rest * keep;
  }

  /** The product of two non-negative numbers is non-negative. */
  lemma MulNonNegative(a: real, b: real)
    requires 0.0 <= a && 0.0 <= b
    ensures 0.0 <= a * b
  {
  }

  /**
   * Fading a displayable colour keeps it displayable and only brightens it;
   * no fade leaves it as it is and a full fade gives white.
   */
  lemma WhitenBounds(base: Color, norm: real)
    requires InUnitCube(base) && 0.0 <= norm <= 1.0
    ensures InUnitCube(Whiten(base, norm))
    ensures base.r <= Whiten(base, norm).r && base.g <= Whiten(base, norm).g && base.b <= Whiten(base, norm).b
    ensures norm == 0.0 ==> Whiten(base, norm) == base
    ensures norm == 1.0 ==> Whiten(base, norm) == Color(1.0, 1.0, 1.0)
  {
    BlendBetween(base.r, norm);
    BlendBetween(base.g, norm);
    BlendBetween(base.b, norm);
  }

  /** A product of two numbers in `[0, 1]` lies in `[0, 1]` and below each factor. */
  lemma UnitProduct(a: real, b: real)
    requires 0.0 <= a <= 1.0 && 0.0 <= b <= 1.0
    ensures 0.0 <= a * b <= a && a * b <= b
  {
    assert a * (1.0 - b) >= 0.0;
    assert b * (1.0 - a) >= 0.0;
  }

  /** Scaling a non-negative `x` by a factor in `[0, 1]` gives a value in `[0, x]`. */
  lemma ScaleWithin(x: real, f: real)
    requires 0.0 <= x && 0.0 <= f <= 1.0
    ensures 0.0 <= x * f <= x
  {
    MulNonNegative(x, f);
    MulNonNegative(x, 1.0 - f);
    assert x - x * f == x * (1.0 - f);
  }

  /** The division trigger every script uses: `volume > targetVol`. */
  predicate Oversized(c: Cell) {
    c.volume > c.targetVol
  }

  /**
   * The fields the regulation hooks read but never write during `update`:
   * geometry, chemistry and the division target.
   */
  predicate SameEngineFields(a: Cell, b: Cell) {
    && a.volume == b.volume
    && a.pos == b.pos
    && a.dir == b.dir
    && a.signals == b.signals
    && a.species == b.species
    && a.targetVol == b.targetVol
  }

  /** The fields `divide` leaves as the mechanics engine set them on a daughter. */
  predicate SameGeometry(a: Cell, b: Cell) {
    && a.volume == b.volume
    && a.pos == b.pos
    && a.dir == b.dir
    && a.signals == b.signals
    && a.species == b.species
  }
}
