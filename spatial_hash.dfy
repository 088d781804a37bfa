/**
 * The uniform spatial hash the contact-killing scripts build over PA cells:
 * `grid_index`, the 3x3 `NEIGHBOR_OFFSETS`, the `pa_grid` dictionary filled
 * by `setdefault(key, []).append((x, y, cid))`, and the neighbourhood scan
 * that stops at the first PA inside the kill radius.
 *
 * The main result is that, when the bucket size is at least the kill radius,
 * the 3x3 scan answers exactly the brute-force question "is some PA cell of
 * the population within the kill radius?".
 */
module SpatialHash {
  import opened CellState

  /** One `(xp, yp, cid)` tuple of a bucket. */
  datatype Entry<K> = Entry(x: real, y: real, id: K)

  /** Integer bucket coordinates `(gx, gy)`. */
  type Key = (int, int)

  /** The `pa_grid` dictionary. */
  type Grid<K> = map<Key, seq<Entry<K>>>

  /** The 3x3 neighbourhood, in the order of the list comprehension (dxg outer, dyg inner). */
  const NEIGHBOR_OFFSETS: seq<Key> :=
    [(-1, -1), (-1, 0), (-1, 1), (0, -1), (0, 0), (0, 1), (1, -1), (1, 0), (1, 1)]

  /** The offsets are exactly the nine pairs with both components in {-1, 0, 1}. */
  lemma NeighborOffsetsAre3x3(dx: int, dy: int)
    ensures (dx, dy) in NEIGHBOR_OFFSETS <==> -1 <= dx <= 1 && -1 <= dy <= 1
  {
  }

  /** The nested loops `for dxg in (-1, 0, 1): for dyg in (-1, 0, 1)` visit the offsets in list order. */
  lemma OffsetAt(dx: int, dy: int)
    requires -1 <= dx <= 1 && -1 <= dy <= 1
    ensures 0 <= 3 * (dx + 1) + (dy + 1) < |NEIGHBOR_OFFSETS|
    ensures NEIGHBOR_OFFSETS[3 * (dx + 1) + (dy + 1)] == (dx, dy)
  {
  }

  /**
   * `grid_index(x, y)`: the bucket `(gx, gy)` with `gx <= x/size < gx + 1`
   * and `gy <= y/size < gy + 1`, i.e. the square of side `size` that
   * contains `(x, y)`.
   */
  function GridIndex(x: real, y: real, size: real): (k: Key)
    requires size > 0.0
    ensures k.0 as real <= x / size < k.0 as real + 1.0
    ensures k.1 as real <= y / size < k.1 as real + 1.0
  {
    ((x / size).Floor, (y / size).Floor)
  }

  /** The square distance test `dx*dx + dy*dy <= r2`; no square root is taken. */
  predicate WithinRadius(x0: real, y0: real, xp: real, yp: real, r2: real) {
    (x0 - xp) * (x0 - xp) + (y0 - yp) * (y0 - yp) <= r2
  }

  /** `pa_grid.setdefault(key, []).append(e)`. */
  function Insert<K>(grid: Grid<K>, key: Key, e: Entry<K>): (r: Grid<K>)
    ensures r.Keys == grid.Keys + {key}
    ensures r[key] == (if key in grid then grid[key] else []) + [e]
    ensures forall k :: k in grid && k != key ==> r[k] == grid[k]
  {
    grid[key := (if key in grid then grid[key] else []) + [e]]
  }

  /** A PA cell, the only kind the grid holds. */
  predicate IsPa(c: Cell) {
    c.cellType == PA_TYPE
  }

  /**
   * `grid` indexes the PA cells of `cells` whose ids are in `seen`: every
   * entry is such a cell, at its position and in the bucket of that position,
   * and every such cell has an entry in its bucket.
   */
  ghost predicate Indexes<K>(grid: Grid<K>, cells: map<K, Cell>, seen: set<K>, size: real)
    requires size > 0.0
  {
    && (forall k, e :: k in grid && e in grid[k] ==>
          && e.id in cells && e.id in seen && IsPa(cells[e.id])
          && e.x == cells[e.id].pos.x && e.y == cells[e.id].pos.y
          && GridIndex(e.x, e.y, size) == k)
    && (forall id :: id in seen && id in cells && IsPa(cells[id]) ==>
          var p := cells[id].pos;
          GridIndex(p.x, p.y, size) in grid &&
          Entry(p.x, p.y, id) in grid[GridIndex(p.x, p.y, size)])
  }

  /** The empty dictionary indexes nothing. */
  lemma EmptyIndexes<K>(cells: map<K, Cell>, size: real)
    requires size > 0.0
    ensures Indexes(map[], cells, {}, size)
  {
  }

  /**
   * Visiting one more cell keeps the grid an index of the visited PA cells:
   * a PA cell is inserted in exactly the bucket of its position, any other
   * cell leaves the grid as it is.
   */
  lemma InsertIndexes<K>(grid: Grid<K>, cells: map<K, Cell>, seen: set<K>, size: real, id: K)
    requires size > 0.0 && Indexes(grid, cells, seen, size)
    requires id in cells && id !in seen
    ensures IsPa(cells[id]) ==>
      var p := cells[id].pos;
      Indexes(Insert(grid, GridIndex(p.x, p.y, size), Entry(p.x, p.y, id)), cells, seen + {id}, size)
    ensures !IsPa(cells[id]) ==> Indexes(grid, cells, seen + {id}, size)
  {
    if IsPa(cells[id]) {
      var p := cells[id].pos;
      var key := GridIndex(p.x, p.y, size);
      var e := Entry(p.x, p.y, id);
      var g2 := Insert(grid, key, e);
      forall k, e': Entry<K> | k in g2 && e' in g2[k]
        ensures e'.id in cells && e'.id in seen + {id} && IsPa(cells[e'.id])
        ensures e'.x == cells[e'.id].pos.x && e'.y == cells[e'.id].pos.y
        ensures GridIndex(e'.x, e'.y, size) == k
      {
        if k == key && e' !in (if key in grid then grid[key] else []) {
          assert e' == e;
        }
      }
    }
  }

  /** The bucket `k0 + offset`. */
  function Shift(k0: Key, offset: Key): Key {
    (k0.0 + offset.0, k0.1 + offset.1)
  }

  /** Some entry of bucket `key` lies within the radius of `(x0, y0)`. */
  ghost predicate BucketHit<K>(grid: Grid<K>, key: Key, x0: real, y0: real, r2: real) {
    key in grid && exists e :: e in grid[key] && WithinRadius(x0, y0, e.x, e.y, r2)
  }

  /** Some bucket of the 3x3 neighbourhood of `k0` holds an entry within the radius. */
  ghost predicate NeighborHit<K>(grid: Grid<K>, k0: Key, x0: real, y0: real, r2: real) {
    exists j :: 0 <= j < |NEIGHBOR_OFFSETS| && BucketHit(grid, Shift(k0, NEIGHBOR_OFFSETS[j]), x0, y0, r2)
  }

  /** The brute-force reference: some PA cell of `cells` is within the radius of `(x0, y0)`. */
  ghost predicate PaWithin<K>(cells: map<K, Cell>, x0: real, y0: real, r2: real) {
    exists id :: id in cells && IsPa(cells[id]) &&
      WithinRadius(x0, y0, cells[id].pos.x, cells[id].pos.y, r2)
  }

  /**
   * The scan over one bucket list: `for xp, yp, pa_id in cell_list: if
   * dx*dx + dy*dy <= r2: ... break`. `hit` says whether the loop broke out.
   */
  method ScanBucket<K>(bucket: seq<Entry<K>>, x0: real, y0: real, r2: real) returns (hit: bool)
    ensures hit <==> exists e :: e in bucket && WithinRadius(x0, y0, e.x, e.y, r2)
  {
    hit := false;
    var i := 0;
    while i < |bucket|
      invariant 0 <= i <= |bucket|
      invariant !hit
      invariant forall j :: 0 <= j < i ==> !WithinRadius(x0, y0, bucket[j].x, bucket[j].y, r2)
    {
      var e := bucket[i];
      if WithinRadius(x0, y0, e.x, e.y, r2) {
        hit := true;
        break;
      }
      i := i + 1;
    }
  }

  /**
   * The neighbourhood scan of `contact_kill.py` and `simulation.py`: walk the
   * nine offsets, skip missing or empty buckets, and stop at the first entry
   * within the radius. The answer is exactly `NeighborHit`.
   */
  method ScanNeighbors<K>(grid: Grid<K>, k0: Key, x0: real, y0: real, r2: real) returns (killed: bool)
    ensures killed <==> NeighborHit(grid, k0, x0, y0, r2)
  {
    killed := false;
    var i := 0;
    while i < |NEIGHBOR_OFFSETS|
      invariant 0 <= i <= |NEIGHBOR_OFFSETS|
      invariant killed ==> NeighborHit(grid, k0, x0, y0, r2)
      invariant !killed ==> forall j :: 0 <= j < i ==> !BucketHit(grid, Shift(k0, NEIGHBOR_OFFSETS[j]), x0, y0, r2)
    {
      if killed {
        break;
      }
      var key := Shift(k0, NEIGHBOR_OFFSETS[i]);
      if key in grid && |grid[key]| > 0 {
        killed := ScanBucket(grid[key], x0, y0, r2);
      }
      i := i + 1;
    }
  }

  /** A square is never negative. */
  lemma SquareNonNegative(d: real)
    ensures d * d >= 0.0
  {
    if d < 0.0 {
      assert d * d == (-d) * (-d);
    }
  }

  /**
   * Two points at most `r` apart along an axis, with `r` no larger than the
   * bucket size, fall in the same or adjacent buckets along that axis.
   */
  lemma CloseMeansAdjacent(a: real, b: real, size: real, r: real)
    requires 0.0 < r <= size
    requires (a - b) * (a - b) <= r * r
    ensures -1 <= (a / size).Floor - (b / size).Floor <= 1
  {
    AbsFromSquare(a - b, r);
    RatioDiff(a, b, size);
    RatioWithinOne(a - b, size);
  }

  /** Soundness of the scan: every hit is a PA cell of the population within the radius. */
  lemma HitIsPaWithin<K>(grid: Grid<K>, cells: map<K, Cell>, k0: Key, x0: real, y0: real, size: real, r2: real)
    requires size > 0.0 && Indexes(grid, cells, cells.Keys, size)
    requires NeighborHit(grid, k0, x0, y0, r2)
    ensures PaWithin(cells, x0, y0, r2)
  {
    var j :| 0 <= j < |NEIGHBOR_OFFSETS| && BucketHit(grid, Shift(k0, NEIGHBOR_OFFSETS[j]), x0, y0, r2);
    var key := Shift(k0, NEIGHBOR_OFFSETS[j]);
    var e :| e in grid[key] && WithinRadius(x0, y0, e.x, e.y, r2);
    assert e.id in cells && IsPa(cells[e.id]);
  }

  /**
   * A point within the radius of `(x0, y0)`, with the radius no larger than
   * the bucket size, lies in one of the nine buckets around that of `(x0, y0)`.
   */
  lemma WithinMeansNeighbor(x0: real, y0: real, xp: real, yp: real, size: real, r: real) returns (j: int)
    requires 0.0 < r <= size
    requires WithinRadius(x0, y0, xp, yp, r * r)
    ensures 0 <= j < |NEIGHBOR_OFFSETS|
    ensures Shift(GridIndex(x0, y0, size), NEIGHBOR_OFFSETS[j]) == GridIndex(xp, yp, size)
  {
    var dx, dy := x0 - xp, y0 - yp;
    SquareNonNegative(dx);
    SquareNonNegative(dy);
    assert dx * dx <= r * r && dy * dy <= r * r;
    CloseMeansAdjacent(x0, xp, size, r);
    CloseMeansAdjacent(y0, yp, size, r);
    var k0, key := GridIndex(x0, y0, size), GridIndex(xp, yp, size);
    var offset := (key.0 - k0.0, key.1 - k0.1);
    NeighborOffsetsAre3x3(offset.0, offset.1);
    j :| 0 <= j < |NEIGHBOR_OFFSETS| && NEIGHBOR_OFFSETS[j] == offset;
  }

  /**
   * Completeness of the scan: with buckets at least as large as the radius,
   * a PA cell within the radius sits in one of the nine neighbouring buckets.
   */
  lemma PaWithinIsHit<K>(grid: Grid<K>, cells: map<K, Cell>, x0: real, y0: real, size: real, r: real)
    requires 0.0 < r <= size
    requires Indexes(grid, cells, cells.Keys, size)
    requires PaWithin(cells, x0, y0, r * r)
    ensures NeighborHit(grid, GridIndex(x0, y0, size), x0, y0, r * r)
  {
    var id :| id in cells && IsPa(cells[id]) &&
      WithinRadius(x0, y0, cells[id].pos.x, cells[id].pos.y, r * r);
    var p := cells[id].pos;
    var j := WithinMeansNeighbor(x0, y0, p.x, p.y, size, r);
    var key := GridIndex(p.x, p.y, size);
    assert Entry(p.x, p.y, id) in grid[key];
    assert BucketHit(grid, Shift(GridIndex(x0, y0, size), NEIGHBOR_OFFSETS[j]), x0, y0, r * r);
  }

  /**
   * The 3x3 scan equals brute force: when `grid` indexes every PA cell of
   * `cells` and the bucket size is at least the kill radius, a PA within the
   * radius of `(x0, y0)` exists exactly when the scan around the bucket of
   * `(x0, y0)` finds one.
   */
  lemma ScanMatchesBruteForce<K>(grid: Grid<K>, cells: map<K, Cell>, x0: real, y0: real, size: real, r: real)
    requires 0.0 < r <= size
    requires Indexes(grid, cells, cells.Keys, size)
    ensures NeighborHit(grid, GridIndex(x0, y0, size), x0, y0, r * r) <==> PaWithin(cells, x0, y0, r * r)
  {
    if NeighborHit(grid, GridIndex(x0, y0, size), x0, y0, r * r) {
      HitIsPaWithin(grid, cells, GridIndex(x0, y0, size), x0, y0, size, r * r);
    }
    if PaWithin(cells, x0, y0, r * r) {
      PaWithinIsHit(grid, cells, x0, y0, size, r);
    }
  }
}
