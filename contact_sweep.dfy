/**
 * The two-pass `update` of the contact-killing scripts (`contact_kill.py`,
 * `simulation.py`, and the first pass of `test_v2.py`): a classification pass
 * that rewrites every non-SA cell, indexes every PA cell in `pa_grid` and
 * lists the SA ids, then a pass over the SA ids that decides each SA's fate
 * with the 3x3 neighbourhood scan.
 */
module ContactSweep {
  import opened CellState
  import opened Lifecycle
  import opened Population
  import opened SpatialHash

  /**
   * The state of the first pass after it has visited the ids in `seen`: the
   * visited PA are indexed, the visited SA are listed once each and rewritten
   * by `saFirst`, the other visited cells are rewritten by `other` and listed
   * for removal when it says so, and the unvisited cells are untouched.
   */
  ghost predicate Classified<K>(cells: map<K, Cell>, size: real, saFirst: Cell --> Cell, other: Cell --> (Cell, bool),
                                seen: set<K>, r: map<K, Cell>, grid: Grid<K>, saIds: seq<K>, removals: seq<K>)
    requires size > 0.0
    requires forall id :: id in cells && cells[id].cellType == SA_TYPE ==> saFirst.requires(cells[id])
    requires forall id :: id in cells && cells[id].cellType != SA_TYPE ==> other.requires(cells[id])
  {
    && seen <= cells.Keys && r.Keys == cells.Keys
    && Indexes(grid, cells, seen, size)
    && (forall id :: id in cells && id !in seen ==> r[id] == cells[id])
    && (forall id :: id in seen && cells[id].cellType == SA_TYPE ==> r[id] == saFirst(cells[id]))
    && (forall id :: id in seen && cells[id].cellType != SA_TYPE ==> r[id] == other(cells[id]).0)
    && (forall i :: 0 <= i < |saIds| ==> saIds[i] in seen && cells[saIds[i]].cellType == SA_TYPE)
    && (forall id :: id in seen && cells[id].cellType == SA_TYPE ==> id in saIds)
    && (forall i, j :: 0 <= i < j < |saIds| ==> saIds[i] != saIds[j])
    && (forall i :: 0 <= i < |removals| ==> removals[i] in seen)
    && (forall id :: id in seen ==> (id in removals <==> cells[id].cellType != SA_TYPE && other(cells[id]).1))
  }

  /** One iteration of the first pass, on the cell `cid` not yet visited. */
  method ClassifyOne<K>(cells: map<K, Cell>, size: real, saFirst: Cell --> Cell, other: Cell --> (Cell, bool),
                        ghost seen: set<K>, cid: K, r0: map<K, Cell>, grid0: Grid<K>, saIds0: seq<K>, removals0: seq<K>)
    returns (r: map<K, Cell>, grid: Grid<K>, saIds: seq<K>, removals: seq<K>)
    requires size > 0.0
    requires forall id :: id in cells && cells[id].cellType == SA_TYPE ==> saFirst.requires(cells[id])
    requires forall id :: id in cells && cells[id].cellType != SA_TYPE ==> other.requires(cells[id])
    requires cid in cells && cid !in seen
    requires Classified(cells, size, saFirst, other, seen, r0, grid0, saIds0, removals0)
    ensures Classified(cells, size, saFirst, other, seen + {cid}, r, grid, saIds, removals)
  {
    r, grid, saIds, removals := r0, grid0, saIds0, removals0;
    var c := r[cid];
    InsertIndexes(grid, cells, seen, size, cid);
    if c.cellType == PA_TYPE {
      var key := GridIndex(c.pos.x, c.pos.y, size);
      grid := Insert(grid, key, Entry(c.pos.x, c.pos.y, cid));
    }
    if c.cellType == SA_TYPE {
      saIds := saIds + [cid];
      r := r[cid := saFirst(c)];
    } else {
      var outcome := other(c);
      r := r[cid := outcome.0];
      if outcome.1 {
        removals := removals + [cid];
      }
    }
  }

  /**
   * The first pass: `for cid, c in cells.items()`, a PA cell is appended to
   * its bucket, an SA id is appended to `sa_ids` and the SA rewritten by
   * `saFirst`, every other cell is rewritten by `other`, whose second
   * component schedules it for removal. A PA is rewritten by `other` as well.
   */
  method ClassifyPass<K>(cells: map<K, Cell>, size: real, saFirst: Cell --> Cell, other: Cell --> (Cell, bool))
    returns (r: map<K, Cell>, grid: Grid<K>, saIds: seq<K>, removals: seq<K>)
    requires size > 0.0
    requires forall id :: id in cells && cells[id].cellType == SA_TYPE ==> saFirst.requires(cells[id])
    requires forall id :: id in cells && cells[id].cellType != SA_TYPE ==> other.requires(cells[id])
    ensures Indexes(grid, cells, cells.Keys, size)
    ensures r.Keys == cells.Keys
    ensures forall id :: id in cells && cells[id].cellType == SA_TYPE ==> r[id] == saFirst(cells[id])
    ensures forall id :: id in cells && cells[id].cellType != SA_TYPE ==> r[id] == other(cells[id]).0
    ensures forall i :: 0 <= i < |saIds| ==> saIds[i] in cells && cells[saIds[i]].cellType == SA_TYPE
    ensures forall id :: id in cells && cells[id].cellType == SA_TYPE ==> id in saIds
    ensures forall i, j :: 0 <= i < j < |saIds| ==> saIds[i] != saIds[j]
    ensures forall id :: id in cells ==>
      (id in removals <==> cells[id].cellType != SA_TYPE && other(cells[id]).1)
  {
    r, grid, saIds, removals := cells, map[], [], [];
    var todo := cells.Keys;
    ghost var seen: set<K> := {};
    EmptyIndexes(cells, size);
    while todo != {}
      invariant todo <= cells.Keys
      invariant seen == cells.Keys - todo
      invariant Classified(cells, size, saFirst, other, seen, r, grid, saIds, removals)
      decreases todo
    {
      var cid := Pick(todo);
      r, grid, saIds, removals := ClassifyOne(cells, size, saFirst, other, seen, cid, r, grid, saIds, removals);
      todo := todo - {cid};
      seen := seen + {cid};
    }
    assert seen == cells.Keys;
  }

  /**
   * What the second pass decides for one SA `c` (already rewritten by the
   * first pass): killed when `preKilled` says so, or when contact killing is
   * on and the 3x3 scan finds a PA within the radius; otherwise grown.
   */
  ghost function SaFate<K>(grid: Grid<K>, size: real, r2: real, scan: bool,
                        preKilled: Cell --> bool, grow: Cell --> Cell, c: Cell): Cell
    requires size > 0.0 && preKilled.requires(c) && grow.requires(c)
  {
    if preKilled(c) || (scan && NeighborHit(grid, GridIndex(c.pos.x, c.pos.y, size), c.pos.x, c.pos.y, r2))
    then Killed(c)
    else grow(c)
  }

  /**
   * The second pass: `for cid in sa_ids`, an SA that `preKilled` marks dies
   * without a scan; otherwise, with contact killing on, the neighbourhood
   * scan runs and a hit kills it; an SA that is still alive is grown. Cells
   * that are not listed are left as they are.
   */
  method SaPass<K>(r0: map<K, Cell>, grid: Grid<K>, saIds: seq<K>, size: real, r2: real,
                   scan: bool, preKilled: Cell --> bool, grow: Cell --> Cell) returns (r: map<K, Cell>)
    requires size > 0.0
    requires forall i :: 0 <= i < |saIds| ==> saIds[i] in r0
    requires forall i, j :: 0 <= i < j < |saIds| ==> saIds[i] != saIds[j]
    requires forall i :: 0 <= i < |saIds| ==> preKilled.requires(r0[saIds[i]]) && grow.requires(r0[saIds[i]])
    ensures r.Keys == r0.Keys
    ensures forall id :: id in r0 && id !in saIds ==> r[id] == r0[id]
    ensures forall i :: 0 <= i < |saIds| ==>
      r[saIds[i]] == SaFate(grid, size, r2, scan, preKilled, grow, r0[saIds[i]])
  {
    r := r0;
    for k := 0 to |saIds|
      invariant r.Keys == r0.Keys
      invariant forall id :: id in r0 && id !in saIds[..k] ==> r[id] == r0[id]
      invariant forall i :: 0 <= i < k ==>
        r[saIds[i]] == SaFate(grid, size, r2, scan, preKilled, grow, r0[saIds[i]])
    {
      var cid := saIds[k];
      assert cid !in saIds[..k];
      var c := r[cid];
      var x0, y0 := c.pos.x, c.pos.y;
      var killed := false;
      if preKilled(c) {
        c := Killed(c);
        killed := true;
      }
      if scan && !killed {
        var hit := ScanNeighbors(grid, GridIndex(x0, y0, size), x0, y0, r2);
        if hit {
          c := Killed(c);
          killed := true;
        }
      }
      if !killed {
        c := grow(c);
      }
      r := r[cid := c];
      assert saIds[..k + 1] == saIds[..k] + [cid];
    }
    assert saIds[..|saIds|] == saIds;
  }
}
