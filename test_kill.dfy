/**
 * `test.py`: contact killing by brute force. `update` first lists every PA
 * with its position and every SA id, then kills each SA that has a listed PA
 * within the kill radius, then grows every listed PA. No crowding, no dead
 * counter and no removal.
 */
module TestKill {
  import opened CellState
  import opened Population
  import opened SpatialHash

  const SA_MU: real := 1.2
  const PA_MU: real := 0.6
  const DIV_LENGTH_MEAN_PA: real := 3.5
  const DIV_LENGTH_MEAN_SA: real := 1.0
  const SA_JITTER: real := 0.15
  const PA_JITTER: real := 0.5

  const COL_SA: Color := Color(1.0, 0.0, 0.0)
  const COL_PA: Color := Color(0.0, 0.0, 1.0)

  const KILL_RADIUS: real := 2.0
  const KILL_RADIUS_SQ: real := KILL_RADIUS * KILL_RADIUS

  /** One `(cid, c.pos)` entry of `pa_list`. */
  datatype Located<K> = Located(id: K, pos: Vec3)

  /** The kill assignment: dead, not growing, grey, not dividing; the counter is not touched. */
  function Struck(c: Cell): Cell {
    c.(cellType := DEAD_TYPE, growthRate := 0.0, color := COL_DEAD, divideFlag := false)
  }

  /** Dead cells are forced to stay still; their colour is left as it is. */
  function Rest(c: Cell): Cell {
    if c.cellType == DEAD_TYPE then c.(growthRate := 0.0, divideFlag := false) else c
  }

  function GrowSa(c: Cell): Cell {
    c.(growthRate := SA_MU, divideFlag := Oversized(c))
  }

  function GrowPa(c: Cell): Cell {
    c.(growthRate := PA_MU, divideFlag := Oversized(c))
  }

  /** The rule of one tick for one cell, given whether a PA is within the kill radius of it. */
  function Step(hit: bool, c: Cell): Cell {
    if c.cellType == SA_TYPE then (if hit then Struck(c) else GrowSa(c))
    else if c.cellType == PA_TYPE then GrowPa(c)
    else Rest(c)
  }

  /** The population after one call of `update`. */
  ghost function Updated<K>(cells: map<K, Cell>): map<K, Cell> {
    map id | id in cells :: Step(PaWithin(cells, cells[id].pos.x, cells[id].pos.y, KILL_RADIUS_SQ), cells[id])
  }

  /**
   * The first pass: every PA is listed once with its position, every SA id
   * once, and dead cells are rewritten by `Rest`; nothing else changes.
   */
  method CollectPass<K>(cells: map<K, Cell>) returns (r: map<K, Cell>, paList: seq<Located<K>>, saList: seq<K>)
    ensures r.Keys == cells.Keys
    ensures forall id :: id in cells ==> r[id] == Rest(cells[id])
    ensures forall i :: 0 <= i < |paList| ==>
      paList[i].id in cells && cells[paList[i].id].cellType == PA_TYPE && paList[i].pos == cells[paList[i].id].pos
    ensures forall id :: id in cells && cells[id].cellType == PA_TYPE ==> Located(id, cells[id].pos) in paList
    ensures forall i :: 0 <= i < |saList| ==> saList[i] in cells && cells[saList[i]].cellType == SA_TYPE
    ensures forall id :: id in cells && cells[id].cellType == SA_TYPE ==> id in saList
    ensures forall i, j :: 0 <= i < j < |saList| ==> saList[i] != saList[j]
  {
    r, paList, saList := cells, [], [];
    var todo := cells.Keys;
    while todo != {}
      invariant todo <= cells.Keys == r.Keys
      invariant forall id :: id in cells ==> r[id] == (if id in todo then cells[id] else Rest(cells[id]))
      invariant forall i :: 0 <= i < |paList| ==>
        paList[i].id in cells && paList[i].id !in todo &&
        cells[paList[i].id].cellType == PA_TYPE && paList[i].pos == cells[paList[i].id].pos
      invariant forall id :: id in cells && id !in todo && cells[id].cellType == PA_TYPE ==>
        Located(id, cells[id].pos) in paList
      invariant forall i :: 0 <= i < |saList| ==>
        saList[i] in cells && saList[i] !in todo && cells[saList[i]].cellType == SA_TYPE
      invariant forall id :: id in cells && id !in todo && cells[id].cellType == SA_TYPE ==> id in saList
      invariant forall i, j :: 0 <= i < j < |saList| ==> saList[i] != saList[j]
      decreases todo
    {
      var cid := Pick(todo);
      var c := r[cid];
      if c.cellType == PA_TYPE {
        paList := paList + [Located(cid, c.pos)];
      } else if c.cellType == SA_TYPE {
        saList := saList + [cid];
      } else if c.cellType == DEAD_TYPE {
        r := r[cid := c.(growthRate := 0.0, divideFlag := false)];
      }
      todo := todo - {cid};
    }
  }

  /** `for _, (xp, yp, zp) in pa_list: ... break`: a listed PA within the radius exists. */
  method ScanList<K>(paList: seq<Located<K>>, x0: real, y0: real) returns (killed: bool)
    ensures killed <==> exists i :: 0 <= i < |paList| && WithinRadius(x0, y0, paList[i].pos.x, paList[i].pos.y, KILL_RADIUS_SQ)
  {
    killed := false;
    var i := 0;
    while i < |paList|
      invariant 0 <= i <= |paList| && !killed
      invariant forall j :: 0 <= j < i ==> !WithinRadius(x0, y0, paList[j].pos.x, paList[j].pos.y, KILL_RADIUS_SQ)
    {
      if WithinRadius(x0, y0, paList[i].pos.x, paList[i].pos.y, KILL_RADIUS_SQ) {
        killed := true;
        break;
      }
      i := i + 1;
    }
  }

  /**
   * A `pa_list` that lists exactly the PA cells with their positions answers
   * the brute-force question: some listed PA is within the radius iff some
   * PA of the population is.
   */
  lemma ListMatchesBruteForce<K>(cells: map<K, Cell>, paList: seq<Located<K>>, x0: real, y0: real)
    requires forall i :: 0 <= i < |paList| ==>
      paList[i].id in cells && cells[paList[i].id].cellType == PA_TYPE && paList[i].pos == cells[paList[i].id].pos
    requires forall id :: id in cells && cells[id].cellType == PA_TYPE ==> Located(id, cells[id].pos) in paList
    ensures (exists i :: 0 <= i < |paList| && WithinRadius(x0, y0, paList[i].pos.x, paList[i].pos.y, KILL_RADIUS_SQ))
            <==> PaWithin(cells, x0, y0, KILL_RADIUS_SQ)
  {
    if PaWithin(cells, x0, y0, KILL_RADIUS_SQ) {
      var id :| id in cells && IsPa(cells[id]) &&
        WithinRadius(x0, y0, cells[id].pos.x, cells[id].pos.y, KILL_RADIUS_SQ);
      var i :| 0 <= i < |paList| && paList[i] == Located(id, cells[id].pos);
    }
    if exists i :: 0 <= i < |paList| && WithinRadius(x0, y0, paList[i].pos.x, paList[i].pos.y, KILL_RADIUS_SQ) {
      var i :| 0 <= i < |paList| && WithinRadius(x0, y0, paList[i].pos.x, paList[i].pos.y, KILL_RADIUS_SQ);
      assert IsPa(cells[paList[i].id]);
    }
  }

  /** Some entry of `pa_list` lies within the kill radius of `(x0, y0)`. */
  ghost predicate ListHit<K>(paList: seq<Located<K>>, x0: real, y0: real) {
    exists i :: 0 <= i < |paList| && WithinRadius(x0, y0, paList[i].pos.x, paList[i].pos.y, KILL_RADIUS_SQ)
  }

  /**
   * The SA pass: `for cid in sa_list`, strike the SA when a listed PA is
   * within the radius, otherwise grow it. Unlisted cells are left alone.
   */
  method KillSa<K>(r0: map<K, Cell>, paList: seq<Located<K>>, saList: seq<K>) returns (r: map<K, Cell>)
    requires forall i :: 0 <= i < |saList| ==> saList[i] in r0
    requires forall i, j :: 0 <= i < j < |saList| ==> saList[i] != saList[j]
    ensures r.Keys == r0.Keys
    ensures forall id :: id in r0 && id !in saList ==> r[id] == r0[id]
    ensures forall i :: 0 <= i < |saList| ==>
      var c := r0[saList[i]];
      r[saList[i]] == if ListHit(paList, c.pos.x, c.pos.y) then Struck(c) else GrowSa(c)
  {
    r := r0;
    for k := 0 to |saList|
      invariant r.Keys == r0.Keys
      invariant forall id :: id in r0 && id !in saList[..k] ==> r[id] == r0[id]
      invariant forall i :: 0 <= i < k ==>
        var c := r0[saList[i]];
        r[saList[i]] == if ListHit(paList, c.pos.x, c.pos.y) then Struck(c) else GrowSa(c)
    {
      var cid := saList[k];
      assert cid !in saList[..k];
      var c := r[cid];
      var killed := ScanList(paList, c.pos.x, c.pos.y);
      r := r[cid := if killed then Struck(c) else GrowSa(c)];
      assert saList[..k + 1] == saList[..k] + [cid];
    }
    assert saList[..|saList|] == saList;
  }

  /** The PA pass: `for cid, _ in pa_list`, grow the listed cell. */
  method GrowListedPa<K>(r0: map<K, Cell>, paList: seq<Located<K>>) returns (r: map<K, Cell>)
    requires forall i :: 0 <= i < |paList| ==> paList[i].id in r0
    ensures r.Keys == r0.Keys
    ensures forall i :: 0 <= i < |paList| ==> r[paList[i].id] == GrowPa(r0[paList[i].id])
    ensures forall id :: id in r0 && (forall i :: 0 <= i < |paList| ==> paList[i].id != id) ==> r[id] == r0[id]
  {
    r := r0;
    for k := 0 to |paList|
      invariant r.Keys == r0.Keys
      invariant forall i :: 0 <= i < k ==> r[paList[i].id] == GrowPa(r0[paList[i].id])
      invariant forall id :: id in r0 && (forall i :: 0 <= i < k ==> paList[i].id != id) ==> r[id] == r0[id]
    {
      var cid := paList[k].id;
      r := r[cid := GrowPa(r[cid])];
    }
  }

  /**
   * `update(cells)`: the collecting pass, the SA pass against `pa_list`, then
   * the PA pass over `pa_list`. The result is the reference, where the kill
   * test is taken over every PA of the pre-tick population.
   */
  method Update<K>(cells: map<K, Cell>) returns (r: map<K, Cell>)
    ensures r == Updated(cells)
  {
    var rested, paList, saList := CollectPass(cells);
    var struck := KillSa(rested, paList, saList);
    r := GrowListedPa(struck, paList);
    forall id | id in cells
      ensures r[id] == Updated(cells)[id]
    {
      var c := cells[id];
      if c.cellType == SA_TYPE {
        var i :| 0 <= i < |saList| && saList[i] == id;
        ListMatchesBruteForce(cells, paList, c.pos.x, c.pos.y);
        assert forall j :: 0 <= j < |paList| ==> paList[j].id != id;
      } else if c.cellType == PA_TYPE {
        assert id !in saList;
        var i :| 0 <= i < |paList| && paList[i] == Located(id, c.pos);
      } else {
        assert id !in saList;
        assert forall j :: 0 <= j < |paList| ==> paList[j].id != id;
      }
    }
  }

  /** No cell is ever removed or added. */
  lemma UpdatedKeepsIds<K>(cells: map<K, Cell>)
    ensures Updated(cells).Keys == cells.Keys
  {
  }

  /**
   * An SA dies exactly when some PA of the pre-tick population is within the
   * kill radius, and then takes the kill assignment; a surviving SA grows at
   * `SA_MU`. A PA stays PA and grows at `PA_MU`; a dead cell stays dead with
   * growth 0 and no division. Only an SA changes type, and only to dead.
   */
  lemma UpdatedFates<K>(cells: map<K, Cell>)
    ensures forall id :: id in cells ==>
      var r := Updated(cells);
      var c := cells[id];
      && SameEngineFields(r[id], c) && r[id].deadCounter == c.deadCounter
      && (c.cellType == SA_TYPE ==>
            (r[id].cellType == DEAD_TYPE <==> PaWithin(cells, c.pos.x, c.pos.y, KILL_RADIUS_SQ)) &&
            (r[id].cellType == DEAD_TYPE ==> r[id] == Struck(c)) &&
            (r[id].cellType != DEAD_TYPE ==> r[id].growthRate == SA_MU && r[id].divideFlag == Oversized(c)))
      && (c.cellType == PA_TYPE ==> r[id].cellType == PA_TYPE && r[id].growthRate == PA_MU && r[id].divideFlag == Oversized(c))
      && (c.cellType == DEAD_TYPE ==> r[id].cellType == DEAD_TYPE && r[id].growthRate == 0.0 && !r[id].divideFlag)
      && (r[id].cellType != c.cellType ==> c.cellType == SA_TYPE && r[id].cellType == DEAD_TYPE)
  {
  }

  /**
   * `init(cell)`: SA and PA get their rate, colour and a target volume in
   * their range; any other cell stops growing and turns grey. Only the
   * division flag is cleared.
   */
  function Init(c: Cell, u: real): (r: Cell)
    requires c.cellType == SA_TYPE ==> 0.0 <= u <= SA_JITTER
    requires c.cellType == PA_TYPE ==> 0.0 <= u <= PA_JITTER
    ensures r.cellType == c.cellType && SameGeometry(r, c)
    ensures !r.divideFlag && r.deadCounter == c.deadCounter
    ensures c.cellType == SA_TYPE ==>
      r.growthRate == SA_MU && r.color == COL_SA &&
      DIV_LENGTH_MEAN_SA <= r.targetVol <= DIV_LENGTH_MEAN_SA + SA_JITTER
    ensures c.cellType == PA_TYPE ==>
      r.growthRate == PA_MU && r.color == COL_PA &&
      DIV_LENGTH_MEAN_PA <= r.targetVol <= DIV_LENGTH_MEAN_PA + PA_JITTER
    ensures c.cellType != SA_TYPE && c.cellType != PA_TYPE ==>
      r.growthRate == 0.0 && r.color == COL_DEAD && r.targetVol == c.targetVol
  {
    var set1 :=
      if c.cellType == SA_TYPE then c.(growthRate := SA_MU, color := COL_SA, targetVol := DIV_LENGTH_MEAN_SA + u)
      else if c.cellType == PA_TYPE then c.(growthRate := PA_MU, color := COL_PA, targetVol := DIV_LENGTH_MEAN_PA + u)
      else c.(growthRate := 0.0, color := COL_DEAD);
    set1.(divideFlag := false)
  }

  /** What `divide` writes into one daughter of a parent of type `t`. */
  function Daughter(t: int, d: Cell, u: real): Cell {
    var typed := d.(cellType := t);
    var set1 :=
      if t == SA_TYPE then typed.(color := COL_SA, growthRate := SA_MU, targetVol := DIV_LENGTH_MEAN_SA + u)
      else if t == PA_TYPE then typed.(color := COL_PA, growthRate := PA_MU, targetVol := DIV_LENGTH_MEAN_PA + u)
      else typed;
    set1.(divideFlag := false)
  }

  /**
   * `divide(parent, d1, d2)`: both daughters inherit the parent's type; SA
   * and PA daughters get their colour, rate and an independently drawn
   * target volume in their range; the division flag is cleared on both.
   */
  function Divide(parent: Cell, d1: Cell, d2: Cell, u1: real, u2: real): (r: (Cell, Cell))
    requires parent.cellType == SA_TYPE ==> 0.0 <= u1 <= SA_JITTER && 0.0 <= u2 <= SA_JITTER
    requires parent.cellType == PA_TYPE ==> 0.0 <= u1 <= PA_JITTER && 0.0 <= u2 <= PA_JITTER
    ensures r.0.cellType == parent.cellType && r.1.cellType == parent.cellType
    ensures SameGeometry(r.0, d1) && SameGeometry(r.1, d2)
    ensures !r.0.divideFlag && !r.1.divideFlag
    ensures r.0.deadCounter == d1.deadCounter && r.1.deadCounter == d2.deadCounter
    ensures parent.cellType == SA_TYPE ==>
      && r.0.growthRate == SA_MU && r.1.growthRate == SA_MU && r.0.color == COL_SA && r.1.color == COL_SA
      && DIV_LENGTH_MEAN_SA <= r.0.targetVol <= DIV_LENGTH_MEAN_SA + SA_JITTER
      && DIV_LENGTH_MEAN_SA <= r.1.targetVol <= DIV_LENGTH_MEAN_SA + SA_JITTER
    ensures parent.cellType == PA_TYPE ==>
      && r.0.growthRate == PA_MU && r.1.growthRate == PA_MU && r.0.color == COL_PA && r.1.color == COL_PA
      && DIV_LENGTH_MEAN_PA <= r.0.targetVol <= DIV_LENGTH_MEAN_PA + PA_JITTER
      && DIV_LENGTH_MEAN_PA <= r.1.targetVol <= DIV_LENGTH_MEAN_PA + PA_JITTER
    ensures parent.cellType != SA_TYPE && parent.cellType != PA_TYPE ==>
      r.0 == d1.(cellType := parent.cellType, divideFlag := false) &&
      r.1 == d2.(cellType := parent.cellType, divideFlag := false)
  {
    (Daughter(parent.cellType, d1, u1), Daughter(parent.cellType, d2, u2))
  }

  /** An SA or PA daughter is exactly what `init` makes of a new cell of the parent's type. */
  lemma DivideMatchesInit(parent: Cell, d1: Cell, d2: Cell, u1: real, u2: real)
    requires parent.cellType == SA_TYPE || parent.cellType == PA_TYPE
    requires parent.cellType == SA_TYPE ==> 0.0 <= u1 <= SA_JITTER && 0.0 <= u2 <= SA_JITTER
    requires parent.cellType == PA_TYPE ==> 0.0 <= u1 <= PA_JITTER && 0.0 <= u2 <= PA_JITTER
    ensures Divide(parent, d1, d2, u1, u2).0 == Init(d1.(cellType := parent.cellType), u1)
    ensures Divide(parent, d1, d2, u1, u2).1 == Init(d2.(cellType := parent.cellType), u2)
  {
  }
}
