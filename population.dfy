/**
 * The loops every `update` hook runs over the `cells` dictionary: counting the
 * cells of a kind, rewriting every cell by a rule, rewriting while collecting
 * the ids to remove, and popping the collected ids after the scan.
 *
 * The dictionary is visited in an arbitrary order (each step picks any id not
 * yet visited), so what these methods promise holds for every iteration order.
 */
module Population {
  import opened CellState

  /** Any element of a non-empty set: the next dictionary entry a loop visits. */
  method Pick<T>(s: set<T>) returns (x: T)
    requires s != {}
    ensures x in s
  {
    x :| x in s;
  }

  /** The ids of the cells that satisfy `p`. */
  function IdsWhere<K>(cells: map<K, Cell>, p: Cell -> bool): set<K> {
    set id | id in cells && p(cells[id])
  }

  /** `sum(1 for c in cells.values() if p(c))`. */
  method CountWhere<K>(cells: map<K, Cell>, p: Cell -> bool) returns (n: nat)
    ensures n == |IdsWhere(cells, p)|
  {
    n := 0;
    var todo := cells.Keys;
    ghost var counted: set<K> := {};
    while todo != {}
      invariant todo <= cells.Keys
      invariant counted == set id | id in cells && id !in todo && p(cells[id])
      invariant n == |counted|
      decreases todo
    {
      var cid := Pick(todo);
      if p(cells[cid]) {
        assert cid !in counted;
        n := n + 1;
        counted := counted + {cid};
      }
      todo := todo - {cid};
    }
    assert counted == IdsWhere(cells, p);
  }

  /** `for c in cells.values(): <rewrite c by f>` */
  method MapCells<K>(cells: map<K, Cell>, f: Cell --> Cell) returns (r: map<K, Cell>)
    requires forall id :: id in cells ==> f.requires(cells[id])
    ensures r == map id | id in cells :: f(cells[id])
  {
    r := cells;
    var todo := cells.Keys;
    while todo != {}
      invariant todo <= cells.Keys == r.Keys
      invariant forall id :: id in todo ==> r[id] == cells[id]
      invariant forall id :: id in cells && id !in todo ==> r[id] == f(cells[id])
      decreases todo
    {
      var cid := Pick(todo);
      r := r[cid := f(r[cid])];
      todo := todo - {cid};
    }
  }

  /**
   * `for cid, c in cells.items(): <rewrite c by f>; if <scheduled>:
   * cells_to_remove.append(cid)`: every cell is rewritten by the first
   * component of `f`, and `removals` lists, once each, the ids whose second
   * component is true. Nothing is removed yet.
   */
  method SweepCells<K>(cells: map<K, Cell>, f: Cell --> (Cell, bool)) returns (r: map<K, Cell>, removals: seq<K>)
    requires forall id :: id in cells ==> f.requires(cells[id])
    ensures r == map id | id in cells :: f(cells[id]).0
    ensures (set i | i in removals) == set id | id in cells && f(cells[id]).1
    ensures forall i, j :: 0 <= i < j < |removals| ==> removals[i] != removals[j]
  {
    r := cells;
    removals := [];
    var todo := cells.Keys;
    while todo != {}
      invariant todo <= cells.Keys == r.Keys
      invariant forall id :: id in todo ==> r[id] == cells[id]
      invariant forall id :: id in cells && id !in todo ==> r[id] == f(cells[id]).0
      invariant forall i :: 0 <= i < |removals| ==> removals[i] in cells && removals[i] !in todo
      invariant forall id :: id in cells && id !in todo ==> (f(cells[id]).1 <==> id in removals)
      invariant forall i, j :: 0 <= i < j < |removals| ==> removals[i] != removals[j]
      decreases todo
    {
      var cid := Pick(todo);
      var outcome := f(r[cid]);
      r := r[cid := outcome.0];
      if outcome.1 {
        removals := removals + [cid];
      }
      todo := todo - {cid};
    }
  }

  /** `for cid in ids: cells.pop(cid, None)` */
  method RemoveAll<K>(cells: map<K, Cell>, ids: seq<K>) returns (r: map<K, Cell>)
    ensures r == cells - (set i | i in ids)
  {
    r := cells;
    for k := 0 to |ids|
      invariant r == cells - (set i | i in ids[..k])
    {
      ghost var prefix := ids[..k + 1];
      assert prefix == ids[..k] + [ids[k]];
      assert (set i | i in prefix) == (set i | i in ids[..k]) + {ids[k]};
      r := r - {ids[k]};
    }
    assert ids[..|ids|] == ids;
  }

  /**
   * The population after one sweep-then-pop tick: every cell is rewritten by
   * the first component of `f`, and exactly the cells whose second component
   * is true are gone afterwards.
   */
  function Tick<K>(cells: map<K, Cell>, f: Cell --> (Cell, bool)): (r: map<K, Cell>)
    requires forall id :: id in cells ==> f.requires(cells[id])
    ensures forall id :: id in r ==> id in cells && !f(cells[id]).1
    ensures forall id :: id in cells && !f(cells[id]).1 ==> id in r
    ensures forall id :: id in r ==> r[id] == f(cells[id]).0
  {
    (map id | id in cells :: f(cells[id]).0) - (set id | id in cells && f(cells[id]).1)
  }

  /**
   * A rewritten population and a removal list that agree cell by cell with
   * `f` give, after popping the listed ids, exactly `Tick(cells, f)`.
   */
  lemma TickFromSweep<K>(cells: map<K, Cell>, f: Cell --> (Cell, bool), swept: map<K, Cell>, removals: seq<K>)
    requires forall id :: id in cells ==> f.requires(cells[id])
    requires swept.Keys == cells.Keys
    requires forall id :: id in cells ==> swept[id] == f(cells[id]).0
    requires forall id :: id in cells ==> (id in removals <==> f(cells[id]).1)
    ensures swept - (set i | i in removals) == Tick(cells, f)
  {
    var r := swept - (set i | i in removals);
    var t := Tick(cells, f);
    forall id | id in r
      ensures id in t && r[id] == t[id]
    {
    }
    forall id | id in t
      ensures id in r
    {
    }
  }

  /** Two rules that agree on every cell of the population give the same tick. */
  lemma TickAgrees<K>(cells: map<K, Cell>, f: Cell --> (Cell, bool), g: Cell --> (Cell, bool))
    requires forall id :: id in cells ==> f.requires(cells[id]) && g.requires(cells[id])
    requires forall id :: id in cells ==> f(cells[id]) == g(cells[id])
    ensures Tick(cells, f) == Tick(cells, g)
  {
    var a, b := Tick(cells, f), Tick(cells, g);
    forall id | id in a
      ensures id in b && a[id] == b[id]
    {
    }
    forall id | id in b
      ensures id in a
    {
    }
  }

  /**
   * The shape of every `update` that removes cells: the scan fills
   * `cells_to_remove`, and only after the scan are those ids popped.
   */
  method SweepThenRemove<K>(cells: map<K, Cell>, f: Cell --> (Cell, bool)) returns (r: map<K, Cell>)
    requires forall id :: id in cells ==> f.requires(cells[id])
    ensures r == Tick(cells, f)
  {
    var swept, removals := SweepCells(cells, f);
    r := RemoveAll(swept, removals);
  }
}
