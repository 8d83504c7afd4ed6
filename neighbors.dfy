/** The neighbour relation the solver receives: the row and column neighbours, to which the
    constructor adds, for every cage, each member's fellow members (kenken.py lines 72-77).
    After the merge a neighbour list is turned into a set, so it is modelled as a set. */
module NeighborGraph {
  import opened Lists
  import opened Grid
  import opened Cages

  function ToSets(m: map<Cell, seq<Cell>>): (r: map<Cell, set<Cell>>)
    ensures r.Keys == m.Keys
  {
    map v | v in m :: Elems(m[v])
  }

  /** The row and column neighbours of every cell, as sets. */
  function LatinSets(n: int): (r: map<Cell, set<Cell>>)
    ensures r.Keys == CellSet(n)
  {
    map v | v in CellSet(n) :: Elems(LatinList(v, n))
  }

  /** One cage merged in: each member v gains `c.remove(v)`. */
  function AddCage(nbrs: map<Cell, set<Cell>>, cells: seq<Cell>): (r: map<Cell, set<Cell>>)
    requires forall x :: x in cells ==> x in nbrs
    ensures r.Keys == nbrs.Keys
  {
    map v | v in nbrs :: if v in cells then nbrs[v] + Elems(Remove(cells, v)) else nbrs[v]
  }

  /** All cages merged in, in order. */
  function MergeCages(nbrs: map<Cell, set<Cell>>, cages: seq<Cage>): (r: map<Cell, set<Cell>>)
    requires forall i, x :: 0 <= i < |cages| && x in cages[i].cells ==> x in nbrs
    ensures r.Keys == nbrs.Keys
  {
    if cages == [] then nbrs
    else AddCage(MergeCages(nbrs, cages[..|cages| - 1]), cages[|cages| - 1].cells)
  }

  /** The final neighbour relation of an n-by-n puzzle with the given cages. */
  function Neighbors(n: int, cages: seq<Cage>): (r: map<Cell, set<Cell>>)
    requires CagesInGrid(cages, n)
    ensures r.Keys == CellSet(n)
  {
    MergeCages(LatinSets(n), cages)
  }

  /** The constructor's loop over one cage's members (`neighbors[varij] += l`, then the set). */
  method MergeCage(nbrs: map<Cell, set<Cell>>, cells: seq<Cell>) returns (r: map<Cell, set<Cell>>)
    requires forall x :: x in cells ==> x in nbrs
    ensures r == AddCage(nbrs, cells)
  {
    r := nbrs;
    for k := 0 to |cells|
      invariant r.Keys == nbrs.Keys
      invariant forall v :: v in r ==> r[v] == if v in cells[..k] then nbrs[v] + Elems(Remove(cells, v)) else nbrs[v]
    {
      var v0 := cells[k];
      var l := Remove(cells, v0);
      ghost var before := r;
      r := r[v0 := r[v0] + Elems(l)];
      assert cells[..k + 1] == cells[..k] + [v0];
      forall v | v in r
        ensures r[v] == if v in cells[..k + 1] then nbrs[v] + Elems(Remove(cells, v)) else nbrs[v]
      {
        if v == v0 {
          assert v0 in cells[..k] ==> before[v0] == nbrs[v0] + Elems(l);
        }
      }
    }
    assert cells[..|cells|] == cells;
  }

  /** w is what `remove` leaves of some cage holding v. */
  predicate CageMate(cages: seq<Cage>, v: Cell, w: Cell)
  {
    exists i :: 0 <= i < |cages| && v in cages[i].cells && w in Remove(cages[i].cells, v)
  }

  lemma CageMateSplit(cages: seq<Cage>, v: Cell, w: Cell)
    requires cages != []
    ensures var last := cages[|cages| - 1];
      CageMate(cages, v, w) <==> CageMate(cages[..|cages| - 1], v, w) || (v in last.cells && w in Remove(last.cells, v))
  {
    var front := cages[..|cages| - 1];
    assert forall i :: 0 <= i < |front| ==> front[i] == cages[i];
    if CageMate(cages, v, w) {
      var i :| 0 <= i < |cages| && v in cages[i].cells && w in Remove(cages[i].cells, v);
      if i < |front| {
        assert CageMate(front, v, w);
      }
    }
  }

  /** After merging, w is a neighbour of v exactly when it was one before, or v is in some
      cage and w is in what `remove` leaves of that cage. */
  lemma {:induction false} MergeCagesMembers(nbrs: map<Cell, set<Cell>>, cages: seq<Cage>, v: Cell, w: Cell)
    requires forall i, x :: 0 <= i < |cages| && x in cages[i].cells ==> x in nbrs
    requires v in nbrs
    ensures w in MergeCages(nbrs, cages)[v] <==> w in nbrs[v] || CageMate(cages, v, w)
  {
    if cages != [] {
      var front := cages[..|cages| - 1];
      assert forall i :: 0 <= i < |front| ==> front[i] == cages[i];
      MergeCagesMembers(nbrs, front, v, w);
      CageMateSplit(cages, v, w);
    }
  }

  predicate SharesCage(cages: seq<Cage>, v: Cell, w: Cell)
  {
    exists i :: 0 <= i < |cages| && v in cages[i].cells && w in cages[i].cells
  }

  /** The neighbours of a cell are exactly the other cells of its row, of its column and of
      every cage it is in, provided no cage names a cell twice. */
  lemma NeighborRelation(n: int, cages: seq<Cage>, v: Cell, w: Cell)
    requires CagesInGrid(cages, n)
    requires forall i :: 0 <= i < |cages| ==> NoDup(cages[i].cells)
    requires InGrid(v, n)
    ensures v in Neighbors(n, cages)
    ensures w in Neighbors(n, cages)[v] <==> InGrid(w, n) && w != v && (SameRowOrColumn(v, w) || SharesCage(cages, v, w))
  {
    var base := LatinSets(n);
    MergeCagesMembers(base, cages, v, w);
    LatinListShape(v, n);
    assert w in base[v] <==> InGrid(w, n) && w != v && SameRowOrColumn(v, w);
    if SharesCage(cages, v, w) && w != v {
      var i :| 0 <= i < |cages| && v in cages[i].cells && w in cages[i].cells;
      assert w in Remove(cages[i].cells, v);
    }
  }

  /** No cell is its own neighbour. */
  lemma NoSelfNeighbor(n: int, cages: seq<Cage>)
    requires CagesInGrid(cages, n)
    requires forall i :: 0 <= i < |cages| ==> NoDup(cages[i].cells)
    ensures forall v :: v in Neighbors(n, cages) ==> v !in Neighbors(n, cages)[v]
  {
    forall v | v in Neighbors(n, cages)
      ensures v !in Neighbors(n, cages)[v]
    {
      NeighborRelation(n, cages, v, v);
    }
  }

  /** The relation handed to the solver is symmetric: whenever w is a neighbour of v, v is a
      neighbour of w. This holds even when a cage names a cell twice. */
  lemma NeighborsSymmetric(n: int, cages: seq<Cage>, v: Cell, w: Cell)
    requires CagesInGrid(cages, n)
    requires v in Neighbors(n, cages) && w in Neighbors(n, cages)[v]
    ensures w in Neighbors(n, cages) && v in Neighbors(n, cages)[w]
  {
    var base := LatinSets(n);
    MergeCagesMembers(base, cages, v, w);
    LatinListShape(v, n);
    if w in base[v] {
      LatinListShape(w, n);
      assert v in base[w];
    } else {
      var i :| 0 <= i < |cages| && v in cages[i].cells && w in Remove(cages[i].cells, v);
      assert w in base;
      if v != w {
        assert v in Remove(cages[i].cells, w);
        assert CageMate(cages, w, v);
      }
    }
    MergeCagesMembers(base, cages, w, v);
  }

  /** Any two distinct members of a cage are neighbours, whether or not they share a line,
      and even when a cage names a cell twice. */
  lemma CageMatesAreNeighbors(n: int, cages: seq<Cage>)
    requires CagesInGrid(cages, n)
    ensures forall i, v, w :: 0 <= i < |cages| && v in cages[i].cells && w in cages[i].cells && v != w
                       ==> w in Neighbors(n, cages)[v]
  {
    forall i, v, w | 0 <= i < |cages| && v in cages[i].cells && w in cages[i].cells && v != w
      ensures w in Neighbors(n, cages)[v]
    {
      assert w in Remove(cages[i].cells, v);
      assert CageMate(cages, v, w);
      MergeCagesMembers(LatinSets(n), cages, v, w);
    }
  }
}
