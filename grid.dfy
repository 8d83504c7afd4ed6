/** The grid topology of an n-by-n KenKen: the row-major numbering of cells used by cage
    descriptors (`make_grid_map`), the variables, their domains and the Latin-square
    (row and column) neighbour lists built by the constructor before cages are read. */
module Grid {
  import opened Lists

  /** One cell, by row and column; the program names it "X" + str(row) + str(col). */
  datatype Cell = Cell(row: nat, col: nat)

  predicate InGrid(v: Cell, n: int)
  {
    v.row < n && v.col < n
  }

  predicate SameRowOrColumn(v: Cell, w: Cell)
  {
    v.row == w.row || v.col == w.col
  }

  /** The number of cells; `range(0, n)` is empty when n <= 0, so there are none then. */
  function CellCount(n: int): nat
  {
    if n > 0 then n * n else 0
  }

  function CellSet(n: int): (s: set<Cell>)
    ensures forall v :: v in s <==> InGrid(v, n)
  {
    var s := set r: nat, c: nat | r < n && c < n :: Cell(r, c);
    assert forall v | InGrid(v, n) :: v == Cell(v.row, v.col);
    s
  }

  /** The cell numbered k in row-major order. */
  function CellAt(k: nat, n: int): Cell
    requires k < CellCount(n)
  {
    Cell(k / n, k % n)
  }

  lemma MulBelow(a: nat, b: nat, n: nat)
    requires a < n && b <= n
    ensures a * n + b <= n * n
  {
    assert (n - 1 - a) * n >= 0;
    assert n * n == a * n + (n - 1 - a) * n + n;
  }

  lemma MulAtLeast(a: int, n: int)
    requires a >= 1 && n > 0
    ensures a * n >= n
  {
    assert a * n == (a - 1) * n + n;
    assert (a - 1) * n >= 0;
  }

  lemma MulLtCancel(a: int, b: int, n: int)
    requires n > 0 && a * n < b * n
    ensures a < b
  {
    assert (b - a) * n > 0;
  }

  /** Euclidean division is unique: the quotient and remainder of k by n are q and m. */
  lemma DivModUnique(k: int, n: int, q: int, m: int)
    requires n > 0 && 0 <= m < n && k == q * n + m
    ensures k / n == q && k % n == m
  {
    var q', m' := k / n, k % n;
    assert k == q' * n + m' && 0 <= m' < n;
    assert (q - q') * n == m' - m;
    if q > q' {
      MulAtLeast(q - q', n);
    } else if q < q' {
      MulAtLeast(q' - q, n);
    }
  }

  lemma RowMajorIndex(r: nat, c: nat, n: int)
    requires c < n
    ensures (r * n + c) / n == r && (r * n + c) % n == c
  {
    DivModUnique(r * n + c, n, r, c);
  }

  /** Row-major numbering is a bijection between 0 .. n*n-1 and the cells of the grid. */
  lemma CellAtInverse(k: nat, n: int)
    requires k < CellCount(n)
    ensures InGrid(CellAt(k, n), n)
    ensures k == CellAt(k, n).row * n + CellAt(k, n).col
  {
    var q := k / n;
    assert k == q * n + k % n;
    MulLtCancel(q, n, n);
  }

  lemma IndexOfCell(v: Cell, n: int)
    requires InGrid(v, n)
    ensures v.row * n + v.col < CellCount(n)
    ensures CellAt(v.row * n + v.col, n) == v
  {
    MulBelow(v.row, v.col + 1, n);
    RowMajorIndex(v.row, v.col, n);
  }

  /** `grid_map`: cell number k maps to (k / n, k % n), for exactly the numbers 0 .. n*n-1. */
  ghost predicate IsGridMap(m: map<nat, Cell>, n: int)
  {
    && (forall k: nat :: k in m <==> k < CellCount(n))
    && (forall k: nat :: k in m ==> m[k] == CellAt(k, n))
  }

  /** `make_grid_map`. */
  method MakeGridMap(n: int) returns (m: map<nat, Cell>)
    ensures IsGridMap(m, n)
  {
    m := map[];
    var cellNo := 0;
    var i := 0;
    while i < n
      invariant 0 <= i && (n <= 0 ==> i == 0) && (n > 0 ==> i <= n)
      invariant cellNo == i * n
      invariant forall k: nat :: k in m <==> k < cellNo
      invariant cellNo <= CellCount(n)
      invariant forall k: nat :: k in m ==> m[k] == CellAt(k, n)
    {
      var j := 0;
      while j < n
        invariant 0 <= j <= n
        invariant cellNo == i * n + j
        invariant cellNo <= CellCount(n)
        invariant forall k: nat :: k in m <==> k < cellNo
        invariant forall k: nat :: k in m ==> m[k] == CellAt(k, n)
      {
        MulBelow(i, j + 1, n);
        RowMajorIndex(i, j, n);
        m := m[cellNo := Cell(i, j)];
        cellNo := cellNo + 1;
        j := j + 1;
      }
      i := i + 1;
    }
  }

  /** The variables in the order the constructor creates them: row by row. */
  function RowMajor(n: int): (vs: seq<Cell>)
    ensures |vs| == CellCount(n)
  {
    seq(CellCount(n), k requires 0 <= k < CellCount(n) => CellAt(k, n))
  }

  /** The variables are the n*n cells of the grid, each exactly once. */
  lemma RowMajorEnumeratesGrid(n: int)
    ensures NoDup(RowMajor(n))
    ensures forall v :: v in RowMajor(n) <==> InGrid(v, n)
  {
    var vs := RowMajor(n);
    forall i, j | 0 <= i < j < |vs|
      ensures vs[i] != vs[j]
    {
      CellAtInverse(i, n);
      CellAtInverse(j, n);
    }
    forall v
      ensures v in vs <==> InGrid(v, n)
    {
      if v in vs {
        var k :| 0 <= k < |vs| && vs[k] == v;
        CellAtInverse(k, n);
      }
      if InGrid(v, n) {
        IndexOfCell(v, n);
        assert vs[v.row * n + v.col] == v;
      }
    }
  }

  /** The loop of the constructor that lists the variables. */
  method MakeVariables(n: int) returns (vars: seq<Cell>)
    ensures vars == RowMajor(n)
  {
    vars := [];
    var i := 0;
    while i < n
      invariant 0 <= i && (n <= 0 ==> i == 0) && (n > 0 ==> i <= n)
      invariant |vars| == i * n && |vars| <= CellCount(n)
      invariant forall k :: 0 <= k < |vars| ==> vars[k] == CellAt(k, n)
    {
      var j := 0;
      while j < n
        invariant 0 <= j <= n
        invariant |vars| == i * n + j && |vars| <= CellCount(n)
        invariant forall k :: 0 <= k < |vars| ==> vars[k] == CellAt(k, n)
      {
        MulBelow(i, j + 1, n);
        RowMajorIndex(i, j, n);
        vars := vars + [Cell(i, j)];
        j := j + 1;
      }
      i := i + 1;
    }
  }

  /** `set(range(1, n + 1))`. */
  function DomainValues(n: int): set<int>
  {
    if n < 1 then {} else DomainValues(n - 1) + {n}
  }

  /** A domain holds exactly the values 1 .. n, so it has n of them. */
  lemma {:induction false} DomainValuesRange(n: nat)
    ensures forall x :: x in DomainValues(n) <==> 1 <= x <= n
    ensures |DomainValues(n)| == n
  {
    if n > 0 {
      DomainValuesRange(n - 1);
      assert n !in DomainValues(n - 1);
    }
  }

  /** The loop of the constructor that gives every variable the domain {1 .. n}. */
  method MakeDomains(vars: seq<Cell>, n: int) returns (domains: map<Cell, set<int>>)
    ensures domains.Keys == Elems(vars)
    ensures forall v :: v in domains ==> domains[v] == DomainValues(n)
  {
    domains := map[];
    for k := 0 to |vars|
      invariant domains.Keys == Elems(vars[..k])
      invariant forall v :: v in domains ==> domains[v] == DomainValues(n)
    {
      domains := domains[vars[k] := DomainValues(n)];
      assert vars[..k + 1] == vars[..k] + [vars[k]];
    }
    assert vars[..|vars|] == vars;
  }

  function Row(r: nat, n: nat): seq<Cell>
  {
    seq(n, j requires 0 <= j < n => Cell(r, j))
  }

  function Col(c: nat, n: nat): seq<Cell>
  {
    seq(n, i requires 0 <= i < n => Cell(i, c))
  }

  /** `x.remove(v)` for the list x of v's row. */
  function RowMates(v: Cell, n: nat): seq<Cell>
    requires v.col < n
  {
    assert Row(v.row, n)[v.col] == v;
    Remove(Row(v.row, n), v)
  }

  /** `y.remove(v)` for the list y of v's column. */
  function ColMates(v: Cell, n: nat): seq<Cell>
    requires v.row < n
  {
    assert Col(v.col, n)[v.row] == v;
    Remove(Col(v.col, n), v)
  }

  /** The neighbour list of v after the row and column loop: its row mates are appended at
      the outer iteration i == v.row and its column mates at i == v.col, so the column mates
      come first exactly when v.col < v.row. */
  function LatinList(v: Cell, n: nat): seq<Cell>
    requires InGrid(v, n)
  {
    if v.col < v.row then ColMates(v, n) + RowMates(v, n) else RowMates(v, n) + ColMates(v, n)
  }

  /** The neighbour list of v after the outer iterations 0 .. i-1. */
  function LatinPrefix(v: Cell, n: nat, i: int): seq<Cell>
    requires InGrid(v, n)
  {
    var rowPart := if v.row < i then RowMates(v, n) else [];
    var colPart := if v.col < i then ColMates(v, n) else [];
    if v.col < v.row then colPart + rowPart else rowPart + colPart
  }

  /** Before cages are read, a cell's neighbours are the other n-1 cells of its row and the
      other n-1 cells of its column: 2(n-1) entries, no repetition, not the cell itself. */
  lemma LatinListShape(v: Cell, n: nat)
    requires InGrid(v, n)
    ensures |LatinList(v, n)| == 2 * (n - 1)
    ensures NoDup(LatinList(v, n))
    ensures forall w :: w in LatinList(v, n) <==> InGrid(w, n) && w != v && SameRowOrColumn(v, w)
  {
    var row, col := Row(v.row, n), Col(v.col, n);
    assert NoDup(row) && NoDup(col);
    assert forall w: Cell :: w in row <==> w.row == v.row && w.col < n by {
      forall w: Cell | w.row == v.row && w.col < n ensures w in row {
        assert row[w.col] == w;
      }
    }
    assert forall w: Cell :: w in col <==> w.col == v.col && w.row < n by {
      forall w: Cell | w.col == v.col && w.row < n ensures w in col {
        assert col[w.row] == w;
      }
    }
    var rm, cm := RowMates(v, n), ColMates(v, n);
    if v.col < v.row {
      NoDupConcat(cm, rm);
    } else {
      NoDupConcat(rm, cm);
    }
  }

  /** One of the constructor's inner loops over a row or a column (`for varij in x:`):
      each cell of the line gets the rest of the line appended to its neighbour list. */
  method AppendLineMates(nbrs: map<Cell, seq<Cell>>, line: seq<Cell>) returns (r: map<Cell, seq<Cell>>)
    requires NoDup(line)
    requires forall v :: v in line ==> v in nbrs
    ensures r.Keys == nbrs.Keys
    ensures forall v :: v in r ==> r[v] == nbrs[v] + (if v in line then Remove(line, v) else [])
  {
    r := nbrs;
    for k := 0 to |line|
      invariant r.Keys == nbrs.Keys
      invariant forall v :: v in r ==> r[v] == nbrs[v] + (if v in line[..k] then Remove(line, v) else [])
    {
      var v0 := line[k];
      ghost var before := r;
      r := r[v0 := r[v0] + Remove(line, v0)];
      forall v | v in r
        ensures r[v] == nbrs[v] + (if v in line[..k + 1] then Remove(line, v) else [])
      {
        assert line[..k + 1] == line[..k] + [v0];
        if v == v0 {
          assert v0 !in line[..k];
          assert before[v] == nbrs[v] + [];
        }
      }
    }
    assert line[..|line|] == line;
  }

  /** The row and column loop of the constructor (`neighbors[varij] += l`). */
  method LatinNeighbors(n: int) returns (nbrs: map<Cell, seq<Cell>>)
    ensures nbrs.Keys == CellSet(n)
    ensures forall v :: v in nbrs ==> nbrs[v] == LatinList(v, n)
  {
    nbrs := map v | v in CellSet(n) :: [];
    var i := 0;
    while i < n
      invariant 0 <= i && (n <= 0 ==> i == 0) && (n > 0 ==> i <= n)
      invariant nbrs.Keys == CellSet(n)
      invariant forall v :: v in nbrs ==> nbrs[v] == LatinPrefix(v, n, i)
    {
      var x, y := LinesThrough(i, n);
      ghost var before := nbrs;
      LineFacts(i, n);
      nbrs := AppendLineMates(nbrs, x);
      ghost var mid := nbrs;
      nbrs := AppendLineMates(nbrs, y);
      LatinRound(before, mid, nbrs, i, n);
      i := i + 1;
    }
    forall v | v in nbrs {
      LatinPrefixDone(v, n, i);
    }
  }

  /** The inner loop that lists row i in x and column i in y. */
  method LinesThrough(i: nat, n: nat) returns (x: seq<Cell>, y: seq<Cell>)
    ensures x == Row(i, n) && y == Col(i, n)
  {
    x, y := [], [];
    var j := 0;
    while j < n
      invariant 0 <= j <= n
      invariant x == Row(i, n)[..j] && y == Col(i, n)[..j]
    {
      x, y := x + [Cell(i, j)], y + [Cell(j, i)];
      j := j + 1;
    }
  }

  /** One outer iteration: appending the row mates and then the column mates of line i
      extends every prefix list by one iteration. */
  lemma LatinRound(before: map<Cell, seq<Cell>>, mid: map<Cell, seq<Cell>>, after: map<Cell, seq<Cell>>, i: nat, n: nat)
    requires i < n && before.Keys == CellSet(n)
    requires forall v :: v in before ==> before[v] == LatinPrefix(v, n, i)
    requires mid.Keys == before.Keys
    requires forall v :: v in mid ==> mid[v] == before[v] + (if v in Row(i, n) then Remove(Row(i, n), v) else [])
    requires after.Keys == mid.Keys
    requires forall v :: v in after ==> after[v] == mid[v] + (if v in Col(i, n) then Remove(Col(i, n), v) else [])
    ensures forall v :: v in after ==> after[v] == LatinPrefix(v, n, i + 1)
  {
    LineFacts(i, n);
    forall v | v in after
      ensures after[v] == LatinPrefix(v, n, i + 1)
    {
      assert v in Row(i, n) <==> v.row == i;
      assert v in Col(i, n) <==> v.col == i;
      LatinPrefixStep(v, n, i);
    }
  }

  lemma LineFacts(i: nat, n: nat)
    requires i < n
    ensures NoDup(Row(i, n)) && NoDup(Col(i, n))
    ensures forall v: Cell :: v in Row(i, n) <==> v.row == i && v.col < n
    ensures forall v: Cell :: v in Col(i, n) <==> v.col == i && v.row < n
    ensures forall v: Cell :: v in Row(i, n) ==> Remove(Row(i, n), v) == RowMates(v, n)
    ensures forall v: Cell :: v in Col(i, n) ==> Remove(Col(i, n), v) == ColMates(v, n)
  {
    forall v: Cell | v.row == i && v.col < n ensures v in Row(i, n) {
      assert Row(i, n)[v.col] == v;
    }
    forall v: Cell | v.col == i && v.row < n ensures v in Col(i, n) {
      assert Col(i, n)[v.row] == v;
    }
  }

  lemma LatinPrefixStep(v: Cell, n: nat, i: nat)
    requires InGrid(v, n)
    ensures LatinPrefix(v, n, i) + (if v.row == i then RowMates(v, n) else [])
            + (if v.col == i then ColMates(v, n) else []) == LatinPrefix(v, n, i + 1)
  {
    var rm, cm := RowMates(v, n), ColMates(v, n);
    assert rm + [] == rm && [] + rm == rm && cm + [] == cm && [] + cm == cm;
    assert rm + cm + [] == rm + cm && cm + rm + [] == cm + rm;
  }

  lemma LatinPrefixDone(v: Cell, n: nat, i: int)
    requires InGrid(v, n) && i >= n
    ensures LatinPrefix(v, n, i) == LatinList(v, n)
  {
  }
}
