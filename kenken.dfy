/** The `KenKen` object: the constructor builds the solver's view of a puzzle (grid map,
    variables, domains, neighbours, cages) from the lines of a puzzle file, and `Constraints`
    answers the solver's binary queries while counting them. */
module KenKenCsp {
  import opened Lists
  import opened Text
  import opened Grid
  import opened Cages
  import opened NeighborGraph
  import opened Constraint

  /** The row and column lists, once turned into sets, are the Latin neighbour sets. */
  lemma LatinSetsOfLists(latin: map<Cell, seq<Cell>>, n: int)
    requires latin.Keys == CellSet(n)
    requires forall v :: v in latin ==> latin[v] == LatinList(v, n)
    ensures ToSets(latin) == LatinSets(n)
  {
  }

  /** The constructor's loop over the cage lines (kenken.py lines 58-79): each line is read
      into a cage, its members are merged into the neighbour sets, and the cage is appended. */
  method ReadCages(lines: seq<string>, gridMap: map<nat, Cell>, ghost n: int, nbrs: map<Cell, set<Cell>>)
    returns (nb: map<Cell, set<Cell>>, cs: seq<Cage>)
    requires IsGridMap(gridMap, n) && nbrs == LatinSets(n)
    requires forall t :: 0 <= t < |lines| ==> ParseCage(lines[t], n).Some?
    ensures cs == seq(|lines|, t requires 0 <= t < |lines| => ParseCage(lines[t], n).value)
    ensures CagesInGrid(cs, n)
    ensures nb == MergeCages(LatinSets(n), cs)
  {
    nb, cs := nbrs, [];
    for t := 0 to |lines|
      invariant |cs| == t
      invariant forall i :: 0 <= i < t ==> cs[i] == ParseCage(lines[i], n).value
      invariant CagesInGrid(cs, n)
      invariant nb == MergeCages(LatinSets(n), cs)
    {
      var c := ParseCageLine(lines[t], gridMap, n);
      nb := MergeCage(nb, c.value.cells);
      cs := cs + [c.value];
      assert cs[..t] == cs[..|cs| - 1];
    }
  }

  class KenKen {
    var gridSize: int
    var gridMap: map<nat, Cell>
    var variables: seq<Cell>
    var domains: map<Cell, set<int>>
    var neighbors: map<Cell, set<Cell>>
    var cages: seq<Cage>
    /** The cage lines: the caller's list once the size line is removed from it. */
    var puzzle: seq<string>
    /** How many times `Constraints` has been called. */
    var nchecks: nat

    /** Reads a puzzle file given as its lines: the grid size first, then one cage descriptor
        per line. Every field is what the specification functions say of the text. */
    constructor (puzzle: seq<string>)
      requires ParsePuzzle(puzzle).Some?
      ensures gridSize == ParsePuzzle(puzzle).value.size
      ensures cages == ParsePuzzle(puzzle).value.cages
      ensures this.puzzle == puzzle[1..]
      ensures IsGridMap(gridMap, gridSize)
      ensures variables == RowMajor(gridSize)
      ensures domains.Keys == Elems(variables)
      ensures forall v :: v in domains ==> domains[v] == DomainValues(gridSize)
      ensures CagesInGrid(cages, gridSize)
      ensures neighbors == Neighbors(gridSize, cages)
      ensures nchecks == 0
    {
      var n := ParseInt(puzzle[0]).value;
      var rest := puzzle[1..];
      var gm := MakeGridMap(n);
      var vars := MakeVariables(n);
      var doms := MakeDomains(vars, n);
      var latin := LatinNeighbors(n);
      LatinSetsOfLists(latin, n);
      var nb, cs := ReadCages(rest, gm, n, ToSets(latin));
      assert cs == ParsePuzzle(puzzle).value.cages;
      gridSize, gridMap, variables, domains := n, gm, vars, doms;
      neighbors, cages, this.puzzle, nchecks := nb, cs, rest, 0;
    }

    /** `constraints(A, a, B, b)` with the solver's current assignment: counts the call and
        returns the verdict. Nothing but the counter changes. */
    method Constraints(A: Cell, a: int, B: Cell, b: int, assignment: Assignment) returns (ok: bool)
      requires Owned(cages, A) && Owned(cages, B)
      requires NoZeroDivision(cages, A, a, B, b, assignment)
      modifies this`nchecks
      ensures nchecks == old(nchecks) + 1
      ensures ok == Verdict(cages, A, a, B, b, assignment)
    {
      nchecks := nchecks + 1;
      var cageA := GetCage(cages, A);
      var cageB := GetCage(cages, B);
      if cageA != cageB {
        if cageA.value.op == Equals {
          return a != b && a == cageA.value.target;
        }
        if cageB.value.op == Equals {
          return a != b && b == cageB.value.target;
        }
        return a != b;
      }
      var same := SameCageConstraints(cageA.value, A, a, B, b, assignment);
      if !SameRowOrColumn(A, B) {
        return same;
      }
      return same && a != b;
    }
  }
}
