# KenKen as a constraint satisfaction problem

This project models the core of `kenken.py`, a KenKen solver that hands the puzzle to a
generic binary-CSP library. The core is the class `KenKen` without its printing. It has two
parts.

- **The constructor** reads a puzzle given as its lines: the grid size n first, then one cage
  per line as `target#k1-k2-...-km#op`. It builds six things:
  - the map from cell numbers to (row, col);
  - the n² variables in row-major order;
  - their domains {1..n};
  - the row and column neighbour lists;
  - the cages, in file order;
  - the final neighbour relation, in which every member of a cage also gains the cage's
    other members.
- **`constraints(A, a, B, b)`** is the binary predicate the library calls during search. It
  counts every call in `nchecks` and decides whether A = a and B = b are compatible, given
  the library's current partial assignment.

The model works as follows.

- A variable is a `Cell(row, col)`. The program's string names `"X" + str(i) + str(j)` are
  modelled separately in `names.dfy`.
- The cage lines are read by Python's `str.split` and `int`, modelled in `text.dfy`.
- Building the grid, variables, domains and row/column lists is in `grid.dfy`. Reading cages
  is in `cages.dfy`, and merging them into the neighbour relation is in `neighbors.dfy`.
- The verdict of `constraints` is the pure function `Constraint.Verdict`. The loops of its
  nested helpers (`get_cage`, `sum_constraint`, ...) are methods proved equal to the
  specification functions.
- The object itself is the class `KenKenCsp.KenKen` in `kenken.dfy`. Its constructor is
  proved to set every field to what the specification functions say of the text.
  `Constraints` changes only `nchecks`, which it increases by one, and returns `Verdict`.
- Where the program would raise an exception, the model gives `None`. The constructor and
  `Constraints` instead require inputs on which the program does not raise.

The main results are these.

- **Soundness** (`SolutionPassesEveryCheck`): take any partial assignment that agrees with a
  solution of the puzzle. The check on any two neighbours, holding their solution values,
  passes. So the search never prunes a solution.
- **Completeness** (`EveryCheckPassedSolves`): assume the usual cage shapes ('=' cages are
  single cells, '-' and '/' cages are pairs, '+' and '*' cages have two or more cells) and
  n >= 2. Then a complete assignment that passes the check on every pair of neighbours is a
  solution.
- **Reading a cage line** (`ParseFormatCage`): reading a descriptor gives back its target,
  its members in the order written, and its operator.
- **The neighbour relation** (`NeighborRelation`, `NeighborsSymmetric`): w is a neighbour of
  v exactly when w is another cell of v's row, v's column or a cage of v. This assumes no
  cage names a cell twice. The relation is symmetric, even without that assumption.

## Model

| member | source | states |
|---|---|---|
| `Lists.Remove` | kenken.py:48-49 | `l.remove(v)` leaves one entry fewer. The same elements stay, except v. On a list without repetition, v is gone and the result has no repetition either. |
| `Lists.IndexOf` | kenken.py:48-49 | The position of the first v in the list: v is there and not earlier. |
| `Lists.RemoveFirst` | kenken.py:48-49 | `l.remove(v)` drops the first v, at `IndexOf`, and keeps the rest in order. |
| `Text.Split` | kenken.py:61 | `s.split(sep)` gives at least one piece, and no piece contains the separator. |
| `Text.SplitJoin` | kenken.py:61-63 | Splitting the text obtained by joining separator-free parts gives back exactly those parts. |
| `Text.ParseIntToString` | kenken.py:62 | `int(str(t)) == t` for every integer t, negative ones included. |
| `Grid.CellAtInverse` | kenken.py:247-258 | Cell number k < n·n is the in-grid cell (k / n, k % n), and k = row·n + col. |
| `Grid.MakeGridMap` | kenken.py:247-258 | `make_grid_map(n)`: its keys are exactly 0 .. n·n-1, and key k maps to (k / n, k % n). |
| `Grid.RowMajorEnumeratesGrid` | kenken.py:25-29 | The variables list each cell of the grid exactly once and nothing else. |
| `Grid.MakeVariables` | kenken.py:25-29 | The nested loop produces the variables in row-major order. |
| `Grid.DomainValuesRange` | kenken.py:33 | `set(range(1, n + 1))` holds exactly the values 1..n, n of them. |
| `Grid.MakeDomains` | kenken.py:31-33 | Every variable, and nothing else, gets the domain {1..n}. |
| `Grid.LatinListShape` | kenken.py:37-55 | Before cages are read, a cell has 2(n-1) neighbour entries, with no repetition. They are exactly the other cells of its row and of its column. |
| `Grid.LinesThrough` | kenken.py:39-45 | The inner loop lists row i in x and column i in y, in order. |
| `Grid.AppendLineMates` | kenken.py:47-55 | Each cell of a row or column line gets the rest of the line appended, in line order. Other cells are unchanged. |
| `Grid.LatinNeighbors` | kenken.py:35-55 | After the row and column loop, every cell's list is its row mates then its column mates, or the reverse when its column index is below its row index. |
| `Grid.LatinRound` | kenken.py:38-55 | One outer iteration appends exactly the row-i and column-i mates to the lists built so far. |
| `Cages.OpSymbolOfParse` | kenken.py:70 | The operator field is kept without loss: its text can always be recovered. |
| `Cages.KeyCell` | kenken.py:66 | `grid_map[int(k)]` succeeds only with a cell inside the grid. |
| `Cages.ParseCage` | kenken.py:59-70 | A descriptor that reads without error gives a cage with at least one member, all inside the grid. |
| `Cages.ParseCageLine` | kenken.py:59-70 | The constructor's loop over one descriptor gives exactly `ParseCage`. It stops at the first member that fails to read. |
| `Cages.ParseFormatCage` | kenken.py:59-70 | `t#k1-...-km#op` reads as the cage of `(k / n, k % n)` for each k, in the order written, with operator op and target t. |
| `Cages.ParseExample` | kenken.py:59-70 | `"10#0-1#+"` on a 2-by-2 grid reads as cells (0,0), (0,1), operator '+', target 10. |
| `Cages.ParsePuzzleLines` | kenken.py:19-20 | The first line is the size. The remaining lines are the cages, in file order. |
| `Cages.ParsedCagesInGrid` | kenken.py:59-79 | Every cage of a parsed puzzle is non-empty and lies inside the grid. |
| `NeighborGraph.ToSets` | kenken.py:76-77 | Turning each list into a set keeps the same cells as keys. |
| `NeighborGraph.AddCage` | kenken.py:72-77 | Merging one cage keeps the same cells as keys. |
| `NeighborGraph.MergeCages` | kenken.py:57-79 | Merging the cages in order keeps the same cells as keys. |
| `NeighborGraph.Neighbors` | kenken.py:35-79 | The final neighbour relation has exactly the grid's cells as keys. |
| `NeighborGraph.MergeCage` | kenken.py:72-77 | The loop over one cage's members adds, to each member, the other members. |
| `NeighborGraph.MergeCagesMembers` | kenken.py:72-77 | After the merge, w is a neighbour of v exactly when it was one before, or w is among what `remove(v)` leaves of a cage holding v. |
| `NeighborGraph.NeighborRelation` | kenken.py:37-77 | w is a neighbour of v exactly when w is another in-grid cell sharing v's row, v's column or one of v's cages. |
| `NeighborGraph.NoSelfNeighbor` | kenken.py:72-77 | No cell is its own neighbour. |
| `NeighborGraph.NeighborsSymmetric` | kenken.py:37-77 | If w is a neighbour of v, then v is a neighbour of w. This holds even when a cage names a cell twice. |
| `NeighborGraph.CageMatesAreNeighbors` | kenken.py:72-77 | Any two distinct members of a cage are neighbours, whatever their rows and columns, and even when a cage names a cell twice. |
| `Constraint.FirstOwner` | kenken.py:101-106 | The index of the first cage that lists v. No earlier cage lists it. |
| `Constraint.GetCage` | kenken.py:101-106 | `get_cage` returns the first cage in file order that lists the variable, or None. |
| `Constraint.OwnerIsUnique` | kenken.py:101-106 | When the cages partition the grid, `get_cage` finds the one cage holding the cell. |
| `Constraint.Verdict` | kenken.py:197-230 | A true verdict never gives two cells one value, unless both are in one cage and share neither row nor column. |
| `Constraint.SumConstraint` | kenken.py:126-137 | `sum_constraint` is true while another member is unassigned. Otherwise it is true exactly when a + b + the others' values equals the target. |
| `Constraint.OthersPending` | kenken.py:145-149 | The loop shared by the '-' and '/' helpers finds whether a member other than A and B is unassigned. |
| `Constraint.DifferenceConstraint` | kenken.py:139-151 | `difference_constraint` is true while another member is unassigned, else true exactly when \|a - b\| equals the target. |
| `Constraint.ProductConstraint` | kenken.py:153-164 | `product_constraint` is true while another member is unassigned. Otherwise it is true exactly when a·b·(the others' values) equals the target. |
| `Constraint.QuotientConstraint` | kenken.py:166-177 | `quotient_constraint` is true while another member is unassigned, else true exactly when max(a,b) = target·min(a,b). |
| `Constraint.SameCageConstraints` | kenken.py:184-194 | The dispatch on '+', '-', '*', '/' gives the cage rule. Any other operator gives false. |
| `Constraint.OthersSumSplit` | kenken.py:126-137 | With A and B set to a and b, the cage's total is a + b + the other members' sum. |
| `Constraint.OthersProductSplit` | kenken.py:153-164 | With A and B set to a and b, the cage's product is a·b·(the other members' product). |
| `Constraint.VerdictDefersPendingCage` | kenken.py:126-177 | While another member of their arithmetic cage is unassigned, A and B are accepted exactly when they differ or share no line. |
| `Constraint.VerdictOnCompleteCage` | kenken.py:126-164 | Once every other member is assigned, a '+' ('*') cage accepts A = a, B = b exactly when the whole cage sums (multiplies) to its target. a != b is also required when A and B share a line. |
| `Constraint.PairRulesIgnoreOthers` | kenken.py:139-177 | '-' and '/' cages ignore the other members' values: any two complete assignments of the others give the same verdict. |
| `Constraint.UnknownOperatorRejects` | kenken.py:184-194 | Two cells of one '=' cage, or of a cage with an unknown operator, are always rejected. |
| `Constraint.VerdictAcrossCages` | kenken.py:204-215 | Across cages, the verdict is a != b. It also requires a = A's target when A's operator is '=', or else b = B's target when B's operator is '='. |
| `Constraint.VerdictSymmetric` | kenken.py:197-230 | Swapping (A, a) with (B, b) leaves the verdict unchanged, unless A and B are in two different '=' cages. |
| `Constraint.FixedCellsAsymmetric` | kenken.py:208-213 | With two different '=' cages, only the first cell's target is read. The verdict then depends on argument order. |
| `Constraint.VerdictExamples` | kenken.py:197-230 | Verdicts on sample pairs: '+' 7, '*' 12 and '/' 3 cages of two cells; two cages in one row; an '=' cage with target 5. |
| `Constraint.SolutionPassesCageCheck` | kenken.py:217-230 | Two members of one cage, holding a solution's values, pass the check under any assignment that agrees with that solution. |
| `Constraint.SolutionPassesCrossCheck` | kenken.py:204-215 | Two cells of different cages sharing a line, holding a solution's values, pass the check. |
| `Constraint.SolutionPassesEveryCheck` | kenken.py:95-230 | Soundness: every check between neighbours holding a solution's values passes, under any assignment agreeing with that solution. |
| `Constraint.FixedCageChecked` | kenken.py:208-210 | The cell of a single-cell '=' cage that passes the check against a neighbour outside its cage holds its target. |
| `Constraint.ArithmeticCageChecked` | kenken.py:217-230 | With the usual cage shapes, a cage of two or more cells whose first two members pass the check under a complete assignment meets its rule. |
| `Constraint.CheckedFixedCage` | kenken.py:204-213 | For n >= 2, in a complete assignment that passes every check, each single-cell '=' cage holds its target. |
| `Constraint.OneByOneTargetUnchecked` | kenken.py:204-213 | On the 1-by-1 file `1`, `5#0#=`, the only cell has no neighbour: the value 1 passes every check but is not a solution. |
| `Constraint.CheckedArithmeticCage` | kenken.py:217-230 | In a complete assignment that passes every check, each cage of two or more cells meets its rule. |
| `Constraint.SolutionPassesOwnCheck` | kenken.py:95-230 | One pair of neighbours holding a solution's values passes the check when the solution itself is the solver's assignment. |
| `Constraint.SolutionPassesAllChecks` | kenken.py:95-230 | A solution, taken as the solver's complete assignment, passes the check on every pair of neighbours. This is the converse of `EveryCheckPassedSolves`. |
| `Constraint.EveryCheckPassedSolves` | kenken.py:95-230 | Completeness: with the usual cage shapes and n >= 2, a complete assignment passing every neighbour check solves the puzzle. |
| `Constraint.TwoByTwoFile` | kenken.py:15-79 | The file `2`, `3#0-1#+`, `2#2-3#*` reads as a 2-by-2 grid: a '+' 3 cage on row 0 and a '*' 2 cage on row 1. |
| `Constraint.TwoByTwoSolutions` | kenken.py:95-230 | Both Latin squares of order 2 solve that puzzle, and each, taken as the solver's assignment, passes the check on every pair of neighbours. |
| `Constraint.TwoByTwoOnlySolutions` | kenken.py:95-230 | No other map solves that puzzle: any solution gives the four cells the values of one of those two squares. |
| `KenKenCsp.ReadCages` | kenken.py:57-79 | The loop over the cage lines gives the parsed cages in file order. The neighbour sets are the row and column sets with every cage merged in. |
| `KenKenCsp.KenKen.constructor` | kenken.py:15-92 | Every field is what the specification functions give for the text: the size, the grid map, the row-major variables, the {1..n} domains, the cages, the neighbour relation, the remaining lines. `nchecks` is 0. |
| `KenKenCsp.KenKen.Constraints` | kenken.py:95-230 | Increases `nchecks` by exactly one, changes nothing else, and returns `Verdict`. |
| `Names.NamesExactUpToTen` | kenken.py:108-115 | Up to 10 by 10, distinct cells have distinct names. Reading digits 1 and 2 of a name gives its cell, so the row-or-column test on names is the one on cells. |
| `Names.VarNameShape` | kenken.py:28 | Every name is 'X' followed by at least two digits. |
| `Names.NamesCollideFromTwelve` | kenken.py:28 | On a 12-by-12 grid, cells (1, 11) and (11, 1) are both named "X111". |
| `Names.DigitReadingWrongFromEleven` | kenken.py:108-115 | On an 11-by-11 grid, "X100" (cell (10, 0)) is read as row 1. It is then taken to share a row with (1, 5). |

## Left out

- The command-line block (kenken.py:261-312) and `display` (232-245) are left out. They are
  argument handling, file reading, timing and printing.
- The CSP library is not part of this model. That covers the search procedures, the
  heuristics, `super().__init__` and `infer_assignment`. The assignment the library supplies
  is the `assignment` parameter of `Constraints`.
- `Constraint.QuotientConstraint`: Python's float division `max(a, b) / min(a, b) == target`
  is modelled as the integer condition max = target·min. The two agree for values far below
  2^53. A zero minimum, on which Python raises ZeroDivisionError, is excluded by the requires.
  Domain values start at 1, so a zero never reaches it.
- `Constraint.Verdict`: the `None` returned for an unknown operator is modelled as false,
  which is how the library uses it.
- `Text.ParseInt` accepts an optional sign followed by ASCII digits. It does not accept the
  other forms Python's `int()` takes: surrounding whitespace, underscores between digits,
  non-ASCII digits. Such lines read as an error here.
- `KenKenCsp.KenKen.constructor` requires a puzzle that reads without error. The program
  raises part-way through on any other, and a half-built object is not modelled.
  `puzzle.remove(puzzle[0])` also changes the caller's list in place. The model keeps the
  remaining lines in the field but does not model the sharing.
- `KenKenCsp.KenKen.Constraints` requires that both cells lie in some cage. Otherwise
  `get_cage` returns None and the program fails at the next subscript.
- Neighbour relation: the program keeps lists, turns a member's list into a set and back
  after each cage, and leaves lists of cells in no cage as they are. The model uses sets
  throughout, so the order of the final lists and `copy.deepcopy` are not modelled. The
  order of the row and column lists before the merge is modelled (`Grid.LatinNeighbors`).
- The program checks none of these: that the cages cover the grid without overlap, that no
  cage repeats a cell, and that the size is positive. The lemmas that need these facts take
  them as hypotheses (`Partition`, `StandardCages`). They are not checks of the model's
  constructor.
- `NeighborGraph.NoSelfNeighbor` and `NeighborGraph.NeighborRelation` assume that no cage
  names a cell twice. The program does not check this. On a descriptor such as `4#0-0-1#+`,
  `l.remove(varij)` (kenken.py:73-77) drops only one copy, so cell (0, 0) becomes its own
  neighbour. The program does this too.
- The string variable names are modelled only in `names.dfy`. The rest of the model
  identifies a variable with its cell, which is exact up to 10 by 10 (`NamesExactUpToTen`).
- The unused `values` lists in the '-' and '/' helpers (kenken.py:143-149, 170-175) are
  left out.
- `nchecks` is an unbounded natural number, as a Python integer is.

Behaviour of the code that the model keeps:

- The cross-cage special case tests only whether a cage's operator is '='. It does not test
  whether the cage is a single cell.
- Nothing is validated while reading: a size of 0 or below gives an empty grid, and any
  operator text is accepted.
- The quotient operator is the character '/'.
- The verdict depends on argument order for two cells in two different '=' cages
  (`FixedCellsAsymmetric`). For '-' and '/' cages, the check on two members ignores the
  other members' values (`PairRulesIgnoreOthers`).
- On a 1-by-1 grid the program never checks an '=' cage's target: the only cell has no
  neighbour, so `constraints` is never called (`OneByOneTargetUnchecked`).
- The 2-by-2 puzzle with a '+' 3 row and a '*' 2 row has exactly two solutions
  (`TwoByTwoSolutions`, `TwoByTwoOnlySolutions`).

## Findings

| source | as written | input that shows it | evidently intended | confidence | as-written member | corrected member |
|---|---|---|---|---|---|---|
| kenken.py:28 | The variable of cell (i, j) is named `"X" + str(i) + str(j)`. Rows and columns are read back as the single digits `A[1]`, `A[2]` (lines 111-112). | n = 12: cells (1, 11) and (11, 1) are both "X111". n = 11: "X100" is read as row 1, column 0, so it appears to share row 1 with (1, 5). | One variable per cell, and the row-or-column test on the cell's real row and column, for every grid size. | high (not executed) | `Names.NamesCollideFromTwelve` | `Grid.LatinListShape` |
