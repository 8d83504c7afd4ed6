/** The binary constraint the solver queries (`KenKen.constraints`): a pure verdict on two
    cells, their candidate values and the solver's current partial assignment; the loops of
    its nested helpers as methods proved against that verdict; and what the verdict means. */
module Constraint {
  import opened Lists
  import opened Text
  import opened Grid
  import opened Cages
  import opened NeighborGraph

  /** The solver's current partial assignment, read at each call. */
  type Assignment = map<Cell, int>

  /** The index of the first cage, in file order, that lists v; |cages| when none does. */
  function FirstOwner(cages: seq<Cage>, v: Cell): (i: nat)
    ensures i <= |cages|
    ensures i < |cages| ==> v in cages[i].cells
    ensures forall j :: 0 <= j < i ==> v !in cages[j].cells
  {
    if cages == [] then 0
    else if v in cages[0].cells then 0
    else 1 + FirstOwner(cages[1..], v)
  }

  /** `get_cage`: the first cage that lists v, or None (the program's `None`). */
  function FindCage(cages: seq<Cage>, v: Cell): Option<Cage>
  {
    var i := FirstOwner(cages, v);
    if i < |cages| then Some(cages[i]) else None
  }

  predicate Owned(cages: seq<Cage>, v: Cell)
  {
    FindCage(cages, v).Some?
  }

  /** `get_cage` (kenken.py lines 101-106). */
  method GetCage(cages: seq<Cage>, v: Cell) returns (r: Option<Cage>)
    ensures r == FindCage(cages, v)
  {
    for i := 0 to |cages|
      invariant forall j :: 0 <= j < i ==> v !in cages[j].cells
    {
      if v in cages[i].cells {
        return Some(cages[i]);
      }
    }
    return None;
  }

  /** Under a partition, the cage found for a member is the one cage holding it. */
  lemma OwnerIsUnique(cages: seq<Cage>, n: int, v: Cell, i: int)
    requires Partition(cages, n)
    requires 0 <= i < |cages| && v in cages[i].cells
    ensures FindCage(cages, v) == Some(cages[i])
  {
    assert FirstOwner(cages, v) <= i;
  }

  function Abs(x: int): nat
  {
    if x < 0 then -x else x
  }

  function Max(a: int, b: int): int
  {
    if a >= b then a else b
  }

  function Min(a: int, b: int): int
  {
    if a <= b then a else b
  }

  /** Some member of the cage other than A and B has no value yet. */
  predicate Pending(cells: seq<Cell>, A: Cell, B: Cell, asg: Assignment)
  {
    exists k :: 0 <= k < |cells| && cells[k] != A && cells[k] != B && cells[k] !in asg
  }

  /** The sum of the assigned values of the members other than A and B. */
  function OthersSum(cells: seq<Cell>, A: Cell, B: Cell, asg: Assignment): int
    requires !Pending(cells, A, B, asg)
  {
    if cells == [] then 0
    else
      var front, last := cells[..|cells| - 1], cells[|cells| - 1];
      assert forall k :: 0 <= k < |front| ==> front[k] == cells[k];
      OthersSum(front, A, B, asg) + (if last != A && last != B then asg[last] else 0)
  }

  /** The product of the assigned values of the members other than A and B. */
  function OthersProduct(cells: seq<Cell>, A: Cell, B: Cell, asg: Assignment): int
    requires !Pending(cells, A, B, asg)
  {
    if cells == [] then 1
    else
      var front, last := cells[..|cells| - 1], cells[|cells| - 1];
      assert forall k :: 0 <= k < |front| ==> front[k] == cells[k];
      OthersProduct(front, A, B, asg) * (if last != A && last != B then asg[last] else 1)
  }

  /** The quotient rule divides by min(a, b) once no other member is pending. */
  predicate QuotientDefined(cage: Cage, A: Cell, a: int, B: Cell, b: int, asg: Assignment)
  {
    cage.op == Divide && !Pending(cage.cells, A, B, asg) ==> Min(a, b) != 0
  }

  /** `same_cage_constraints`: the arithmetic rule of the cage for A = a and B = b, deferred
      (true) while another member is unassigned. '-' and '/' look at a and b only. '=' and any
      other operator fall through the dispatch, which returns None: false. The quotient
      `max(a, b) / min(a, b) == target` is the exact condition max == target * min. */
  function CageRule(cage: Cage, A: Cell, a: int, B: Cell, b: int, asg: Assignment): bool
    requires QuotientDefined(cage, A, a, B, b, asg)
  {
    var pending := Pending(cage.cells, A, B, asg);
    match cage.op
    case Plus => pending || a + b + OthersSum(cage.cells, A, B, asg) == cage.target
    case Minus => pending || Abs(a - b) == cage.target
    case Times => pending || a * b * OthersProduct(cage.cells, A, B, asg) == cage.target
    case Divide => pending || Max(a, b) == cage.target * Min(a, b)
    case Equals => false
    case Other(_) => false
  }

  /** The program raises ZeroDivisionError exactly when this fails. */
  predicate NoZeroDivision(cages: seq<Cage>, A: Cell, a: int, B: Cell, b: int, asg: Assignment)
    requires Owned(cages, A) && Owned(cages, B)
  {
    FindCage(cages, A) == FindCage(cages, B) ==> QuotientDefined(FindCage(cages, A).value, A, a, B, b, asg)
  }

  /** The verdict of `constraints(A, a, B, b)` with the solver's assignment `asg`. Across two
      cages only a != b applies, plus the fixed value of A's cage if its operator is '=', or
      else that of B's. Within one cage the cage rule applies, and a != b as well when A and B
      share a row or a column. A true verdict never lets two cells take one value unless they
      are in one cage and off each other's row and column. */
  function Verdict(cages: seq<Cage>, A: Cell, a: int, B: Cell, b: int, asg: Assignment): (ok: bool)
    requires Owned(cages, A) && Owned(cages, B)
    requires NoZeroDivision(cages, A, a, B, b, asg)
    ensures ok ==> a != b || (FindCage(cages, A) == FindCage(cages, B) && !SameRowOrColumn(A, B))
  {
    var cageA, cageB := FindCage(cages, A).value, FindCage(cages, B).value;
    if cageA != cageB then
      if cageA.op == Equals then a != b && a == cageA.target
      else if cageB.op == Equals then a != b && b == cageB.target
      else a != b
    else if !SameRowOrColumn(A, B) then CageRule(cageA, A, a, B, b, asg)
    else CageRule(cageA, A, a, B, b, asg) && a != b
  }

  /** `sum_constraint` (kenken.py lines 126-137). */
  method SumConstraint(cells: seq<Cell>, A: Cell, a: int, B: Cell, b: int, asg: Assignment, target: int)
    returns (r: bool)
    ensures r == (Pending(cells, A, B, asg) || a + b + OthersSum(cells, A, B, asg) == target)
  {
    var result := a + b;
    for k := 0 to |cells|
      invariant !Pending(cells[..k], A, B, asg)
      invariant result == a + b + OthersSum(cells[..k], A, B, asg)
    {
      var x := cells[k];
      if x != A && x != B && x !in asg {
        assert Pending(cells, A, B, asg);
        return true;
      }
      if x != A && x != B {
        result := result + asg[x];
      }
      assert cells[..k + 1][..k] == cells[..k];
    }
    assert cells[..|cells|] == cells;
    return result == target;
  }

  /** `product_constraint` (kenken.py lines 153-164). */
  method ProductConstraint(cells: seq<Cell>, A: Cell, a: int, B: Cell, b: int, asg: Assignment, target: int)
    returns (r: bool)
    ensures r == (Pending(cells, A, B, asg) || a * b * OthersProduct(cells, A, B, asg) == target)
  {
    var result := a * b;
    for k := 0 to |cells|
      invariant !Pending(cells[..k], A, B, asg)
      invariant result == a * b * OthersProduct(cells[..k], A, B, asg)
    {
      var x := cells[k];
      if x != A && x != B && x !in asg {
        assert Pending(cells, A, B, asg);
        return true;
      }
      if x != A && x != B {
        result := result * asg[x];
      }
      assert cells[..k + 1][..k] == cells[..k];
    }
    assert cells[..|cells|] == cells;
    return result == target;
  }

  /** The loop that `difference_constraint` and `quotient_constraint` share: is some other
      member unassigned? */
  method OthersPending(cells: seq<Cell>, A: Cell, B: Cell, asg: Assignment) returns (p: bool)
    ensures p == Pending(cells, A, B, asg)
  {
    for k := 0 to |cells|
      invariant !Pending(cells[..k], A, B, asg)
    {
      var x := cells[k];
      if x != A && x != B && x !in asg {
        assert Pending(cells, A, B, asg);
        return true;
      }
      assert cells[..k + 1][..k] == cells[..k];
    }
    assert cells[..|cells|] == cells;
    return false;
  }

  /** `difference_constraint` (kenken.py lines 139-151). */
  method DifferenceConstraint(cells: seq<Cell>, A: Cell, a: int, B: Cell, b: int, asg: Assignment, target: int)
    returns (r: bool)
    ensures r == (Pending(cells, A, B, asg) || Abs(a - b) == target)
  {
    var pending := OthersPending(cells, A, B, asg);
    if pending {
      return true;
    }
    return Abs(a - b) == target;
  }

  /** `quotient_constraint` (kenken.py lines 166-177). */
  method QuotientConstraint(cells: seq<Cell>, A: Cell, a: int, B: Cell, b: int, asg: Assignment, target: int)
    returns (r: bool)
    requires !Pending(cells, A, B, asg) ==> Min(a, b) != 0
    ensures r == (Pending(cells, A, B, asg) || Max(a, b) == target * Min(a, b))
  {
    var pending := OthersPending(cells, A, B, asg);
    if pending {
      return true;
    }
    return Max(a, b) == target * Min(a, b);
  }

  /** `same_cage_constraints` (kenken.py lines 184-194). */
  method SameCageConstraints(cage: Cage, A: Cell, a: int, B: Cell, b: int, asg: Assignment) returns (r: bool)
    requires QuotientDefined(cage, A, a, B, b, asg)
    ensures r == CageRule(cage, A, a, B, b, asg)
  {
    if cage.op == Plus {
      r := SumConstraint(cage.cells, A, a, B, b, asg, cage.target);
    } else if cage.op == Minus {
      r := DifferenceConstraint(cage.cells, A, a, B, b, asg, cage.target);
    } else if cage.op == Times {
      r := ProductConstraint(cage.cells, A, a, B, b, asg, cage.target);
    } else if cage.op == Divide {
      r := QuotientConstraint(cage.cells, A, a, B, b, asg, cage.target);
    } else {
      r := false;
    }
  }

  /** Every member has a value in vals. */
  predicate Covers(cells: seq<Cell>, vals: map<Cell, int>)
  {
    forall k :: 0 <= k < |cells| ==> cells[k] in vals
  }

  /** The sum of the cage's values under a full assignment. */
  function Total(cells: seq<Cell>, vals: map<Cell, int>): int
    requires Covers(cells, vals)
  {
    if cells == [] then 0
    else
      var front := cells[..|cells| - 1];
      assert forall k :: 0 <= k < |front| ==> front[k] == cells[k];
      Total(front, vals) + vals[cells[|cells| - 1]]
  }

  /** The product of the cage's values under a full assignment. */
  function Product(cells: seq<Cell>, vals: map<Cell, int>): int
    requires Covers(cells, vals)
  {
    if cells == [] then 1
    else
      var front := cells[..|cells| - 1];
      assert forall k :: 0 <= k < |front| ==> front[k] == cells[k];
      Product(front, vals) * vals[cells[|cells| - 1]]
  }

  /** Facts about dropping the last member that the inductions below share. */
  lemma FrontFacts(cells: seq<Cell>, A: Cell, B: Cell, asg: Assignment)
    requires cells != [] && NoDup(cells) && !Pending(cells, A, B, asg)
    ensures var front, last := cells[..|cells| - 1], cells[|cells| - 1];
      && NoDup(front) && !Pending(front, A, B, asg) && last !in front
      && forall x :: x in cells <==> x in front || x == last
  {
    var front, last := cells[..|cells| - 1], cells[|cells| - 1];
    assert cells == front + [last];
    assert forall k :: 0 <= k < |front| ==> front[k] == cells[k];
  }

  /** With A = a and B = b added, the assignment gives every member a value. */
  lemma CoversUpdated(cells: seq<Cell>, A: Cell, a: int, B: Cell, b: int, asg: Assignment)
    requires !Pending(cells, A, B, asg)
    ensures Covers(cells, asg[A := a][B := b])
  {
    forall k | 0 <= k < |cells|
      ensures cells[k] in asg[A := a][B := b]
    {
      if cells[k] != A && cells[k] != B {
        assert cells[k] in asg;
      }
    }
  }

  /** With A = a and B = b added to the assignment, the cage's total is the sum of the other
      members plus a and b (each counted when it is a member). */
  lemma {:induction false} OthersSumSplit(cells: seq<Cell>, A: Cell, a: int, B: Cell, b: int, asg: Assignment)
    requires A != B && NoDup(cells) && !Pending(cells, A, B, asg)
    ensures Covers(cells, asg[A := a][B := b])
    ensures Total(cells, asg[A := a][B := b])
         == OthersSum(cells, A, B, asg) + (if A in cells then a else 0) + (if B in cells then b else 0)
  {
    CoversUpdated(cells, A, a, B, b, asg);
    if cells != [] {
      FrontFacts(cells, A, B, asg);
      OthersSumSplit(cells[..|cells| - 1], A, a, B, b, asg);
    }
  }

  lemma MulSwap(p: int, u: int, v: int)
    ensures p * u * v == p * v * u
  {
  }

  lemma MulCycle(x: int, y: int, z: int)
    ensures x * y * z == z * x * y
  {
  }

  lemma MulRotate(p: int, u: int, v: int, x: int)
    ensures p * u * v * x == p * x * u * v
  {
  }

  /** The product counterpart of OthersSumSplit. */
  lemma {:induction false} OthersProductSplit(cells: seq<Cell>, A: Cell, a: int, B: Cell, b: int, asg: Assignment)
    requires A != B && NoDup(cells) && !Pending(cells, A, B, asg)
    ensures Covers(cells, asg[A := a][B := b])
    ensures Product(cells, asg[A := a][B := b])
         == OthersProduct(cells, A, B, asg) * (if A in cells then a else 1) * (if B in cells then b else 1)
  {
    var vals := asg[A := a][B := b];
    CoversUpdated(cells, A, a, B, b, asg);
    if cells != [] {
      var front, last := cells[..|cells| - 1], cells[|cells| - 1];
      FrontFacts(cells, A, B, asg);
      OthersProductSplit(front, A, a, B, b, asg);
      var p := OthersProduct(front, A, B, asg);
      var pa := if A in front then a else 1;
      var pb := if B in front then b else 1;
      var x := vals[last];
      assert Product(cells, vals) == p * pa * pb * x;
      if last == A {
        assert OthersProduct(cells, A, B, asg) == p && pa == 1 && x == a;
        MulSwap(p, pb, a);
      } else if last == B {
        assert OthersProduct(cells, A, B, asg) == p && pb == 1 && x == b;
      } else {
        assert OthersProduct(cells, A, B, asg) == p * x;
        MulRotate(p, pa, pb, x);
      }
    }
  }

  /** A pair in one cage: the cage is found for both, and the verdict is defined. */
  lemma SameCageOwned(cages: seq<Cage>, n: int, i: int, A: Cell, a: int, B: Cell, b: int, asg: Assignment)
    requires Partition(cages, n)
    requires 0 <= i < |cages| && A in cages[i].cells && B in cages[i].cells
    requires cages[i].op == Divide && !Pending(cages[i].cells, A, B, asg) ==> Min(a, b) != 0
    ensures FindCage(cages, A) == FindCage(cages, B) == Some(cages[i])
    ensures Owned(cages, A) && Owned(cages, B) && NoZeroDivision(cages, A, a, B, b, asg)
  {
    OwnerIsUnique(cages, n, A, i);
    OwnerIsUnique(cages, n, B, i);
  }

  /** While another member of their cage is unassigned, an arithmetic cage accepts any pair
      for A and B, subject only to a != b when they share a row or a column. */
  lemma VerdictDefersPendingCage(cages: seq<Cage>, n: int, i: int, A: Cell, a: int, B: Cell, b: int, asg: Assignment)
    requires Partition(cages, n)
    requires 0 <= i < |cages| && A in cages[i].cells && B in cages[i].cells
    requires cages[i].op != Equals && !cages[i].op.Other?
    requires Pending(cages[i].cells, A, B, asg)
    ensures Owned(cages, A) && Owned(cages, B) && NoZeroDivision(cages, A, a, B, b, asg)
    ensures Verdict(cages, A, a, B, b, asg) == (SameRowOrColumn(A, B) ==> a != b)
  {
    SameCageOwned(cages, n, i, A, a, B, b, asg);
  }

  /** Once every other member of a '+' or '*' cage has a value, the verdict on A = a and B = b
      is exactly whether the whole cage then sums (multiplies) to its target, together with
      a != b when A and B share a row or a column. */
  lemma VerdictOnCompleteCage(cages: seq<Cage>, n: int, i: int, A: Cell, a: int, B: Cell, b: int, asg: Assignment)
    requires Partition(cages, n)
    requires 0 <= i < |cages| && A in cages[i].cells && B in cages[i].cells && A != B
    requires cages[i].op == Plus || cages[i].op == Times
    requires !Pending(cages[i].cells, A, B, asg)
    ensures Owned(cages, A) && Owned(cages, B) && NoZeroDivision(cages, A, a, B, b, asg)
    ensures Covers(cages[i].cells, asg[A := a][B := b])
    ensures Verdict(cages, A, a, B, b, asg)
        == ((if cages[i].op == Plus then Total(cages[i].cells, asg[A := a][B := b])
             else Product(cages[i].cells, asg[A := a][B := b])) == cages[i].target
            && (SameRowOrColumn(A, B) ==> a != b))
  {
    SameCageOwned(cages, n, i, A, a, B, b, asg);
    var cells := cages[i].cells;
    if cages[i].op == Plus {
      OthersSumSplit(cells, A, a, B, b, asg);
    } else {
      OthersProductSplit(cells, A, a, B, b, asg);
      MulCycle(a, b, OthersProduct(cells, A, B, asg));
    }
  }

  /** A '-' or '/' cage judges only the pair A, B, whatever the other members hold: two
      assignments that leave no other member pending get the same verdict. */
  lemma PairRulesIgnoreOthers(cages: seq<Cage>, n: int, i: int, A: Cell, a: int, B: Cell, b: int, asg1: Assignment, asg2: Assignment)
    requires Partition(cages, n)
    requires 0 <= i < |cages| && A in cages[i].cells && B in cages[i].cells
    requires cages[i].op == Minus || (cages[i].op == Divide && Min(a, b) != 0)
    requires !Pending(cages[i].cells, A, B, asg1) && !Pending(cages[i].cells, A, B, asg2)
    ensures Owned(cages, A) && Owned(cages, B)
    ensures NoZeroDivision(cages, A, a, B, b, asg1) && NoZeroDivision(cages, A, a, B, b, asg2)
    ensures Verdict(cages, A, a, B, b, asg1) == Verdict(cages, A, a, B, b, asg2)
  {
    SameCageOwned(cages, n, i, A, a, B, b, asg1);
    SameCageOwned(cages, n, i, A, a, B, b, asg2);
  }

  /** Two cells of one '=' cage, or of a cage with an unknown operator, are always rejected:
      the operator dispatch has no case for them. */
  lemma UnknownOperatorRejects(cages: seq<Cage>, n: int, i: int, A: Cell, a: int, B: Cell, b: int, asg: Assignment)
    requires Partition(cages, n)
    requires 0 <= i < |cages| && A in cages[i].cells && B in cages[i].cells
    requires cages[i].op == Equals || cages[i].op.Other?
    ensures Owned(cages, A) && Owned(cages, B) && NoZeroDivision(cages, A, a, B, b, asg)
    ensures !Verdict(cages, A, a, B, b, asg)
  {
    SameCageOwned(cages, n, i, A, a, B, b, asg);
  }

  /** Cells of two different cages: a != b, plus the target of A's cage when its operator is
      '=', and otherwise the target of B's cage when its operator is '='. */
  lemma VerdictAcrossCages(cages: seq<Cage>, n: int, i: int, j: int, A: Cell, a: int, B: Cell, b: int, asg: Assignment)
    requires Partition(cages, n)
    requires 0 <= i < |cages| && 0 <= j < |cages| && i != j
    requires A in cages[i].cells && B in cages[j].cells
    ensures Owned(cages, A) && Owned(cages, B) && NoZeroDivision(cages, A, a, B, b, asg)
    ensures Verdict(cages, A, a, B, b, asg)
        == (a != b
            && (cages[i].op == Equals ==> a == cages[i].target)
            && (cages[i].op != Equals && cages[j].op == Equals ==> b == cages[j].target))
  {
    OwnerIsUnique(cages, n, A, i);
    OwnerIsUnique(cages, n, B, j);
  }

  lemma {:induction false} OthersSumSymmetric(cells: seq<Cell>, A: Cell, B: Cell, asg: Assignment)
    requires !Pending(cells, A, B, asg)
    ensures !Pending(cells, B, A, asg)
    ensures OthersSum(cells, B, A, asg) == OthersSum(cells, A, B, asg)
    ensures OthersProduct(cells, B, A, asg) == OthersProduct(cells, A, B, asg)
  {
    if cells != [] {
      var front := cells[..|cells| - 1];
      assert forall k :: 0 <= k < |front| ==> front[k] == cells[k];
      OthersSumSymmetric(front, A, B, asg);
    }
  }

  /** The verdict does not depend on which of the two cells comes first, except when they are
      in two different '=' cages: then only the first cell's target is consulted. */
  lemma VerdictSymmetric(cages: seq<Cage>, A: Cell, a: int, B: Cell, b: int, asg: Assignment)
    requires Owned(cages, A) && Owned(cages, B) && NoZeroDivision(cages, A, a, B, b, asg)
    requires FindCage(cages, A) != FindCage(cages, B)
             ==> FindCage(cages, A).value.op != Equals || FindCage(cages, B).value.op != Equals
    ensures NoZeroDivision(cages, B, b, A, a, asg)
    ensures Verdict(cages, B, b, A, a, asg) == Verdict(cages, A, a, B, b, asg)
  {
    var cage := FindCage(cages, A).value;
    if FindCage(cages, A) == FindCage(cages, B) && !Pending(cage.cells, A, B, asg) {
      OthersSumSymmetric(cage.cells, A, B, asg);
      assert Abs(b - a) == Abs(a - b);
      assert b * a == a * b;
    }
  }

  /** Two different '=' cages: the first cell's target decides, the second's is never read. */
  lemma FixedCellsAsymmetric()
    ensures var cages := [Cage([Cell(0, 0)], Equals, 1), Cage([Cell(0, 1)], Equals, 2)];
      && Owned(cages, Cell(0, 0)) && Owned(cages, Cell(0, 1))
      && Verdict(cages, Cell(0, 0), 1, Cell(0, 1), 3, map[])
      && !Verdict(cages, Cell(0, 1), 3, Cell(0, 0), 1, map[])
  {
    var cages := [Cage([Cell(0, 0)], Equals, 1), Cage([Cell(0, 1)], Equals, 2)];
    assert FindCage(cages, Cell(0, 0)) == Some(cages[0]);
    assert FindCage(cages, Cell(0, 1)) == Some(cages[1]);
  }

  /** Verdicts on two-cell cages in row 0 and on a pair of cages, with nothing else assigned. */
  lemma VerdictExamples()
    ensures var A, B := Cell(0, 0), Cell(0, 1);
      var plus, times, quot := [Cage([A, B], Plus, 7)], [Cage([A, B], Times, 12)], [Cage([A, B], Divide, 3)];
      var apart := [Cage([A], Plus, 1), Cage([B], Plus, 2)];
      var fixed := [Cage([A], Equals, 5), Cage([B], Plus, 3)];
      && Owned(plus, A) && Owned(plus, B) && Owned(times, A) && Owned(times, B)
      && Owned(quot, A) && Owned(quot, B) && Owned(apart, A) && Owned(apart, B)
      && Owned(fixed, A) && Owned(fixed, B)
      && Verdict(plus, A, 3, B, 4, map[]) && !Verdict(plus, A, 3, B, 3, map[])
      && Verdict(times, A, 3, B, 4, map[]) && !Verdict(times, A, 2, B, 5, map[])
      && Verdict(quot, A, 1, B, 3, map[]) && Verdict(quot, A, 3, B, 1, map[]) && !Verdict(quot, A, 2, B, 3, map[])
      && !Verdict(apart, A, 2, B, 2, map[]) && Verdict(apart, A, 2, B, 3, map[])
      && Verdict(fixed, A, 5, B, 3, map[]) && !Verdict(fixed, A, 4, B, 3, map[])
  {
    var A, B := Cell(0, 0), Cell(0, 1);
    var cells := [A, B];
    assert !Pending(cells, A, B, map[]);
    assert cells[..1] == [A] && [A][..0] == [];
    assert !Pending([A], A, B, map[]) && !Pending([], A, B, map[]);
    assert OthersSum([A], A, B, map[]) == 0 && OthersProduct([A], A, B, map[]) == 1;
    assert OthersSum(cells, A, B, map[]) == 0 && OthersProduct(cells, A, B, map[]) == 1;
    var apart := [Cage([A], Plus, 1), Cage([B], Plus, 2)];
    assert FindCage(apart, B) == Some(apart[1]);
    var fixed := [Cage([A], Equals, 5), Cage([B], Plus, 3)];
    assert FindCage(fixed, B) == Some(fixed[1]);
  }

  /** The values a solution gives the members of each cage meet the cage's rule. */
  ghost predicate CageSatisfied(cage: Cage, sol: map<Cell, int>)
    requires Covers(cage.cells, sol)
  {
    match cage.op
    case Plus => Total(cage.cells, sol) == cage.target
    case Times => Product(cage.cells, sol) == cage.target
    case Minus => |cage.cells| == 2 && Abs(sol[cage.cells[0]] - sol[cage.cells[1]]) == cage.target
    case Divide => |cage.cells| == 2 && Max(sol[cage.cells[0]], sol[cage.cells[1]]) == cage.target * Min(sol[cage.cells[0]], sol[cage.cells[1]])
    case Equals => |cage.cells| == 1 && sol[cage.cells[0]] == cage.target
    case Other(_) => false
  }

  /** sol solves the puzzle: every cell holds 1..n, no value repeats in a row or a column, and
      every cage meets its rule. */
  ghost predicate Solves(sol: map<Cell, int>, n: int, cages: seq<Cage>)
  {
    && Partition(cages, n)
    && (forall v :: InGrid(v, n) ==> v in sol && 1 <= sol[v] <= n)
    && (forall v, w :: InGrid(v, n) && InGrid(w, n) && v != w && SameRowOrColumn(v, w) ==> sol[v] != sol[w])
    && (forall i :: 0 <= i < |cages| ==> Covers(cages[i].cells, sol) && CageSatisfied(cages[i], sol))
  }

  /** Two valuations that agree on the members give the same total and product. */
  lemma {:induction false} AgreeingValues(cells: seq<Cell>, v1: map<Cell, int>, v2: map<Cell, int>)
    requires Covers(cells, v1) && Covers(cells, v2)
    requires forall k :: 0 <= k < |cells| ==> v1[cells[k]] == v2[cells[k]]
    ensures Total(cells, v1) == Total(cells, v2) && Product(cells, v1) == Product(cells, v2)
  {
    if cells != [] {
      var front := cells[..|cells| - 1];
      assert forall k :: 0 <= k < |front| ==> front[k] == cells[k];
      AgreeingValues(front, v1, v2);
    }
  }

  /** Soundness within a cage: a solution's values for two members pass the check. */
  lemma SolutionPassesCageCheck(n: int, cages: seq<Cage>, sol: map<Cell, int>, i: int, A: Cell, B: Cell, asg: Assignment)
    requires Solves(sol, n, cages)
    requires 0 <= i < |cages| && A in cages[i].cells && B in cages[i].cells && A != B
    requires forall v :: v in asg && v != A && v != B ==> v in sol && asg[v] == sol[v]
    ensures A in sol && B in sol
    ensures Owned(cages, A) && Owned(cages, B) && NoZeroDivision(cages, A, sol[A], B, sol[B], asg)
    ensures Verdict(cages, A, sol[A], B, sol[B], asg)
  {
    var cage := cages[i];
    var a, b := sol[A], sol[B];
    SameCageOwned(cages, n, i, A, a, B, b, asg);
    assert SameRowOrColumn(A, B) ==> a != b;
    if Pending(cage.cells, A, B, asg) {
      VerdictDefersPendingCage(cages, n, i, A, a, B, b, asg);
    } else if cage.op == Plus || cage.op == Times {
      VerdictOnCompleteCage(cages, n, i, A, a, B, b, asg);
      var vals := asg[A := a][B := b];
      forall k | 0 <= k < |cage.cells|
        ensures vals[cage.cells[k]] == sol[cage.cells[k]]
      {
        if cage.cells[k] != A && cage.cells[k] != B {
          assert cage.cells[k] in asg;
        }
      }
      AgreeingValues(cage.cells, vals, sol);
    } else {
      assert cage.cells[0] == A || cage.cells[0] == B;
      assert cage.cells[1] == A || cage.cells[1] == B;
    }
  }

  /** Soundness across cages: a solution's values for two cells of different cages that share
      a row or a column pass the check. */
  lemma SolutionPassesCrossCheck(n: int, cages: seq<Cage>, sol: map<Cell, int>, i: int, j: int, A: Cell, B: Cell, asg: Assignment)
    requires Solves(sol, n, cages)
    requires 0 <= i < |cages| && 0 <= j < |cages| && i != j
    requires A in cages[i].cells && B in cages[j].cells && SameRowOrColumn(A, B)
    ensures A in sol && B in sol
    ensures Owned(cages, A) && Owned(cages, B) && NoZeroDivision(cages, A, sol[A], B, sol[B], asg)
    ensures Verdict(cages, A, sol[A], B, sol[B], asg)
  {
    VerdictAcrossCages(cages, n, i, j, A, sol[A], B, sol[B], asg);
    assert InGrid(A, n) && InGrid(B, n) && A != B;
    if cages[i].op == Equals {
      assert cages[i].cells[0] == A;
    }
    if cages[j].op == Equals {
      assert cages[j].cells[0] == B;
    }
  }

  /** Soundness: whatever the solver has assigned so far, as long as it agrees with a solution,
      the check on any two neighbours holding their values in that solution passes. The search
      can therefore never prune a solution. */
  lemma SolutionPassesEveryCheck(n: int, cages: seq<Cage>, sol: map<Cell, int>, A: Cell, B: Cell, asg: Assignment)
    requires Solves(sol, n, cages)
    requires InGrid(A, n) && B in Neighbors(n, cages)[A]
    requires forall v :: v in asg && v != A && v != B ==> v in sol && asg[v] == sol[v]
    ensures A in sol && B in sol
    ensures Owned(cages, A) && Owned(cages, B) && NoZeroDivision(cages, A, sol[A], B, sol[B], asg)
    ensures Verdict(cages, A, sol[A], B, sol[B], asg)
  {
    assert Partition(cages, n);
    NeighborRelation(n, cages, A, B);
    assert InGrid(B, n) && A != B;
    var i :| 0 <= i < |cages| && A in cages[i].cells;
    var j :| 0 <= j < |cages| && B in cages[j].cells;
    if i == j {
      SolutionPassesCageCheck(n, cages, sol, i, A, B, asg);
    } else {
      assert !SharesCage(cages, A, B);
      SolutionPassesCrossCheck(n, cages, sol, i, j, A, B, asg);
    }
  }

  /** The cage shapes of a KenKen puzzle: '=' cages are single cells, '-' and '/' cages are
      pairs, '+' and '*' cages have at least two cells, and no other operator occurs. */
  ghost predicate StandardCages(cages: seq<Cage>)
  {
    forall i :: 0 <= i < |cages| ==>
      match cages[i].op
      case Equals => |cages[i].cells| == 1
      case Minus => |cages[i].cells| == 2
      case Divide => |cages[i].cells| == 2
      case Plus => |cages[i].cells| >= 2
      case Times => |cages[i].cells| >= 2
      case Other(_) => false
  }

  /** A complete assignment, used as the solver's assignment too, passes the check on every
      pair of neighbours. */
  ghost predicate PassesEveryCheck(sol: map<Cell, int>, n: int, cages: seq<Cage>)
    requires CagesInGrid(cages, n)
  {
    forall v, w :: InGrid(v, n) && w in Neighbors(n, cages)[v] ==> PairPasses(cages, sol, v, w)
  }

  /** The check on v and w passes, with sol as the solver's assignment. */
  ghost predicate PairPasses(cages: seq<Cage>, sol: map<Cell, int>, v: Cell, w: Cell)
  {
    && v in sol && w in sol && Owned(cages, v) && Owned(cages, w)
    && NoZeroDivision(cages, v, sol[v], w, sol[w], sol)
    && Verdict(cages, v, sol[v], w, sol[w], sol)
  }

  /** One pair of neighbours, with the solution as the solver's assignment. */
  lemma SolutionPassesOwnCheck(n: int, cages: seq<Cage>, sol: map<Cell, int>, v: Cell, w: Cell)
    requires Solves(sol, n, cages)
    requires CagesInGrid(cages, n) && InGrid(v, n) && w in Neighbors(n, cages)[v]
    ensures && v in sol && w in sol && Owned(cages, v) && Owned(cages, w)
            && NoZeroDivision(cages, v, sol[v], w, sol[w], sol)
            && Verdict(cages, v, sol[v], w, sol[w], sol)
  {
    SolutionPassesEveryCheck(n, cages, sol, v, w, sol);
  }

  /** A solution, taken as the solver's complete assignment, passes the check on every pair
      of neighbours. */
  lemma SolutionPassesAllChecks(n: int, cages: seq<Cage>, sol: map<Cell, int>)
    requires Solves(sol, n, cages)
    ensures CagesInGrid(cages, n) && PassesEveryCheck(sol, n, cages)
  {
    assert Partition(cages, n);
    forall v, w | InGrid(v, n) && w in Neighbors(n, cages)[v]
      ensures PairPasses(cages, sol, v, w)
    {
      SolutionPassesOwnCheck(n, cages, sol, v, w);
    }
  }

  /** An '=' cage is met once its cell passes the check against a neighbour outside it. */
  lemma FixedCageChecked(n: int, cages: seq<Cage>, sol: map<Cell, int>, i: int, j: int, w: Cell)
    requires Partition(cages, n)
    requires 0 <= i < |cages| && cages[i].op == Equals && |cages[i].cells| == 1
    requires 0 <= j < |cages| && w in cages[j].cells && w != cages[i].cells[0]
    requires cages[i].cells[0] in sol && w in sol
    requires Owned(cages, cages[i].cells[0]) && Owned(cages, w)
    requires NoZeroDivision(cages, cages[i].cells[0], sol[cages[i].cells[0]], w, sol[w], sol)
    requires Verdict(cages, cages[i].cells[0], sol[cages[i].cells[0]], w, sol[w], sol)
    ensures Covers(cages[i].cells, sol) && CageSatisfied(cages[i], sol)
  {
    var c := cages[i].cells[0];
    assert j != i;
    VerdictAcrossCages(cages, n, i, j, c, sol[c], w, sol[w], sol);
  }

  /** A cage of two or more cells is met once its first two members pass the check. */
  lemma ArithmeticCageChecked(n: int, cages: seq<Cage>, sol: map<Cell, int>, i: int)
    requires Partition(cages, n) && StandardCages(cages)
    requires 0 <= i < |cages| && cages[i].op != Equals
    requires forall k :: 0 <= k < |cages[i].cells| ==> cages[i].cells[k] in sol
    requires |cages[i].cells| >= 2
    requires Owned(cages, cages[i].cells[0]) && Owned(cages, cages[i].cells[1])
    requires NoZeroDivision(cages, cages[i].cells[0], sol[cages[i].cells[0]], cages[i].cells[1], sol[cages[i].cells[1]], sol)
    requires Verdict(cages, cages[i].cells[0], sol[cages[i].cells[0]], cages[i].cells[1], sol[cages[i].cells[1]], sol)
    ensures Covers(cages[i].cells, sol) && CageSatisfied(cages[i], sol)
  {
    var cage := cages[i];
    var A, B := cage.cells[0], cage.cells[1];
    assert !Pending(cage.cells, A, B, sol);
    if cage.op == Plus || cage.op == Times {
      VerdictOnCompleteCage(cages, n, i, A, sol[A], B, sol[B], sol);
      assert sol[A := sol[A]][B := sol[B]] == sol;
    } else {
      SameCageOwned(cages, n, i, A, sol[A], B, sol[B], sol);
    }
  }

  /** An '=' cage of a complete assignment that passes every check is met: its cell has a
      row neighbour when n >= 2, and the check against it reads the cage's target. */
  lemma CheckedFixedCage(n: int, cages: seq<Cage>, sol: map<Cell, int>, i: int)
    requires Partition(cages, n) && n >= 2
    requires forall v :: InGrid(v, n) ==> v in sol && 1 <= sol[v] <= n
    requires PassesEveryCheck(sol, n, cages)
    requires 0 <= i < |cages| && cages[i].op == Equals && |cages[i].cells| == 1
    ensures Covers(cages[i].cells, sol) && CageSatisfied(cages[i], sol)
  {
    var c := cages[i].cells[0];
    var w := Cell(c.row, if c.col == 0 then 1 else 0);
    NeighborRelation(n, cages, c, w);
    assert w in Neighbors(n, cages)[c];
    var j :| 0 <= j < |cages| && w in cages[j].cells;
    FixedCageChecked(n, cages, sol, i, j, w);
  }

  /** A cage of two or more cells of a complete assignment that passes every check is met:
      its first two members are neighbours. */
  lemma CheckedArithmeticCage(n: int, cages: seq<Cage>, sol: map<Cell, int>, i: int)
    requires Partition(cages, n) && StandardCages(cages)
    requires forall v :: InGrid(v, n) ==> v in sol && 1 <= sol[v] <= n
    requires PassesEveryCheck(sol, n, cages)
    requires 0 <= i < |cages| && cages[i].op != Equals
    ensures Covers(cages[i].cells, sol) && CageSatisfied(cages[i], sol)
  {
    var cage := cages[i];
    assert forall k :: 0 <= k < |cage.cells| ==> cage.cells[k] in sol by {
      assert forall k :: 0 <= k < |cage.cells| ==> InGrid(cage.cells[k], n);
    }
    var A, B := cage.cells[0], cage.cells[1];
    assert InGrid(A, n) && B in Neighbors(n, cages)[A] by {
      assert SharesCage(cages, A, B);
      NeighborRelation(n, cages, A, B);
    }
    ArithmeticCageChecked(n, cages, sol, i);
  }

  /** Completeness: for a puzzle with the standard cage shapes and n >= 2, a complete
      assignment of 1..n that passes the check on every pair of neighbours solves the puzzle.
      Together with SolutionPassesEveryCheck, the pairwise checks capture the puzzle exactly. */
  lemma EveryCheckPassedSolves(n: int, cages: seq<Cage>, sol: map<Cell, int>)
    requires Partition(cages, n) && StandardCages(cages) && n >= 2
    requires forall v :: InGrid(v, n) ==> v in sol && 1 <= sol[v] <= n
    requires PassesEveryCheck(sol, n, cages)
    ensures Solves(sol, n, cages)
  {
    forall v, w | InGrid(v, n) && InGrid(w, n) && v != w && SameRowOrColumn(v, w)
      ensures sol[v] != sol[w]
    {
      NeighborRelation(n, cages, v, w);
    }
    forall i | 0 <= i < |cages|
      ensures Covers(cages[i].cells, sol) && CageSatisfied(cages[i], sol)
    {
      if cages[i].op == Equals {
        CheckedFixedCage(n, cages, sol, i);
      } else {
        CheckedArithmeticCage(n, cages, sol, i);
      }
    }
  }

  /** On a 1-by-1 grid the only cell has no neighbour, so no check ever reads the target of
      its '=' cage: the file `1`, `5#0#=` is passed by the value 1, which is not a solution. */
  lemma OneByOneTargetUnchecked()
    ensures Partition([Cage([Cell(0, 0)], Equals, 5)], 1)
    ensures PassesEveryCheck(map[Cell(0, 0) := 1], 1, [Cage([Cell(0, 0)], Equals, 5)])
    ensures !Solves(map[Cell(0, 0) := 1], 1, [Cage([Cell(0, 0)], Equals, 5)])
  {
    var cages := [Cage([Cell(0, 0)], Equals, 5)];
    forall v | InGrid(v, 1)
      ensures v == Cell(0, 0) && v in cages[0].cells
    {
      assert v == Cell(v.row, v.col);
    }
    forall v, w | InGrid(v, 1)
      ensures v in Neighbors(1, cages) && w !in Neighbors(1, cages)[v]
    {
      NeighborRelation(1, cages, v, w);
      if InGrid(w, 1) {
        assert w == Cell(w.row, w.col);
      }
    }
    assert !CageSatisfied(cages[0], map[Cell(0, 0) := 1]);
  }

  function TwoByTwoCages(): seq<Cage>
  {
    [Cage([Cell(0, 0), Cell(0, 1)], Plus, 3), Cage([Cell(1, 0), Cell(1, 1)], Times, 2)]
  }

  /** A cell of the 2-by-2 grid is one of its four cells. */
  lemma TwoByTwoCells(v: Cell)
    requires InGrid(v, 2)
    ensures v == Cell(0, 0) || v == Cell(0, 1) || v == Cell(1, 0) || v == Cell(1, 1)
  {
    assert v == Cell(v.row, v.col);
  }

  lemma TwoByTwoPartition()
    ensures Partition(TwoByTwoCages(), 2)
  {
    var cages := TwoByTwoCages();
    forall v | InGrid(v, 2)
      ensures exists i :: 0 <= i < |cages| && v in cages[i].cells
    {
      TwoByTwoCells(v);
      if v.row == 0 {
        assert v in cages[0].cells;
      } else {
        assert v in cages[1].cells;
      }
    }
  }

  /** A map of the four cells holding 1 and 2, different along each row and column, is a
      Latin square of order 2. */
  lemma TwoByTwoLatin(sol: map<Cell, int>)
    requires Cell(0, 0) in sol && Cell(0, 1) in sol && Cell(1, 0) in sol && Cell(1, 1) in sol
    requires sol[Cell(0, 0)] != sol[Cell(0, 1)] && sol[Cell(1, 0)] != sol[Cell(1, 1)]
    requires sol[Cell(0, 0)] != sol[Cell(1, 0)] && sol[Cell(0, 1)] != sol[Cell(1, 1)]
    requires forall v :: v in sol ==> 1 <= sol[v] <= 2
    ensures forall v :: InGrid(v, 2) ==> v in sol && 1 <= sol[v] <= 2
    ensures forall v, w :: InGrid(v, 2) && InGrid(w, 2) && v != w && SameRowOrColumn(v, w) ==> sol[v] != sol[w]
  {
    forall v | InGrid(v, 2)
      ensures v in sol
    {
      TwoByTwoCells(v);
    }
    forall v, w | InGrid(v, 2) && InGrid(w, 2) && v != w && SameRowOrColumn(v, w)
      ensures sol[v] != sol[w]
    {
      TwoByTwoCells(v);
      TwoByTwoCells(w);
    }
  }

  /** Both Latin squares of order 2 solve the 2-by-2 puzzle. */
  lemma TwoByTwoSquaresSolve()
    ensures Solves(map[Cell(0, 0) := 1, Cell(0, 1) := 2, Cell(1, 0) := 2, Cell(1, 1) := 1], 2, TwoByTwoCages())
    ensures Solves(map[Cell(0, 0) := 2, Cell(0, 1) := 1, Cell(1, 0) := 1, Cell(1, 1) := 2], 2, TwoByTwoCages())
  {
    var top, bottom := [Cell(0, 0), Cell(0, 1)], [Cell(1, 0), Cell(1, 1)];
    assert top[..1] == [Cell(0, 0)] && bottom[..1] == [Cell(1, 0)];
    assert [Cell(0, 0)][..0] == [] && [Cell(1, 0)][..0] == [];
    TwoByTwoPartition();
    TwoByTwoLatin(map[Cell(0, 0) := 1, Cell(0, 1) := 2, Cell(1, 0) := 2, Cell(1, 1) := 1]);
    TwoByTwoLatin(map[Cell(0, 0) := 2, Cell(0, 1) := 1, Cell(1, 0) := 1, Cell(1, 1) := 2]);
  }

  /** The 2-by-2 puzzle whose rows are a '+' cage of target 3 and a '*' cage of target 2 has
      two solutions, one the other with its rows swapped, and each passes every check. */
  lemma TwoByTwoSolutions()
    ensures Solves(map[Cell(0, 0) := 1, Cell(0, 1) := 2, Cell(1, 0) := 2, Cell(1, 1) := 1], 2, TwoByTwoCages())
    ensures Solves(map[Cell(0, 0) := 2, Cell(0, 1) := 1, Cell(1, 0) := 1, Cell(1, 1) := 2], 2, TwoByTwoCages())
    ensures PassesEveryCheck(map[Cell(0, 0) := 1, Cell(0, 1) := 2, Cell(1, 0) := 2, Cell(1, 1) := 1], 2, TwoByTwoCages())
    ensures PassesEveryCheck(map[Cell(0, 0) := 2, Cell(0, 1) := 1, Cell(1, 0) := 1, Cell(1, 1) := 2], 2, TwoByTwoCages())
  {
    TwoByTwoSquaresSolve();
    SolutionPassesAllChecks(2, TwoByTwoCages(), map[Cell(0, 0) := 1, Cell(0, 1) := 2, Cell(1, 0) := 2, Cell(1, 1) := 1]);
    SolutionPassesAllChecks(2, TwoByTwoCages(), map[Cell(0, 0) := 2, Cell(0, 1) := 1, Cell(1, 0) := 1, Cell(1, 1) := 2]);
  }

  /** There are no other solutions: any solution gives the four cells the values of one of
      the two above. */
  lemma TwoByTwoOnlySolutions(sol: map<Cell, int>)
    requires Solves(sol, 2, TwoByTwoCages())
    ensures || (sol[Cell(0, 0)] == 1 && sol[Cell(0, 1)] == 2 && sol[Cell(1, 0)] == 2 && sol[Cell(1, 1)] == 1)
            || (sol[Cell(0, 0)] == 2 && sol[Cell(0, 1)] == 1 && sol[Cell(1, 0)] == 1 && sol[Cell(1, 1)] == 2)
  {
    var c00, c01, c10, c11 := Cell(0, 0), Cell(0, 1), Cell(1, 0), Cell(1, 1);
    assert InGrid(c00, 2) && InGrid(c01, 2) && InGrid(c10, 2) && InGrid(c11, 2);
    assert SameRowOrColumn(c00, c01) && SameRowOrColumn(c00, c10);
    assert SameRowOrColumn(c01, c11) && SameRowOrColumn(c10, c11);
  }

  lemma TwoByTwoTopLine()
    ensures ParseCage("3#0-1#+", 2) == Some(TwoByTwoCages()[0])
  {
    assert FormatCage(3, [0, 1], "+") == "3#0-1#+";
    ParseFormatCage(3, [0, 1], "+", 2);
    var cells := seq(2, i requires 0 <= i < 2 => CellAt([0, 1][i], 2));
    assert cells[0] == Cell(0, 0) && cells[1] == Cell(0, 1);
    assert cells == [Cell(0, 0), Cell(0, 1)];
  }

  lemma TwoByTwoBottomLine()
    ensures ParseCage("2#2-3#*", 2) == Some(TwoByTwoCages()[1])
  {
    assert FormatCage(2, [2, 3], "*") == "2#2-3#*";
    ParseFormatCage(2, [2, 3], "*", 2);
    var cells := seq(2, i requires 0 <= i < 2 => CellAt([2, 3][i], 2));
    assert cells[0] == Cell(1, 0) && cells[1] == Cell(1, 1);
    assert cells == [Cell(1, 0), Cell(1, 1)];
  }

  lemma TwoByTwoLines(lines: seq<string>)
    requires lines == ["2", "3#0-1#+", "2#2-3#*"]
    ensures |lines| == 3 && ParseInt(lines[0]) == Some(2)
    ensures forall i :: 0 <= i < 2 ==> ParseCage(lines[i + 1], 2) == Some(TwoByTwoCages()[i])
  {
    assert "2"[..0] == [];
    TwoByTwoTopLine();
    TwoByTwoBottomLine();
  }

  /** The puzzle file of TwoByTwoSolutions, as the constructor reads it. */
  lemma TwoByTwoFile(lines: seq<string>)
    requires lines == ["2", "3#0-1#+", "2#2-3#*"]
    ensures ParsePuzzle(lines) == Some(Puzzle(2, TwoByTwoCages()))
  {
    TwoByTwoLines(lines);
    ParsePuzzleLines(lines, 2, TwoByTwoCages());
  }
}
