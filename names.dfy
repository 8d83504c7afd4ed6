/** The program names the variable of cell (i, j) `"X" + str(i) + str(j)` and reads a row and
    column back as the digits at positions 1 and 2 of a name. The rest of the model identifies
    a variable with its cell; this module shows that the two agree up to 10 by 10 and where
    they part beyond it. */
module Names {
  import opened Text
  import opened Grid

  /** `"X" + str(i) + str(j)`. */
  function VarName(v: Cell): string
  {
    "X" + NatToString(v.row) + NatToString(v.col)
  }

  /** `int(A[1]), int(A[2])`: the digits at positions 1 and 2 of a name. */
  function NameRowCol(name: string): (rc: (nat, nat))
    requires |name| >= 3 && IsDigit(name[1]) && IsDigit(name[2])
    ensures rc.0 <= 9 && rc.1 <= 9
  {
    (name[1] as int - '0' as int, name[2] as int - '0' as int)
  }

  /** `is_in_same_row_or_column`, on names as written. */
  predicate NamesShareLine(nameA: string, nameB: string)
    requires |nameA| >= 3 && IsDigit(nameA[1]) && IsDigit(nameA[2])
    requires |nameB| >= 3 && IsDigit(nameB[1]) && IsDigit(nameB[2])
  {
    var (ai, aj) := NameRowCol(nameA);
    var (bi, bj) := NameRowCol(nameB);
    ai == bi || aj == bj
  }

  /** A name is "X" followed by the digits of the row and then of the column. */
  lemma VarNameShape(v: Cell)
    ensures |VarName(v)| >= 3 && VarName(v)[0] == 'X'
    ensures IsDigit(VarName(v)[1]) && IsDigit(VarName(v)[2])
  {
    var r, c := NatToString(v.row), NatToString(v.col);
    assert VarName(v) == ['X'] + r + c;
    if |r| == 1 {
      assert VarName(v)[2] == c[0];
    }
  }

  lemma SmallName(v: Cell)
    requires v.row <= 9 && v.col <= 9
    ensures VarName(v) == ['X', ('0' as int + v.row) as char, ('0' as int + v.col) as char]
  {
  }

  /** Up to 10 by 10 the names are exact: distinct cells get distinct names, and reading a
      name back gives its cell's row and column, so the program's row-or-column test is the
      one on cells. */
  lemma NamesExactUpToTen(v: Cell, w: Cell, n: int)
    requires n <= 10 && InGrid(v, n) && InGrid(w, n)
    ensures VarName(v) == VarName(w) <==> v == w
    ensures |VarName(v)| >= 3 && IsDigit(VarName(v)[1]) && IsDigit(VarName(v)[2])
    ensures NameRowCol(VarName(v)) == (v.row, v.col)
    ensures |VarName(w)| >= 3 && IsDigit(VarName(w)[1]) && IsDigit(VarName(w)[2])
    ensures NamesShareLine(VarName(v), VarName(w)) == SameRowOrColumn(v, w)
  {
    SmallName(v);
    SmallName(w);
    if VarName(v) == VarName(w) {
      assert VarName(v)[1] == VarName(w)[1] && VarName(v)[2] == VarName(w)[2];
    }
  }

  /** From 12 by 12 on, two cells share a name: (1, 11) and (11, 1) are both "X111". */
  lemma NamesCollideFromTwelve()
    ensures InGrid(Cell(1, 11), 12) && InGrid(Cell(11, 1), 12)
    ensures VarName(Cell(1, 11)) == VarName(Cell(11, 1)) == "X111"
  {
    assert NatToString(11) == "11";
    assert NatToString(1) == "1";
  }

  /** From 11 by 11 on, the digit reading is wrong: cell (10, 0) is read as row 1, column 0,
      so it is taken to share a row with (1, 5), which it does not. */
  lemma DigitReadingWrongFromEleven()
    ensures InGrid(Cell(10, 0), 11) && InGrid(Cell(1, 5), 11)
    ensures VarName(Cell(10, 0)) == "X100" && VarName(Cell(1, 5)) == "X15"
    ensures NameRowCol("X100") == (1, 0)
    ensures NamesShareLine("X100", "X15") && !SameRowOrColumn(Cell(10, 0), Cell(1, 5))
  {
    assert NatToString(10) == "10";
  }
}
