/** Cage descriptors `target#k1-k2-...-km#op`, as the KenKen constructor reads them: the
    target with `int`, the member numbers split on '-' and looked up in the grid map, the
    operator kept as written. The program validates nothing itself; every place where it
    would raise (a missing field, a non-numeric target or member, a member number outside the
    grid) is None here. */
module Cages {
  import opened Lists
  import opened Text
  import opened Grid

  /** The operator field; any text other than the five operators is kept as it is. */
  datatype Op = Plus | Minus | Times | Divide | Equals | Other(symbol: string)

  datatype Cage = Cage(cells: seq<Cell>, op: Op, target: int)

  /** A puzzle file once read: the grid size and the cages in file order. */
  datatype Puzzle = Puzzle(size: int, cages: seq<Cage>)

  function ParseOp(s: string): Op
  {
    if s == "+" then Plus
    else if s == "-" then Minus
    else if s == "*" then Times
    else if s == "/" then Divide
    else if s == "=" then Equals
    else Other(s)
  }

  function OpSymbol(o: Op): string
  {
    match o
    case Plus => "+"
    case Minus => "-"
    case Times => "*"
    case Divide => "/"
    case Equals => "="
    case Other(s) => s
  }

  /** Reading the operator loses nothing: the text can always be recovered. */
  lemma OpSymbolOfParse(s: string)
    ensures OpSymbol(ParseOp(s)) == s
  {
  }

  /** `grid_map[int(key)]`; None where `int` or the dictionary lookup raises. */
  function KeyCell(key: string, n: int): (r: Option<Cell>)
    ensures r.Some? ==> InGrid(r.value, n)
  {
    match ParseInt(key)
    case None => None
    case Some(k) =>
      if 0 <= k < CellCount(n) then
        CellAtInverse(k, n);
        Some(CellAt(k, n))
      else None
  }

  /** The cage's member list, in descriptor order. */
  function KeyCells(keys: seq<string>, n: int): Option<seq<Cell>>
  {
    if forall i :: 0 <= i < |keys| ==> KeyCell(keys[i], n).Some? then
      Some(seq(|keys|, i requires 0 <= i < |keys| => KeyCell(keys[i], n).value))
    else None
  }

  /** One descriptor line read as the constructor does. */
  function ParseCage(line: string, n: int): (r: Option<Cage>)
    ensures r.Some? ==> |r.value.cells| >= 1
    ensures r.Some? ==> forall x :: x in r.value.cells ==> InGrid(x, n)
  {
    var fields := Split(line, '#');
    if |fields| < 3 then None
    else
      match ParseInt(fields[0])
      case None => None
      case Some(target) =>
        match KeyCells(Split(fields[1], '-'), n)
        case None => None
        case Some(cells) => Some(Cage(cells, ParseOp(fields[2]), target))
  }

  /** The constructor's reading of one descriptor line (kenken.py lines 60-70), with the grid
      map it built. */
  method ParseCageLine(line: string, gridMap: map<nat, Cell>, ghost n: int) returns (r: Option<Cage>)
    requires IsGridMap(gridMap, n)
    ensures r == ParseCage(line, n)
  {
    var fields := Split(line, '#');
    if |fields| < 3 {
      return None;
    }
    var cageValue := ParseInt(fields[0]);
    if cageValue.None? {
      return None;
    }
    var keys := Split(fields[1], '-');
    var c := [];
    for k := 0 to |keys|
      invariant |c| == k
      invariant forall i :: 0 <= i < k ==> KeyCell(keys[i], n).Some? && c[i] == KeyCell(keys[i], n).value
    {
      var index := ParseInt(keys[k]);
      if index.None? || index.value < 0 || index.value as nat !in gridMap {
        assert KeyCell(keys[k], n).None?;
        return None;
      }
      c := c + [gridMap[index.value as nat]];
    }
    assert c == seq(|keys|, i requires 0 <= i < |keys| => KeyCell(keys[i], n).value);
    r := Some(Cage(c, ParseOp(fields[2]), cageValue.value));
  }

  /** The descriptor text for a cage with the given target, member numbers and operator text. */
  function FormatCage(target: int, keys: seq<nat>, op: string): string
    requires |keys| >= 1
  {
    Join([IntToString(target), Join(KeyTexts(keys), '-'), op], '#')
  }

  function KeyTexts(keys: seq<nat>): seq<string>
  {
    seq(|keys|, i requires 0 <= i < |keys| => NatToString(keys[i]))
  }

  lemma {:induction false} JoinHasNo(parts: seq<string>, sep: char, c: char)
    requires |parts| >= 1 && c != sep
    requires forall i :: 0 <= i < |parts| ==> c !in parts[i]
    ensures c !in Join(parts, sep)
  {
    if |parts| > 1 {
      JoinHasNo(parts[1..], sep, c);
    }
  }

  /** Reading a descriptor gives back the record it describes: the target, the members in
      the order written (each number k as cell (k / n, k % n)) and the operator. */
  lemma ParseFormatCage(target: int, keys: seq<nat>, op: string, n: int)
    requires |keys| >= 1
    requires forall i :: 0 <= i < |keys| ==> keys[i] < CellCount(n)
    requires '#' !in op
    ensures ParseCage(FormatCage(target, keys, op), n)
         == Some(Cage(seq(|keys|, i requires 0 <= i < |keys| => CellAt(keys[i], n)), ParseOp(op), target))
  {
    var texts := KeyTexts(keys);
    KeyTextsRoundTrip(keys, n);
    JoinHasNo(texts, '-', '#');
    IntToStringHasNo(target, '#');
    var fields := [IntToString(target), Join(texts, '-'), op];
    SplitJoin(fields, '#');
    SplitJoin(texts, '-');
    ParseIntToString(target);
    assert Split(FormatCage(target, keys, op), '#') == fields;
  }

  lemma KeyTextsRoundTrip(keys: seq<nat>, n: int)
    requires forall i :: 0 <= i < |keys| ==> keys[i] < CellCount(n)
    ensures forall i :: 0 <= i < |keys| ==> '-' !in KeyTexts(keys)[i] && '#' !in KeyTexts(keys)[i]
    ensures KeyCells(KeyTexts(keys), n) == Some(seq(|keys|, i requires 0 <= i < |keys| => CellAt(keys[i], n)))
  {
    var texts := KeyTexts(keys);
    forall i | 0 <= i < |texts|
      ensures '-' !in texts[i] && '#' !in texts[i]
      ensures KeyCell(texts[i], n) == Some(CellAt(keys[i], n))
    {
      ParseIntToString(keys[i]);
      assert IntToString(keys[i]) == texts[i];
    }
    var cells := seq(|keys|, i requires 0 <= i < |keys| => CellAt(keys[i], n));
    var read := seq(|texts|, i requires 0 <= i < |texts| => KeyCell(texts[i], n).value);
    assert read == cells;
  }

  /** A sample descriptor on a 2-by-2 grid. */
  lemma ParseExample()
    ensures ParseCage("10#0-1#+", 2) == Some(Cage([Cell(0, 0), Cell(0, 1)], Plus, 10))
  {
    assert FormatCage(10, [0, 1], "+") == "10#0-1#+";
    ParseFormatCage(10, [0, 1], "+", 2);
    var cells := seq(2, i requires 0 <= i < 2 => CellAt([0, 1][i], 2));
    assert cells[0] == Cell(0, 0) && cells[1] == Cell(0, 1);
    assert cells == [Cell(0, 0), Cell(0, 1)];
  }

  /** `int(puzzle[0])` and then every remaining line as a cage, in file order. */
  function ParsePuzzle(lines: seq<string>): Option<Puzzle>
  {
    if lines == [] then None
    else
      match ParseInt(lines[0])
      case None => None
      case Some(n) =>
        var rest := lines[1..];
        if forall i :: 0 <= i < |rest| ==> ParseCage(rest[i], n).Some? then
          Some(Puzzle(n, seq(|rest|, i requires 0 <= i < |rest| => ParseCage(rest[i], n).value)))
        else None
  }

  /** A file is read as its size line followed by its cage lines, in order. */
  lemma ParsePuzzleLines(lines: seq<string>, n: int, cages: seq<Cage>)
    requires |lines| == |cages| + 1 && ParseInt(lines[0]) == Some(n)
    requires forall i :: 0 <= i < |cages| ==> ParseCage(lines[i + 1], n) == Some(cages[i])
    ensures ParsePuzzle(lines) == Some(Puzzle(n, cages))
  {
    var rest := lines[1..];
    assert forall i :: 0 <= i < |rest| ==> ParseCage(rest[i], n) == Some(cages[i]);
    assert seq(|rest|, i requires 0 <= i < |rest| => ParseCage(rest[i], n).value) == cages;
  }

  ghost predicate CagesInGrid(cages: seq<Cage>, n: int)
  {
    forall i, x :: 0 <= i < |cages| && x in cages[i].cells ==> InGrid(x, n)
  }

  /** A parsed puzzle only ever has members inside the grid and at least one per cage. */
  lemma ParsedCagesInGrid(lines: seq<string>)
    requires ParsePuzzle(lines).Some?
    ensures CagesInGrid(ParsePuzzle(lines).value.cages, ParsePuzzle(lines).value.size)
    ensures forall c :: c in ParsePuzzle(lines).value.cages ==> |c.cells| >= 1
  {
  }

  /** What the constructor assumes and never checks: every cell of the grid is in exactly one
      cage, and no cage names a cell twice. */
  ghost predicate Partition(cages: seq<Cage>, n: int)
  {
    && CagesInGrid(cages, n)
    && (forall i :: 0 <= i < |cages| ==> NoDup(cages[i].cells))
    && (forall v :: InGrid(v, n) ==> exists i :: 0 <= i < |cages| && v in cages[i].cells)
    && (forall i, j, v :: 0 <= i < j < |cages| && v in cages[i].cells ==> v !in cages[j].cells)
  }
}
