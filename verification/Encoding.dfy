/** Sudoku as an exact cover problem: the columns and rows the solver lays out for a board, and the
    proof that covering them is the same as completing the board. */
module Encoding {
  import opened SudokuRules
  import opened ExactCover

  const COLUMN_NAMES: nat := 400

  function FirstName(kind: Kind): nat
  {
    match kind
    case Row => 100
    case Col => 200
    case Box => 300
  }

  /** The name of the column "digit v stands in unit u"; a cell's column is named by the cell. */
  function UnitName(kind: Kind, u: nat, v: nat): (n: nat)
    requires u < 9 && 1 <= v <= 9
    ensures CELLS <= 100 <= n < COLUMN_NAMES && n % 10 == v
  {
    FirstName(kind) + u * 10 + v
  }

  lemma UnitNameInjective(k1: Kind, u1: nat, v1: nat, k2: Kind, u2: nat, v2: nat)
    requires u1 < 9 && 1 <= v1 <= 9 && u2 < 9 && 1 <= v2 <= 9
    requires UnitName(k1, u1, v1) == UnitName(k2, u2, v2)
    ensures k1 == k2 && u1 == u2 && v1 == v2
  {
  }

  /** What remains to be done on board b: fill the empty cells, and place in each unit the digits it lacks. */
  ghost predicate Needed(b: Grid, n: nat)
    requires |b| == CELLS
  {
    (n < CELLS && b[n] == 0) || NeededInUnit(b, n)
  }

  ghost predicate NeededInUnit(b: Grid, n: nat)
    requires |b| == CELLS
  {
    exists kind, u: nat, v: nat :: u < 9 && 1 <= v <= 9 && n == UnitName(kind, u, v) && !StandsIn(b, kind, u, v)
  }

  /** Digit v may go into cell i: the cell is empty and no given digit forbids it. */
  ghost predicate IsCandidate(b: Grid, i: nat, v: nat)
    requires |b| == CELLS
  {
    i < CELLS && b[i] == 0 && 1 <= v <= 9 && forall kind :: !StandsIn(b, kind, UnitOf(kind, i), v)
  }

  /** columns[n] is the column called n, or 0 where there is none. */
  ghost predicate IsDirectory(b: Grid, columns: seq<nat>)
  {
    && |b| == CELLS && |columns| == COLUMN_NAMES
    && (forall n: nat | n < COLUMN_NAMES :: columns[n] != 0 <==> Needed(b, n))
    && (forall n, k | 0 <= n < k < COLUMN_NAMES && columns[n] != 0 :: columns[n] != columns[k])
  }

  /** The columns that digit v in cell i fills. */
  ghost function Filled(columns: seq<nat>, i: nat, v: nat): set<nat>
    requires |columns| == COLUMN_NAMES && i < CELLS && 1 <= v <= 9
  {
    {columns[i], columns[UnitName(Row, UnitOf(Row, i), v)], columns[UnitName(Col, UnitOf(Col, i), v)],
     columns[UnitName(Box, UnitOf(Box, i), v)]}
  }

  /** p is the exact cover problem laid out for board b. */
  ghost predicate Encodes(b: Grid, columns: seq<nat>, p: Problem)
  {
    && IsDirectory(b, columns)
    && (forall c :: c in p.cols <==> c != 0 && c in columns)
    && (forall i: nat, v: nat | IsCandidate(b, i, v) :: Filled(columns, i, v) in p.rows)
    && (forall r | r in p.rows :: IsFilled(b, columns, r))
  }

  ghost predicate IsFilled(b: Grid, columns: seq<nat>, r: set<nat>)
    requires |b| == CELLS && |columns| == COLUMN_NAMES
  {
    exists i: nat, v: nat :: IsCandidate(b, i, v) && r == Filled(columns, i, v)
  }

  // ----- the columns of a candidate

  lemma CandidateNeeds(b: Grid, i: nat, v: nat, kind: Kind)
    requires |b| == CELLS && IsCandidate(b, i, v)
    ensures Needed(b, i) && Needed(b, UnitName(kind, UnitOf(kind, i), v))
  {
    assert !StandsIn(b, kind, UnitOf(kind, i), v);
  }

  /** A needed column is filled by a candidate exactly if the candidate meets it. */
  lemma FillsCell(b: Grid, columns: seq<nat>, i: nat, v: nat, n: nat)
    requires IsDirectory(b, columns) && IsCandidate(b, i, v) && n < CELLS && b[n] == 0
    ensures columns[n] in Filled(columns, i, v) <==> n == i
  {
    assert Needed(b, n) && columns[n] != 0;
  }

  lemma FillsUnit(b: Grid, columns: seq<nat>, i: nat, v: nat, kind: Kind, u: nat, d: nat)
    requires IsDirectory(b, columns) && IsCandidate(b, i, v) && u < 9 && 1 <= d <= 9 && !StandsIn(b, kind, u, d)
    ensures columns[UnitName(kind, u, d)] in Filled(columns, i, v) <==> UnitOf(kind, i) == u && v == d
  {
    var n := UnitName(kind, u, d);
    assert Needed(b, n) && columns[n] != 0;
    if columns[n] in Filled(columns, i, v) {
      assert n == UnitName(Row, UnitOf(Row, i), v) || n == UnitName(Col, UnitOf(Col, i), v)
        || n == UnitName(Box, UnitOf(Box, i), v);
      if n == UnitName(Row, UnitOf(Row, i), v) {
        UnitNameInjective(kind, u, d, Row, UnitOf(Row, i), v);
      } else if n == UnitName(Col, UnitOf(Col, i), v) {
        UnitNameInjective(kind, u, d, Col, UnitOf(Col, i), v);
      } else {
        UnitNameInjective(kind, u, d, Box, UnitOf(Box, i), v);
      }
    }
  }

  // ----- from a completed board to an exact cover

  lemma SolutionCandidate(b: Grid, g: Grid, i: nat)
    requires IsBoard(b) && IsSolution(g) && Agrees(g, b) && i < CELLS && b[i] == 0
    ensures IsCandidate(b, i, g[i])
  {
    forall kind ensures !StandsIn(b, kind, UnitOf(kind, i), g[i]) {
      assert forall j | 0 <= j < CELLS && UnitOf(kind, j) == UnitOf(kind, i) && b[j] != 0 ::
        g[j] == b[j] && g[j] != g[i];
    }
  }

  ghost function CoverOf(b: Grid, columns: seq<nat>, g: Grid): set<set<nat>>
    requires |columns| == COLUMN_NAMES && |b| == CELLS && IsSolution(g)
  {
    set i | 0 <= i < CELLS && b[i] == 0 :: Filled(columns, i, g[i])
  }

  /** Two different empty cells, filled as in a solution, fill no column twice. */
  lemma FillDisjoint(b: Grid, columns: seq<nat>, g: Grid, i: nat, j: nat)
    requires IsBoard(b) && IsDirectory(b, columns) && IsSolution(g) && Agrees(g, b)
    requires i < j < CELLS && b[i] == 0 && b[j] == 0
    ensures Filled(columns, i, g[i]) !! Filled(columns, j, g[j])
  {
    SolutionCandidate(b, g, i);
    SolutionCandidate(b, g, j);
    FillsCell(b, columns, j, g[j], i);
    forall kind ensures columns[UnitName(kind, UnitOf(kind, i), g[i])] !in Filled(columns, j, g[j]) {
      assert !StandsIn(b, kind, UnitOf(kind, i), g[i]);
      FillsUnit(b, columns, j, g[j], kind, UnitOf(kind, i), g[i]);
    }
  }

  /** Every column still needed is filled by some empty cell's digit in the solution. */
  lemma FillComplete(b: Grid, columns: seq<nat>, g: Grid, n: nat)
    requires IsBoard(b) && IsDirectory(b, columns) && IsSolution(g) && Agrees(g, b) && Needed(b, n)
    ensures n < COLUMN_NAMES && exists i :: 0 <= i < CELLS && b[i] == 0 && columns[n] in Filled(columns, i, g[i])
  {
    if n < CELLS && b[n] == 0 {
      assert columns[n] in Filled(columns, n, g[n]);
    } else {
      var kind, u: nat, v: nat :| u < 9 && 1 <= v <= 9 && n == UnitName(kind, u, v) && !StandsIn(b, kind, u, v);
      SolutionHasDigit(g, kind, u, v);
      var i :| 0 <= i < CELLS && UnitOf(kind, i) == u && g[i] == v;
      assert b[i] == 0;
      assert columns[n] in Filled(columns, i, g[i]);
    }
  }

  /** A solution that agrees with the board gives an exact cover of its encoding. */
  lemma GridToCover(b: Grid, columns: seq<nat>, p: Problem, g: Grid)
    requires IsBoard(b) && Encodes(b, columns, p) && IsSolution(g) && Agrees(g, b)
    ensures Solves(p, CoverOf(b, columns, g))
  {
    var e := CoverOf(b, columns, g);
    forall r | r in e ensures r in p.rows {
      var i :| 0 <= i < CELLS && b[i] == 0 && r == Filled(columns, i, g[i]);
      SolutionCandidate(b, g, i);
    }
    forall q, r | q in e && r in e && q != r ensures q !! r {
      var i :| 0 <= i < CELLS && b[i] == 0 && q == Filled(columns, i, g[i]);
      var j :| 0 <= j < CELLS && b[j] == 0 && r == Filled(columns, j, g[j]);
      if i < j {
        FillDisjoint(b, columns, g, i, j);
      } else {
        FillDisjoint(b, columns, g, j, i);
      }
    }
    forall c | c in p.cols ensures exists r :: r in e && c in r {
      var n :| 0 <= n < COLUMN_NAMES && columns[n] == c;
      FillComplete(b, columns, g, n);
      var i :| 0 <= i < CELLS && b[i] == 0 && columns[n] in Filled(columns, i, g[i]);
      assert Filled(columns, i, g[i]) in e;
    }
  }

  // ----- from an exact cover to a completed board

  /** Moves that are candidates, fill no column twice, and fill every column of p. */
  ghost predicate IsCoverMoves(b: Grid, columns: seq<nat>, p: Problem, ms: seq<Move>)
    requires |b| == CELLS && |columns| == COLUMN_NAMES
  {
    && (forall k | 0 <= k < |ms| :: IsCandidate(b, ms[k].cell, ms[k].val))
    && (forall j, k | 0 <= j < k < |ms| :: FilledBy(columns, ms[j]) !! FilledBy(columns, ms[k]))
    && (forall c | c in p.cols :: exists k :: 0 <= k < |ms| && c in FilledBy(columns, ms[k]))
  }

  ghost function FilledBy(columns: seq<nat>, x: Move): set<nat>
    requires |columns| == COLUMN_NAMES
  {
    if x.cell < CELLS && 1 <= x.val <= 9 then Filled(columns, x.cell, x.val) else {}
  }

  /** g is b with every move made. */
  ghost predicate IsAfter(b: Grid, ms: seq<Move>, g: Grid)
    requires |b| == CELLS
  {
    && |g| == CELLS
    && (forall k | 0 <= k < |ms| :: ms[k].cell < CELLS && g[ms[k].cell] == ms[k].val)
    && (forall i | 0 <= i < CELLS && (forall k | 0 <= k < |ms| :: ms[k].cell != i) :: g[i] == b[i])
  }

  /** The move that fills a needed column. */
  lemma MoveFor(b: Grid, columns: seq<nat>, p: Problem, ms: seq<Move>, n: nat) returns (k: nat)
    requires IsBoard(b) && Encodes(b, columns, p) && IsCoverMoves(b, columns, p, ms) && Needed(b, n)
    ensures n < COLUMN_NAMES && k < |ms| && columns[n] in FilledBy(columns, ms[k])
    ensures IsCandidate(b, ms[k].cell, ms[k].val)
  {
    assert n < COLUMN_NAMES;
    assert columns[n] != 0 && columns[n] in p.cols;
    k :| 0 <= k < |ms| && columns[n] in FilledBy(columns, ms[k]);
  }

  lemma CellFilled(b: Grid, columns: seq<nat>, p: Problem, ms: seq<Move>, g: Grid, i: nat)
    requires IsBoard(b) && Encodes(b, columns, p) && IsCoverMoves(b, columns, p, ms) && IsAfter(b, ms, g) && i < CELLS
    ensures 1 <= g[i] <= 9 && (b[i] != 0 ==> g[i] == b[i])
  {
    if b[i] == 0 {
      var k := MoveFor(b, columns, p, ms, i);
      FillsCell(b, columns, ms[k].cell, ms[k].val, i);
    } else {
      forall k | 0 <= k < |ms| ensures ms[k].cell != i {
        assert IsCandidate(b, ms[k].cell, ms[k].val);
      }
    }
  }

  lemma DigitPlaced(b: Grid, columns: seq<nat>, p: Problem, ms: seq<Move>, g: Grid, kind: Kind, u: nat, v: nat)
    requires IsBoard(b) && Encodes(b, columns, p) && IsCoverMoves(b, columns, p, ms) && IsAfter(b, ms, g)
    requires u < 9 && 1 <= v <= 9
    ensures StandsIn(g, kind, u, v)
  {
    if StandsIn(b, kind, u, v) {
      var i :| 0 <= i < CELLS && UnitOf(kind, i) == u && b[i] == v;
      CellFilled(b, columns, p, ms, g, i);
      assert g[i] == v;
    } else {
      var k := MoveFor(b, columns, p, ms, UnitName(kind, u, v));
      FillsUnit(b, columns, ms[k].cell, ms[k].val, kind, u, v);
      assert g[ms[k].cell] == v;
    }
  }

  /** Making the moves of an exact cover solves the board, contradictory givens or not. */
  lemma CoverToGrid(b: Grid, columns: seq<nat>, p: Problem, ms: seq<Move>, g: Grid)
    requires IsBoard(b) && Encodes(b, columns, p) && IsCoverMoves(b, columns, p, ms) && IsAfter(b, ms, g)
    ensures IsSolution(g) && Agrees(g, b)
  {
    forall i | 0 <= i < CELLS ensures 1 <= g[i] <= 9 && (b[i] != 0 ==> g[i] == b[i]) {
      CellFilled(b, columns, p, ms, g, i);
    }
    forall kind, u, v | 0 <= u < 9 && 1 <= v <= 9 ensures StandsIn(g, kind, u, v) {
      DigitPlaced(b, columns, p, ms, g, kind, u, v);
    }
    SolutionIffAllDigits(g);
  }
}
