/** Sudoku in characters: what a puzzle and its solution are as texts, and that they are what the solver's numbers
    mean. */
module Puzzles {
  import opened SudokuRules
  import opened SolverFacts

  /** Every cell is a digit; '0' is an empty one. */
  predicate IsPuzzle(puzzle: string)
  {
    |puzzle| == 81 && forall i | 0 <= i < 81 :: puzzle[i] in "0123456789"
  }

  /** Two cells of a row, a column or a box of three by three. */
  predicate Together(i: nat, j: nat)
  {
    i / 9 == j / 9 || i % 9 == j % 9 || (i / 27 == j / 27 && i % 9 / 3 == j % 9 / 3)
  }

  /** The result is a complete grid with the puzzle's givens, in which no digit stands twice in a row, column or box. */
  predicate SolvesPuzzle(result: string, puzzle: string)
    requires |puzzle| == 81
  {
    && |result| == 81 && (forall i | 0 <= i < 81 :: result[i] in "123456789")
    && (forall i | 0 <= i < 81 && puzzle[i] != '0' :: result[i] == puzzle[i])
    && (forall i, j | 0 <= i < j < 81 && Together(i, j) :: result[i] != result[j])
  }

  ghost predicate HasSolution(puzzle: string)
    requires |puzzle| == 81
  {
    exists result :: SolvesPuzzle(result, puzzle)
  }

  /** The digits that the characters of a puzzle stand for. */
  function DigitsOf(puzzle: string): Grid
  {
    seq(|puzzle|, i requires 0 <= i < |puzzle| => puzzle[i] as int - '0' as int)
  }

  /** A character is a digit exactly if it stands for a number up to nine, and for that one. */
  lemma DigitRead(c: char)
    ensures c in "0123456789" <==> 0 <= c as int - '0' as int <= 9
    ensures c in "123456789" <==> 1 <= c as int - '0' as int <= 9
    ensures forall d | 0 <= d <= 9 :: c as int - '0' as int == d <==> c == "0123456789"[d]
  {
    var all, some := "0123456789", "123456789";
    forall d | 0 <= d <= 9 ensures all[d] as int - '0' as int == d {
      assert d == 0 || d == 1 || d == 2 || d == 3 || d == 4 || d == 5 || d == 6 || d == 7 || d == 8 || d == 9;
    }
    forall d | 1 <= d <= 9 ensures some[d - 1] == all[d] {
      assert d == 1 || d == 2 || d == 3 || d == 4 || d == 5 || d == 6 || d == 7 || d == 8 || d == 9;
    }
    var d := c as int - '0' as int;
    if 0 <= d <= 9 {
      assert c == all[d];
      if 1 <= d {
        assert c == some[d - 1];
      }
    }
  }

  lemma PuzzleIsBoard(puzzle: string)
    requires |puzzle| == 81
    ensures IsPuzzle(puzzle) <==> IsBoard(DigitsOf(puzzle))
  {
    forall i | 0 <= i < 81 ensures puzzle[i] in "0123456789" <==> 0 <= DigitsOf(puzzle)[i] <= 9 {
      DigitRead(puzzle[i]);
    }
  }

  lemma TogetherIsUnit(i: nat, j: nat)
    requires i < CELLS && j < CELLS
    ensures Together(i, j) <==> exists kind :: UnitOf(kind, i) == UnitOf(kind, j)
  {
    assert UnitOf(Row, i) == i / 9 && UnitOf(Row, j) == j / 9;
    assert UnitOf(Col, i) == i % 9 && UnitOf(Col, j) == j % 9;
    assert UnitOf(Box, i) == i / 27 * 3 + i % 9 / 3 && UnitOf(Box, j) == j / 27 * 3 + j % 9 / 3;
    if kind :| UnitOf(kind, i) == UnitOf(kind, j) {
      match kind
      case Row =>
      case Col =>
      case Box =>
    }
  }

  /** A text solves a puzzle exactly if its digits are a solution that agrees with the puzzle's. */
  lemma SolvesPuzzleIff(result: string, puzzle: string)
    requires IsPuzzle(puzzle)
    ensures SolvesPuzzle(result, puzzle) <==> IsSolution(DigitsOf(result)) && Agrees(DigitsOf(result), DigitsOf(puzzle))
  {
    var g, b := DigitsOf(result), DigitsOf(puzzle);
    forall c: char ensures (c in "123456789" <==> 1 <= c as int - '0' as int <= 9) {
      DigitRead(c);
    }
    forall i, j | 0 <= i < CELLS && 0 <= j < CELLS
      ensures Together(i, j) <==> exists kind :: UnitOf(kind, i) == UnitOf(kind, j)
    {
      TogetherIsUnit(i, j);
    }
    if |result| == 81 {
      assert forall i, j | 0 <= i < 81 && 0 <= j < 81 :: g[i] == g[j] <==> result[i] == result[j];
      assert forall i | 0 <= i < 81 :: g[i] == b[i] <==> result[i] == puzzle[i];
      assert forall i | 0 <= i < 81 :: b[i] == 0 <==> puzzle[i] == '0';
    }
  }

  /** The text of a grid of digits. */
  function TextOf(g: Grid): string
    requires forall i | 0 <= i < |g| :: 0 <= g[i] <= 9
  {
    seq(|g|, i requires 0 <= i < |g| => "0123456789"[g[i]])
  }

  lemma SolvableIff(puzzle: string)
    requires IsPuzzle(puzzle)
    ensures HasSolution(puzzle) <==> CanBeSolved(DigitsOf(puzzle))
  {
    hide SolvesPuzzle, IsSolution, Agrees;
    if result :| SolvesPuzzle(result, puzzle) {
      SolvesPuzzleIff(result, puzzle);
    }
    if g :| IsSolution(g) && Agrees(g, DigitsOf(puzzle)) {
      TextDigits(g);
      SolvesPuzzleIff(TextOf(g), puzzle);
    }
  }

  lemma TextDigits(g: Grid)
    requires IsSolution(g)
    ensures forall i | 0 <= i < |g| :: 0 <= g[i] <= 9
    ensures DigitsOf(TextOf(g)) == g
  {
    forall i | 0 <= i < |g| ensures DigitsOf(TextOf(g))[i] == g[i] {
      DigitRead(TextOf(g)[i]);
    }
  }
}
