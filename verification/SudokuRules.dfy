/** What a solved Sudoku is, and what its exact cover encoding is, without any links. */
module SudokuRules {

  const CELLS: nat := 81

  /** The three kinds of unit. */
  datatype Kind = Row | Col | Box

  /** The unit of the given kind that a cell lies in. */
  function UnitOf(kind: Kind, i: nat): (u: nat)
    requires i < CELLS
    ensures u < 9
  {
    match kind
    case Row => i / 9
    case Col => i % 9
    case Box => i / 9 / 3 * 3 + i % 9 / 3
  }

  lemma Nines(q: nat, r: nat)
    requires r < 9
    ensures (q * 9 + r) / 9 == q && (q * 9 + r) % 9 == r
  {
  }

  lemma Threes(q: nat, r: nat)
    requires r < 3
    ensures (q * 3 + r) / 3 == q && (q * 3 + r) % 3 == r
  {
  }

  lemma BoxCell(u: nat, k: nat)
    requires u < 9 && k < 9
    ensures var i := (u / 3 * 3 + k / 3) * 9 + (u % 3 * 3 + k % 3); i < CELLS && UnitOf(Box, i) == u
  {
    var r, c := u / 3 * 3 + k / 3, u % 3 * 3 + k % 3;
    Nines(r, c);
    Threes(u / 3, k / 3);
    Threes(u % 3, k % 3);
  }

  /** The k-th cell of unit u. */
  function CellAt(kind: Kind, u: nat, k: nat): (i: nat)
    requires u < 9 && k < 9
    ensures i < CELLS && UnitOf(kind, i) == u
  {
    match kind
    case Row =>
      Nines(u, k);
      u * 9 + k
    case Col =>
      Nines(k, u);
      k * 9 + u
    case Box =>
      BoxCell(u, k);
      (u / 3 * 3 + k / 3) * 9 + (u % 3 * 3 + k % 3)
  }

  function PlaceIn(kind: Kind, i: nat): (k: nat)
    requires i < CELLS
    ensures k < 9 && CellAt(kind, UnitOf(kind, i), k) == i
  {
    match kind
    case Row => i % 9
    case Col => i / 9
    case Box =>
      var r, c := i / 9, i % 9;
      Threes(r / 3, c / 3);
      Threes(r % 3, c % 3);
      r % 3 * 3 + c % 3
  }

  type Grid = seq<int>

  /** A digit put into a cell. */
  datatype Move = Move(cell: nat, val: nat)

  /** A grid of 81 digits, 0 for an empty cell. */
  ghost predicate IsBoard(b: Grid) { |b| == CELLS && forall i | 0 <= i < CELLS :: 0 <= b[i] <= 9 }

  /** A complete grid in which no digit stands twice in a row, a column or a box. */
  ghost predicate IsSolution(g: Grid)
  {
    && |g| == CELLS && (forall i | 0 <= i < CELLS :: 1 <= g[i] <= 9)
    && forall kind, i, j | 0 <= i < j < CELLS && UnitOf(kind, i) == UnitOf(kind, j) :: g[i] != g[j]
  }

  ghost predicate Agrees(g: Grid, b: Grid)
    requires |b| == CELLS
  {
    |g| == CELLS && forall i | 0 <= i < CELLS && b[i] != 0 :: g[i] == b[i]
  }

  /** Every digit stands somewhere in every unit. */
  ghost predicate AllDigits(g: Grid)
    requires |g| == CELLS
  {
    forall kind, u, v | 0 <= u < 9 && 1 <= v <= 9 :: StandsIn(g, kind, u, v)
  }

  ghost predicate StandsIn(g: Grid, kind: Kind, u: nat, v: int)
    requires |g| == CELLS
  {
    exists i :: 0 <= i < CELLS && UnitOf(kind, i) == u && g[i] == v
  }

  // ----- nine places, nine digits

  function Digits(n: nat): (s: set<int>)
    ensures forall v :: v in s <==> 1 <= v <= n
  {
    if n == 0 then {} else Digits(n - 1) + {n}
  }

  lemma {:induction false} DigitsCount(n: nat)
    ensures |Digits(n)| == n
  {
    if n > 0 {
      DigitsCount(n - 1);
      var d := Digits(n - 1);
      assert n !in d && Digits(n) == d + {n};
    }
  }

  ghost function Values(w: seq<int>): set<int> { set v | v in w }

  lemma {:induction false} ValuesCount(w: seq<int>)
    ensures |Values(w)| <= |w|
    ensures (forall i, j | 0 <= i < j < |w| :: w[i] != w[j]) ==> |Values(w)| == |w|
    decreases |w|
  {
    if w != [] {
      var p, v := w[..|w| - 1], w[|w| - 1];
      ValuesCount(p);
      assert w == p + [v];
      assert Values(w) == Values(p) + {v};
      if forall i, j | 0 <= i < j < |w| :: w[i] != w[j] {
        assert v !in p;
      }
    }
  }

  lemma ValuesRepeat(w: seq<int>, i: nat, j: nat)
    requires i < j < |w| && w[i] == w[j]
    ensures |Values(w)| < |w|
  {
    var p := w[..j] + w[j + 1..];
    ValuesCount(p);
    forall v | v in w ensures v in p {
      var k :| 0 <= k < |w| && w[k] == v;
      assert p[if k < j then k else if k == j then i else k - 1] == v;
    }
    assert Values(w) <= Values(p);
    SubsetCount(Values(w), Values(p));
  }

  lemma {:induction false} SubsetCount<T>(a: set<T>, b: set<T>)
    requires a <= b
    ensures |a| <= |b|
    ensures |a| == |b| ==> a == b
    decreases a
  {
    if x :| x in a {
      SubsetCount(a - {x}, b - {x});
      assert a == a - {x} + {x} && b == b - {x} + {x};
    } else {
      assert a == {};
    }
  }

  /** If nine places hold all nine digits, no digit is there twice. */
  lemma SurjectiveNine(w: seq<int>, i: nat, j: nat)
    requires |w| == 9 && (forall v | 1 <= v <= 9 :: v in w) && i < j < 9
    ensures w[i] != w[j]
  {
    if w[i] == w[j] {
      ValuesRepeat(w, i, j);
      DigitsCount(9);
      SubsetCount(Digits(9), Values(w));
    }
  }

  /** If nine places hold nine different digits, every digit is there. */
  lemma InjectiveNine(w: seq<int>, v: int)
    requires |w| == 9 && (forall i | 0 <= i < 9 :: 1 <= w[i] <= 9)
    requires (forall i, j | 0 <= i < j < 9 :: w[i] != w[j]) && 1 <= v <= 9
    ensures v in w
  {
    ValuesCount(w);
    DigitsCount(9);
    forall x | x in Values(w) ensures x in Digits(9) {
      var k :| 0 <= k < 9 && w[k] == x;
    }
    SubsetCount(Values(w), Digits(9));
    assert v in Digits(9);
  }

  ghost function UnitValues(g: Grid, kind: Kind, u: nat): (w: seq<int>)
    requires |g| == CELLS && u < 9
    ensures |w| == 9 && forall k | 0 <= k < 9 :: w[k] == g[CellAt(kind, u, k)]
  {
    seq(9, k requires 0 <= k < 9 => g[CellAt(kind, u, k)])
  }

  /** For a complete grid, no digit twice in a unit is the same as every digit in every unit. */
  lemma SolutionIffAllDigits(g: Grid)
    requires |g| == CELLS && forall i | 0 <= i < CELLS :: 1 <= g[i] <= 9
    ensures IsSolution(g) <==> AllDigits(g)
  {
    if AllDigits(g) {
      forall kind, i, j | 0 <= i < j < CELLS && UnitOf(kind, i) == UnitOf(kind, j) ensures g[i] != g[j] {
        AllDigitsNoRepeat(g, kind, i, j);
      }
    }
    if IsSolution(g) {
      forall kind, u, v | 0 <= u < 9 && 1 <= v <= 9 ensures StandsIn(g, kind, u, v) {
        SolutionHasDigit(g, kind, u, v);
      }
    }
  }

  lemma AllDigitsNoRepeat(g: Grid, kind: Kind, i: nat, j: nat)
    requires |g| == CELLS && AllDigits(g) && i < j < CELLS && UnitOf(kind, i) == UnitOf(kind, j)
    ensures g[i] != g[j]
  {
    var u := UnitOf(kind, i);
    var w := UnitValues(g, kind, u);
    forall v | 1 <= v <= 9 ensures v in w {
      assert StandsIn(g, kind, u, v);
      var k :| 0 <= k < CELLS && UnitOf(kind, k) == u && g[k] == v;
      assert w[PlaceIn(kind, k)] == v;
    }
    var p, q := PlaceIn(kind, i), PlaceIn(kind, j);
    if p < q {
      SurjectiveNine(w, p, q);
    } else {
      SurjectiveNine(w, q, p);
    }
  }

  lemma SolutionHasDigit(g: Grid, kind: Kind, u: nat, v: int)
    requires IsSolution(g) && u < 9 && 1 <= v <= 9
    ensures StandsIn(g, kind, u, v)
  {
    var w := UnitValues(g, kind, u);
    forall i, j | 0 <= i < j < 9 ensures w[i] != w[j] {
      PlacesDiffer(kind, u, i, j);
      var x, y := CellAt(kind, u, i), CellAt(kind, u, j);
      assert if x < y then g[x] != g[y] else g[y] != g[x];
    }
    InjectiveNine(w, v);
    var k :| 0 <= k < 9 && w[k] == v;
    assert g[CellAt(kind, u, k)] == v;
  }

  lemma PlacesDiffer(kind: Kind, u: nat, i: nat, j: nat)
    requires u < 9 && i < j < 9
    ensures CellAt(kind, u, i) != CellAt(kind, u, j)
  {
    var q, r := u / 3 * 3, u % 3 * 3;
    if kind == Box {
      Nines(q + i / 3, r + i % 3);
      Nines(q + j / 3, r + j % 3);
    }
  }
}
