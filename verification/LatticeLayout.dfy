/** Where a square lattice puts its qubits: block by block, row-major inside a block. */
module LatticeLayout {
  datatype Position = Position(row: int, col: int)

  /** A coupling [control, target]. */
  datatype Coupling = Coupling(control: nat, target: nat)

  datatype Topology = Topology(gridSize: nat, qubits: map<nat, Position>, couplings: seq<Coupling>)

  /** `DivisionByZero` for a zero divisor, `MissingQubit` for the KeyError of qubits[qid]. */
  datatype Error = DivisionByZero | MissingQubit

  /** `int(n ** 0.5)`. */
  function ISqrt(n: nat): (r: nat)
    ensures r * r <= n < (r + 1) * (r + 1)
  {
    if n == 0 then 0
    else
      var r := ISqrt(n - 1);
      if (r + 1) * (r + 1) <= n then r + 1 else r
  }

  lemma ISqrtUnique(n: nat, r: nat)
    requires r * r <= n < (r + 1) * (r + 1)
    ensures ISqrt(n) == r
  {
    var s := ISqrt(n);
    if s < r {
      Grow(s + 1, r, s + 1, r);
    } else if r < s {
      Grow(r + 1, s, r + 1, s);
    }
  }

  // ---------------------------------------------------------------------
  // Nonlinear arithmetic, in small steps
  // ---------------------------------------------------------------------

  lemma Grow(a: nat, b: nat, c: nat, d: nat)
    requires a <= b && c <= d
    ensures a * c <= b * d
  {
    assert a * c <= b * c by { ScaleUp(c, a, b); }
    assert b * c <= b * d by { ScaleUp(b, c, d); }
  }

  lemma ScaleUp(k: nat, a: int, b: int)
    requires a <= b
    ensures k * a <= k * b
  {
  }

  /** Quotient and remainder are the only numbers with their defining property. */
  lemma DivModUnique(x: int, k: int, q: int, r: int)
    requires k > 0 && x == q * k + r && 0 <= r < k
    ensures x / k == q && x % k == r
  {
    var d := x / k;
    assert x == d * k + x % k;
    if d < q {
      ScaleUp(k, d + 1, q);
    } else if d > q {
      ScaleUp(k, q + 1, d);
    }
  }

  /** `x < a * b` iff the quotient by `a` is below `b`. */
  lemma QuotientBelow(x: nat, a: nat, b: nat)
    requires a > 0
    ensures x < a * b <==> x / a < b
  {
    assert x == a * (x / a) + x % a;
    if x / a < b {
      ScaleUp(a, x / a + 1, b);
    } else {
      ScaleUp(a, b, x / a);
    }
  }

  // ---------------------------------------------------------------------
  // The MUX layout: m-by-m blocks, p blocks in a row
  // ---------------------------------------------------------------------

  /** Position of a qubit: block by block, row-major inside a block. */
  function PositionOf(qid: nat, m: nat, p: nat): Position
    requires m > 0 && p > 0
  {
    BlockSize(m);
    Place(qid / (m * m), qid % (m * m), m, p)
  }

  function Place(mux: nat, local: nat, m: nat, p: nat): Position
    requires m > 0 && p > 0
  {
    Position(mux / p * m + local / m, mux % p * m + local % m)
  }

  lemma BlockSize(m: nat)
    requires m > 0
    ensures m * m > 0
  {
  }

  /** The qubit that the layout puts at a position. */
  function QubitAt(pos: Position, m: nat, p: nat): int
    requires m > 0 && p > 0
  {
    (pos.row / m * p + pos.col / m) * (m * m) + (pos.row % m * m + pos.col % m)
  }

  predicate OnBoard(pos: Position, m: nat, p: nat) {
    0 <= pos.row && 0 <= pos.col < p * m
  }

  /** The four coordinates: block row and column, local row and column. */
  lemma PositionParts(qid: nat, m: nat, p: nat)
    requires m > 0 && p > 0
    ensures
      var mux, local, pos := qid / (m * m), qid % (m * m), PositionOf(qid, m, p);
      && pos.row / m == mux / p && pos.row % m == local / m
      && pos.col / m == mux % p && pos.col % m == local % m
      && pos.row >= 0 && pos.col >= 0
  {
    BlockSize(m);
    PlaceParts(qid / (m * m), qid % (m * m), m, p);
  }

  lemma PlaceParts(mux: nat, local: nat, m: nat, p: nat)
    requires m > 0 && p > 0 && local < m * m
    ensures
      var pos := Place(mux, local, m, p);
      && pos.row / m == mux / p && pos.row % m == local / m
      && pos.col / m == mux % p && pos.col % m == local % m
      && pos.row >= 0 && pos.col >= 0
  {
    QuotientBelow(local, m, m);
    CombineDigits(mux / p, local / m, m);
    CombineDigits(mux % p, local % m, m);
  }

  lemma CombineDigits(q: nat, r: nat, k: nat)
    requires r < k
    ensures q * k + r >= 0 && (q * k + r) / k == q && (q * k + r) % k == r
  {
    DivModUnique(q * k + r, k, q, r);
  }

  lemma SplitDigits(x: nat, k: nat)
    requires k > 0
    ensures x == x / k * k + x % k
  {
  }

  /** The layout puts every qubit on the board, and QubitAt finds it again. */
  lemma LayoutInverse(qid: nat, m: nat, p: nat)
    requires m > 0 && p > 0
    ensures OnBoard(PositionOf(qid, m, p), m, p)
    ensures QubitAt(PositionOf(qid, m, p), m, p) == qid
  {
    BlockSize(m);
    PositionParts(qid, m, p);
    var mux, local := qid / (m * m), qid % (m * m);
    SplitDigits(mux, p);
    SplitDigits(local, m);
    SplitDigits(qid, m * m);
    QuotientBelow(PositionOf(qid, m, p).col, m, p);
    assert PositionOf(qid, m, p).col < m * p;
  }

  /** Block number and place inside the block, recovered from QubitAt. */
  lemma QubitParts(pos: Position, m: nat, p: nat)
    requires m > 0 && p > 0 && OnBoard(pos, m, p)
    ensures
      var mux, local, qid := pos.row / m * p + pos.col / m, pos.row % m * m + pos.col % m, QubitAt(pos, m, p);
      && qid >= 0 && m * m > 0 && qid / (m * m) == mux && qid % (m * m) == local
      && mux >= 0 && mux / p == pos.row / m && mux % p == pos.col / m
      && local / m == pos.row % m && local % m == pos.col % m
  {
    hide OnBoard;
    BlockSize(m);
    BoardDigits(pos, m, p);
    QubitDigits(pos.row / m, pos.col / m, pos.row % m, pos.col % m, m, p);
  }

  lemma BoardDigits(pos: Position, m: nat, p: nat)
    requires m > 0 && OnBoard(pos, m, p)
    ensures pos.row / m >= 0 && 0 <= pos.row % m < m
    ensures 0 <= pos.col / m < p && 0 <= pos.col % m < m
  {
    DivMod(pos.row, m);
    DivMod(pos.col, m);
    BlockColumn(pos.col, m, p);
  }

  lemma DivMod(x: nat, m: nat)
    requires m > 0
    ensures x / m >= 0 && 0 <= x % m < m
  {
  }

  lemma BlockColumn(col: nat, m: nat, p: nat)
    requires m > 0 && col < p * m
    ensures col / m < p
  {
    QuotientBelow(col, m, p);
  }

  /** The same for block row and column and the row and column inside the block. */
  lemma QubitDigits(blockRow: nat, blockCol: nat, row: nat, col: nat, m: nat, p: nat)
    requires m * m > 0 && blockCol < p && row < m && col < m
    ensures
      var mux, local := blockRow * p + blockCol, row * m + col;
      var qid := mux * (m * m) + local;
      && qid >= 0 && qid / (m * m) == mux && qid % (m * m) == local
      && mux >= 0 && mux / p == blockRow && mux % p == blockCol
      && local / m == row && local % m == col
  {
    var mux, local := blockRow * p + blockCol, row * m + col;
    CombineDigits(blockRow, blockCol, p);
    CombineDigits(row, col, m);
    QuotientBelow(local, m, m);
    CombineDigits(mux, local, m * m);
  }

  /** Every position on the board is taken, by exactly the qubit QubitAt names. */
  lemma LayoutOnto(pos: Position, m: nat, p: nat)
    requires m > 0 && p > 0 && OnBoard(pos, m, p)
    ensures QubitAt(pos, m, p) >= 0
    ensures PositionOf(QubitAt(pos, m, p), m, p) == pos
  {
    QubitParts(pos, m, p);
    SplitDigits(pos.row, m);
    SplitDigits(pos.col, m);
  }

  lemma LayoutInjective(a: nat, b: nat, m: nat, p: nat)
    requires m > 0 && p > 0
    ensures PositionOf(a, m, p) == PositionOf(b, m, p) ==> a == b
  {
    LayoutInverse(a, m, p);
    LayoutInverse(b, m, p);
  }

  /** From one qubit to the next: right inside the block; at its right edge to the next row of the
      block; at its end to the upper left corner of the block on the right; at the end of a row of
      blocks to the first position below. */
  predicate NextPlace(pos: Position, next: Position, m: nat, p: nat)
    requires m > 0
  {
    if pos.col % m != m - 1 then next == Position(pos.row, pos.col + 1)
    else if pos.row % m != m - 1 then next == Position(pos.row + 1, pos.col - (m - 1))
    else if pos.col != p * m - 1 then next == Position(pos.row - (m - 1), pos.col + 1)
    else next == Position(pos.row + 1, 0)
  }

  /** The layout is the walk from the upper left corner. */
  lemma LayoutWalk(qid: nat, m: nat, p: nat)
    requires m > 0 && p > 0
    ensures PositionOf(0, m, p) == Position(0, 0)
    ensures NextPlace(PositionOf(qid, m, p), PositionOf(qid + 1, m, p), m, p)
  {
    hide Place, PositionOf, NextPlace;
    FirstPlace(m, p);
    var mux, local := qid / (m * m), qid % (m * m);
    SplitDigits(qid, m * m);
    PlaceOf(qid, mux, local, m, p);
    if local + 1 < m * m {
      PlaceOf(qid + 1, mux, local + 1, m, p);
      NextInBlock(mux, local, m, p);
    } else {
      OneBlockMore(mux, m * m);
      PlaceOf(qid + 1, mux + 1, 0, m, p);
      NextBlock(mux, local, m, p);
    }
  }

  lemma OneBlockMore(mux: nat, b: nat)
    ensures (mux + 1) * b == mux * b + b
  {
  }

  lemma PlaceOf(qid: nat, mux: nat, local: nat, m: nat, p: nat)
    requires m > 0 && p > 0 && local < m * m && qid == mux * (m * m) + local
    ensures PositionOf(qid, m, p) == Place(mux, local, m, p)
  {
    hide Place;
    DivModUnique(qid, m * m, mux, local);
  }

  lemma FirstPlace(m: nat, p: nat)
    requires m > 0 && p > 0
    ensures m * m > 0 && PositionOf(0, m, p) == Position(0, 0)
  {
    BlockSize(m);
    DivModUnique(0, m * m, 0, 0);
    DivModUnique(0, m, 0, 0);
    DivModUnique(0, p, 0, 0);
    assert 0 * m == 0;
  }

  lemma NextInBlock(mux: nat, local: nat, m: nat, p: nat)
    requires m > 0 && p > 0 && local + 1 < m * m
    ensures NextPlace(Place(mux, local, m, p), Place(mux, local + 1, m, p), m, p)
  {
    PlaceParts(mux, local, m, p);
    NextLocal(local, m);
  }

  lemma NextLocal(local: nat, m: nat)
    requires m > 0 && local + 1 < m * m
    ensures local % m != m - 1 ==> (local + 1) / m == local / m && (local + 1) % m == local % m + 1
    ensures local % m == m - 1 ==> (local + 1) / m == local / m + 1 && (local + 1) % m == 0
    ensures local % m == m - 1 ==> local / m != m - 1
  {
    SplitDigits(local, m);
    if local % m != m - 1 {
      DivModUnique(local + 1, m, local / m, local % m + 1);
    } else {
      OneBlockMore(local / m, m);
      DivModUnique(local + 1, m, local / m + 1, 0);
      QuotientBelow(local + 1, m, m);
    }
  }

  lemma NextBlock(mux: nat, local: nat, m: nat, p: nat)
    requires m > 0 && p > 0 && local + 1 == m * m
    ensures NextPlace(Place(mux, local, m, p), Place(mux + 1, 0, m, p), m, p)
  {
    LastLocal(local, m);
    PlaceParts(mux, local, m, p);
    SplitDigits(mux, p);
    LastColumn(mux % p, m, p);
    if mux % p != p - 1 {
      DivModUnique(mux + 1, p, mux / p, mux % p + 1);
      OneBlockMore(mux % p, m);
    } else {
      OneBlockMore(mux / p, p);
      DivModUnique(mux + 1, p, mux / p + 1, 0);
      OneBlockMore(mux / p, m);
    }
  }

  lemma LastLocal(local: nat, m: nat)
    requires m > 0 && local + 1 == m * m
    ensures local / m == m - 1 && local % m == m - 1
    ensures 0 / m == 0 && 0 % m == 0
  {
    assert local == (m - 1) * m + (m - 1);
    DivModUnique(local, m, m - 1, m - 1);
    DivModUnique(0, m, 0, 0);
  }

  lemma LastColumn(c: nat, m: nat, p: nat)
    requires m > 0 && c < p
    ensures c * m + (m - 1) == p * m - 1 <==> c == p - 1
  {
    if c < p - 1 {
      ScaleUp(m, c + 2, p);
      assert (c + 2) * m == c * m + 2 * m;
    } else {
      assert (p - 1) * m == p * m - m;
    }
  }

  lemma SquareInBlocks(p: nat, m: nat)
    ensures (p * m) * (p * m) == (m * m) * (p * p)
  {
  }

  /** A qubit and a row in the same row of blocks: both lie in the first p rows of blocks or neither does. */
  lemma SameBlockRow(qid: nat, row: nat, b: nat, m: nat, p: nat)
    requires b > 0 && m > 0 && p > 0 && qid / b / p == row / m
    ensures qid < b * (p * p) <==> row < m * p
  {
    QuotientBelow(qid, b, p * p);
    QuotientBelow(qid / b, p, p);
    QuotientBelow(row, m, p);
  }

  lemma BlockRowOf(pos: Position, m: nat, p: nat)
    requires m > 0 && p > 0 && OnBoard(pos, m, p)
    ensures QubitAt(pos, m, p) >= 0 && m * m > 0 && QubitAt(pos, m, p) / (m * m) / p == pos.row / m
  {
    hide QubitAt;
    QubitParts(pos, m, p);
  }

  lemma InSquare(qid: nat, row: nat, m: nat, p: nat)
    requires m > 0 && p > 0 && m * m > 0 && qid / (m * m) / p == row / m
    ensures qid < (p * m) * (p * m) <==> row < p * m
  {
    SquareInBlocks(p, m);
    SameBlockRow(qid, row, m * m, m, p);
  }

  /** With n = p * m the first n * n qubits fill exactly the n-by-n grid. */
  lemma LayoutFillsSquare(pos: Position, m: nat, p: nat)
    requires m > 0 && p > 0 && OnBoard(pos, m, p)
    ensures QubitAt(pos, m, p) < (p * m) * (p * m) <==> pos.row < p * m
  {
    hide QubitAt;
    BlockRowOf(pos, m, p);
    InSquare(QubitAt(pos, m, p), pos.row, m, p);
  }
}
