/** `generate_square_lattice` of scripts/generate_topology.py, and when it agrees with the MUX generator. */
module SimpleLattice {
  import opened Common
  import opened LatticeLayout
  import opened LatticeCouplings
  import opened MuxLattice

  function RowMajor(qid: nat, g: nat): Position
    requires g > 0
  {
    Position(qid / g, qid % g)
  }

  function SimpleQubits(n: nat, g: nat): Qubits
    requires g > 0
  {
    map q | 0 <= q < n :: RowMajor(q, g)
  }

  function Lookup(qid: nat, neighbor: nat, g: nat): Coupling
    requires g > 0
  {
    OrderByCheckerboard(qid, neighbor, RowMajor(qid, g), RowMajor(neighbor, g))
  }

  function RightCoupling(qid: nat, g: nat): seq<Coupling>
    requires g > 0
  {
    if qid % g + 1 < g then [Lookup(qid, qid / g * g + (qid % g + 1), g)] else []
  }

  function BottomCoupling(qid: nat, g: nat): seq<Coupling>
    requires g > 0
  {
    if qid / g + 1 < g then [Lookup(qid, (qid / g + 1) * g + qid % g, g)] else []
  }

  function SimpleCouplings(k: nat, g: nat): seq<Coupling>
    requires g > 0
  {
    if k == 0 then []
    else SimpleCouplings(k - 1, g) + RightCoupling(k - 1, g) + BottomCoupling(k - 1, g)
  }

  /** The generator looks up a right neighbour that does not exist exactly when the
      last row is not full, that is, when the grid size does not divide n. */
  function SimpleTopology(n: nat): Result<Topology, Error> {
    if n == 0 then Ok(Topology(0, map[], []))
    else
      SquareRootPositive(n);
      var g := ISqrt(n);
      if n % g != 0 then Err(MissingQubit)
      else Ok(Topology(g, SimpleQubits(n, g), SimpleCouplings(n, g)))
  }

  lemma SquareRootPositive(n: nat)
    requires n > 0
    ensures ISqrt(n) > 0
  {
  }

  // Which of the looked-up neighbours exist.

  lemma SameRow(qid: nat, g: nat)
    requires g > 0 && qid % g + 1 < g
    ensures (qid + 1) / g == qid / g && (qid + 1) % g == qid % g + 1
  {
    SplitDigits(qid, g);
    DivModUnique(qid + 1, g, qid / g, qid % g + 1);
  }

  lemma RightInside(qid: nat, n: nat, g: nat)
    requires g > 0 && qid < n
    ensures n % g == 0 && qid % g + 1 < g ==> qid + 1 < n
  {
    if qid % g + 1 < g {
      SameRow(qid, g);
    }
  }

  lemma BottomInside(row: nat, col: nat, n: nat, g: nat)
    requires g * g <= n && col < g
    ensures row + 1 < g ==> 0 <= (row + 1) * g + col < n
  {
    if row + 1 < g {
      ScaleUp(g, row + 2, g);
    }
  }

  lemma LastRowOpen(n: nat, g: nat)
    requires g > 0 && n > 0 && n % g != 0
    ensures (n - 1) % g + 1 < g
  {
    SplitDigits(n, g);
    CombineDigits(n / g, n % g - 1, g);
  }

  method GenerateSquareLattice(n: nat) returns (r: Result<Topology, Error>)
    ensures r == SimpleTopology(n)
  {
    var g := ISqrt(n);
    if n == 0 {
      return Ok(Topology(0, map[], []));
    }
    SquareRootPositive(n);
    var qubits: Qubits := map[];
    for qid := 0 to n
      invariant qubits == SimpleQubits(qid, g)
    {
      qubits := qubits[qid := RowMajor(qid, g)];
    }
    var couplings := [];
    for qid := 0 to n
      invariant couplings == SimpleCouplings(qid, g)
      invariant qid == n ==> n % g == 0
    {
      var right := AddRight(qid, n, g, qubits);
      if right.Err? {
        return Err(MissingQubit);
      }
      var bottom := AddBottom(qid, n, g, qubits);
      couplings := couplings + right.value + bottom;
    }
    return Ok(Topology(g, qubits, couplings));
  }

  method AddRight(qid: nat, n: nat, g: nat, qubits: Qubits) returns (r: Result<seq<Coupling>, Error>)
    requires g > 0 && qid < n && qubits == SimpleQubits(n, g)
    ensures n % g == 0 ==> r.Ok?
    ensures r.Ok? ==> r.value == RightCoupling(qid, g)
    ensures r.Err? ==> n % g != 0 && r.error == MissingQubit
    ensures r.Ok? && qid + 1 == n ==> n % g == 0
  {
    var row, col := qid / g, qid % g;
    SplitDigits(qid, g);
    RightInside(qid, n, g);
    if qid + 1 == n && n % g != 0 {
      LastRowOpen(n, g);
    }
    if col + 1 < g {
      var neighbor := row * g + (col + 1);
      assert neighbor == qid + 1;
      if neighbor !in qubits {
        return Err(MissingQubit);
      }
      return Ok([OrderByCheckerboard(qid, neighbor, qubits[qid], qubits[neighbor])]);
    }
    return Ok([]);
  }

  method AddBottom(qid: nat, n: nat, g: nat, qubits: Qubits) returns (r: seq<Coupling>)
    requires g > 0 && g * g <= n && qid < n && qubits == SimpleQubits(n, g)
    ensures r == BottomCoupling(qid, g)
  {
    var row, col := qid / g, qid % g;
    BottomInside(row, col, n, g);
    if row + 1 < g {
      var neighbor := (row + 1) * g + col;
      return [OrderByCheckerboard(qid, neighbor, qubits[qid], qubits[neighbor])];
    }
    return [];
  }

  // ---------------------------------------------------------------------
  // The two generators agree exactly on perfect squares
  // ---------------------------------------------------------------------

  /** Blocks of one qubit are row-major order. */
  lemma UnitBlocks(qid: nat, g: nat)
    requires g > 0
    ensures PositionOf(qid, 1, g) == RowMajor(qid, g)
  {
    assert 1 * 1 == 1;
    assert qid / 1 == qid && qid % 1 == 0;
  }

  lemma SameQubits(n: nat, g: nat)
    requires g > 0
    ensures MuxQubits(n, 1, g) == SimpleQubits(n, g)
  {
    forall q: nat | q < n ensures PositionOf(q, 1, g) == RowMajor(q, g) {
      UnitBlocks(q, g);
    }
  }

  /** In a full square the dictionary holds exactly the positions within bounds. */
  lemma SquareFinder(row: nat, col: nat, g: nat, qubits: Qubits, finder: Finder)
    requires g > 0 && qubits == SimpleQubits(g * g, g) && Inverts(finder, qubits)
    ensures Position(row, col) in finder <==> row < g && col < g
    ensures Position(row, col) in finder ==> finder[Position(row, col)] == row * g + col
  {
    if row < g && col < g {
      CombineDigits(row, col, g);
      QuotientBelow(row * g + col, g, g);
      assert qubits[row * g + col] == Position(row, col);
    }
    if Position(row, col) in finder {
      QuotientBelow(finder[Position(row, col)], g, g);
    }
  }

  lemma SameRightStep(qid: nat, g: nat, qubits: Qubits, finder: Finder)
    requires g > 0 && qid < g * g
    requires qubits == SimpleQubits(g * g, g) && Inverts(finder, qubits)
    ensures CouplingTo(qid, RightOf(qubits[qid]), qubits, finder) == RightCoupling(qid, g)
  {
    hide Inverts, OrderByCheckerboard;
    var row, col := qid / g, qid % g;
    QuotientBelow(qid, g, g);
    SquareFinder(row, col + 1, g, qubits, finder);
    if col + 1 < g {
      PlaceAt(row, col + 1, g);
    }
  }

  lemma SameBottomStep(qid: nat, g: nat, qubits: Qubits, finder: Finder)
    requires g > 0 && qid < g * g
    requires qubits == SimpleQubits(g * g, g) && Inverts(finder, qubits)
    ensures CouplingTo(qid, BottomOf(qubits[qid]), qubits, finder) == BottomCoupling(qid, g)
  {
    hide Inverts, OrderByCheckerboard;
    var row, col := qid / g, qid % g;
    BelowIn(qid, row, col, (row + 1) * g + col, g, qubits, finder);
  }

  lemma BelowIn(qid: nat, row: nat, col: nat, below: int, g: nat, qubits: Qubits, finder: Finder)
    requires g > 0 && qid < g * g && row == qid / g && col == qid % g && below == (row + 1) * g + col
    requires qubits == SimpleQubits(g * g, g) && Inverts(finder, qubits)
    ensures qubits[qid] == Position(row, col) && below >= 0 && RowMajor(below, g) == Position(row + 1, col)
    ensures Position(row + 1, col) in finder <==> row + 1 < g
    ensures row + 1 < g ==> finder[Position(row + 1, col)] == below
  {
    hide Inverts;
    SquareFinder(row + 1, col, g, qubits, finder);
    PlaceAt(row + 1, col, g);
  }

  lemma PlaceAt(row: nat, col: nat, g: nat)
    requires col < g
    ensures row * g + col >= 0 && RowMajor(row * g + col, g) == Position(row, col)
  {
    CombineDigits(row, col, g);
  }

  lemma SameSteps(qid: nat, g: nat, qubits: Qubits, finder: Finder)
    requires g > 0 && qid < g * g
    requires qubits == SimpleQubits(g * g, g) && Inverts(finder, qubits)
    ensures CouplingTo(qid, RightOf(qubits[qid]), qubits, finder) == RightCoupling(qid, g)
    ensures CouplingTo(qid, BottomOf(qubits[qid]), qubits, finder) == BottomCoupling(qid, g)
  {
    SameRightStep(qid, g, qubits, finder);
    SameBottomStep(qid, g, qubits, finder);
  }

  lemma {:induction false} SameCouplings(k: nat, g: nat, qubits: Qubits, finder: Finder)
    requires g > 0 && k <= g * g
    requires qubits == SimpleQubits(g * g, g) && Inverts(finder, qubits)
    ensures Couplings(k, qubits, finder) == SimpleCouplings(k, g)
  {
    if k == 0 {
    } else {
      SameCouplings(k - 1, g, qubits, finder);
      SameSteps(k - 1, g, qubits, finder);
    }
  }

  ghost predicate WithinSquare(c: Coupling, g: nat)
    requires g > 0
  {
    c.control / g == c.target / g || (c.control / g < g && c.target / g < g)
  }

  /** The simple generator never couples into a row beyond the square. */
  lemma {:induction false} SimpleStaysInSquare(k: nat, g: nat)
    requires g > 0
    ensures forall c :: c in SimpleCouplings(k, g) ==> WithinSquare(c, g)
  {
    if k == 0 {
    } else {
      SimpleStaysInSquare(k - 1, g);
      StepStaysInSquare(k - 1, g);
    }
  }

  lemma StepStaysInSquare(qid: nat, g: nat)
    requires g > 0
    ensures forall c :: c in RightCoupling(qid, g) + BottomCoupling(qid, g) ==> WithinSquare(c, g)
  {
    hide Lookup, WithinSquare, BottomCoupling, RightCoupling;
    RightStaysInSquare(qid, g);
    BottomStaysInSquare(qid, g);
  }

  lemma RightStaysInSquare(qid: nat, g: nat)
    requires g > 0
    ensures forall c :: c in RightCoupling(qid, g) ==> WithinSquare(c, g)
  {
    hide Lookup, WithinSquare;
    if qid % g + 1 < g {
      SplitDigits(qid, g);
      SameRow(qid, g);
      var right: nat := qid / g * g + (qid % g + 1);
      assert right == qid + 1;
      LookupStaysInSquare(qid, right, g);
    }
  }

  lemma BottomStaysInSquare(qid: nat, g: nat)
    requires g > 0
    ensures forall c :: c in BottomCoupling(qid, g) ==> WithinSquare(c, g)
  {
    hide Lookup, WithinSquare;
    if qid / g + 1 < g {
      NextRow(qid / g, qid % g, g);
      LookupStaysInSquare(qid, (qid / g + 1) * g + qid % g, g);
    }
  }

  lemma NextRow(row: nat, col: nat, g: nat)
    requires col < g
    ensures (row + 1) * g + col >= 0 && ((row + 1) * g + col) / g == row + 1
  {
    CombineDigits(row + 1, col, g);
  }

  lemma LookupStaysInSquare(a: nat, b: nat, g: nat)
    requires g > 0 && (a / g == b / g || (a / g < g && b / g < g))
    ensures WithinSquare(Lookup(a, b, g), g)
  {
  }

  /** With blocks of one qubit the MUX generator returns the same qubits and the
      same coupling list in the same order if and only if n is a perfect square. */
  lemma AgreeExactlyOnSquares(n: nat)
    ensures SimpleTopology(n) == MuxTopology(n, 1) <==> ISqrt(n) * ISqrt(n) == n
  {
    hide MuxQubits, SimpleQubits, MuxFinder, Couplings, SimpleCouplings, ISqrt, Inverts;
    if n > 0 {
      SquareRootPositive(n);
      MuxFinderInverts(n, 1, ISqrt(n));
      UnitTopology(n, ISqrt(n));
      CouplingsAgreeIff(n, ISqrt(n));
      if ISqrt(n) * ISqrt(n) == n {
        CombineDigits(ISqrt(n), 0, ISqrt(n));
      }
    }
  }

  /** The outcome of the MUX generator with blocks of one qubit. */
  lemma UnitTopology(n: nat, g: nat)
    requires n > 0 && g == ISqrt(n) && g > 0
    requires Numbered(n, MuxQubits(n, 1, g))
    ensures MuxTopology(n, 1)
         == Ok(Topology(g, SimpleQubits(n, g), Couplings(n, MuxQubits(n, 1, g), MuxFinder(n, 1, g))))
  {
    hide MuxQubits, SimpleQubits, MuxFinder, Couplings, ISqrt;
    assert g / 1 == g && g * 1 == g;
    SameQubits(n, g);
  }

  lemma CouplingsAgreeIff(n: nat, g: nat)
    requires g > 0 && g * g <= n
    ensures Numbered(n, MuxQubits(n, 1, g))
    ensures Couplings(n, MuxQubits(n, 1, g), MuxFinder(n, 1, g)) == SimpleCouplings(n, g) <==> g * g == n
  {
    hide MuxQubits, SimpleQubits, MuxFinder, Couplings, SimpleCouplings;
    MuxFinderInverts(n, 1, g);
    SameQubits(n, g);
    if g * g == n {
      SameCouplings(n, g, MuxQubits(n, 1, g), MuxFinder(n, 1, g));
    } else {
      BeyondSquare(n, g, MuxQubits(n, 1, g), MuxFinder(n, 1, g));
    }
  }

  /** Beyond the square the MUX generator couples rows g - 1 and g; the simple one does not. */
  lemma BeyondSquare(n: nat, g: nat, qubits: Qubits, finder: Finder)
    requires g > 0 && g * g < n
    requires qubits == SimpleQubits(n, g) && Numbered(n, qubits) && Inverts(finder, qubits)
    ensures Couplings(n, qubits, finder) != SimpleCouplings(n, g)
  {
    var a, b := (g - 1) * g, g * g;
    CombineDigits(g - 1, 0, g);
    CombineDigits(g, 0, g);
    assert qubits[b] == BottomOf(qubits[a]);
    CouplingsExact(n, qubits, finder);
    var c := if Parity(qubits[a]) == 0 then Coupling(a, b) else Coupling(b, a);
    NextFlipsParity(qubits[a], qubits[b]);
    assert c in Couplings(n, qubits, finder);
    SimpleStaysInSquare(n, g);
    assert !WithinSquare(c, g);
  }

  // ---------------------------------------------------------------------
  // What the simple generator lists
  // ---------------------------------------------------------------------

  /** The generator goes from q to r: one to the right, or one row down inside the square. */
  predicate Goes(q: nat, r: nat, g: nat)
    requires g > 0
  {
    (r == q + 1 && q % g + 1 < g) || (r == q + g && q / g + 1 < g)
  }

  function Low(c: Coupling): nat {
    if c.control < c.target then c.control else c.target
  }

  function High(c: Coupling): nat {
    if c.control < c.target then c.target else c.control
  }

  predicate GoneFrom(c: Coupling, g: nat)
    requires g > 0
  {
    Goes(Low(c), High(c), g) && Parity(RowMajor(c.control, g)) == 0
  }

  lemma GoesNext(q: nat, r: nat, g: nat)
    requires g > 0 && Goes(q, r, g)
    ensures q < r && IsNext(RowMajor(q, g), RowMajor(r, g))
  {
    if r == q + 1 && q % g + 1 < g {
      SameRow(q, g);
    } else {
      SplitDigits(q, g);
      OneBlockMore(q / g, g);
      DivModUnique(r, g, q / g + 1, q % g);
    }
  }

  lemma LookupExact(q: nat, r: nat, g: nat, c: Coupling)
    requires g > 0 && Goes(q, r, g)
    ensures c == Lookup(q, r, g) <==> Low(c) == q && High(c) == r && Parity(RowMajor(c.control, g)) == 0
  {
    hide RowMajor;
    GoesNext(q, r, g);
    NextFlipsParity(RowMajor(q, g), RowMajor(r, g));
  }

  lemma OneQubitExact(q: nat, g: nat, c: Coupling)
    requires g > 0
    ensures c in RightCoupling(q, g) + BottomCoupling(q, g) <==> Low(c) == q && GoneFrom(c, g)
    ensures Distinct(RightCoupling(q, g) + BottomCoupling(q, g))
  {
    hide Lookup, RowMajor, Low, High;
    OneStep(q, g);
    if q % g + 1 < g {
      LookupExact(q, q + 1, g, c);
    }
    if q / g + 1 < g {
      LookupExact(q, q + g, g, c);
    }
    if q % g + 1 < g && q / g + 1 < g {
      LookupExact(q, q + 1, g, Lookup(q, q + 1, g));
      LookupExact(q, q + g, g, Lookup(q, q + 1, g));
    }
  }

  lemma OneStep(q: nat, g: nat)
    requires g > 0
    ensures RightCoupling(q, g) == if q % g + 1 < g then [Lookup(q, q + 1, g)] else []
    ensures BottomCoupling(q, g) == if q / g + 1 < g then [Lookup(q, q + g, g)] else []
  {
    hide Lookup;
    SplitDigits(q, g);
    OneBlockMore(q / g, g);
  }

  lemma {:induction false} SimpleBySource(k: nat, g: nat)
    requires g > 0
    ensures forall c :: c in SimpleCouplings(k, g) <==> Low(c) < k && GoneFrom(c, g)
    ensures Distinct(SimpleCouplings(k, g))
  {
    hide RightCoupling, BottomCoupling, GoneFrom, Low;
    if k == 0 {
    } else {
      SimpleBySource(k - 1, g);
      var before, last := SimpleCouplings(k - 1, g), RightCoupling(k - 1, g) + BottomCoupling(k - 1, g);
      forall c ensures c in last <==> Low(c) == k - 1 && GoneFrom(c, g) {
        OneQubitExact(k - 1, g, c);
      }
      assert Distinct(last) by {
        OneQubitExact(k - 1, g, Coupling(0, 0));
      }
      DistinctConcat(before, last);
      assert SimpleCouplings(k, g) == before + last;
    }
  }

  /** In row-major order two qubits are one step apart, in one row or both inside the square, exactly
      if the generator goes from one to the other. */
  lemma GoesIsOneApart(a: nat, b: nat, g: nat)
    requires g > 0 && a < b
    ensures Goes(a, b, g) <==>
      OneApart(RowMajor(a, g), RowMajor(b, g)) && (a / g == b / g || (a / g < g && b / g < g))
  {
    SplitDigits(a, g);
    SplitDigits(b, g);
    OneBlockMore(a / g, g);
    if Goes(a, b, g) {
      GoesNext(a, b, g);
    }
    if OneApart(RowMajor(a, g), RowMajor(b, g)) && a / g == b / g {
      assert b == a + 1;
    }
    if OneApart(RowMajor(a, g), RowMajor(b, g)) && a / g != b / g {
      RowsInOrder(a, b, g);
    }
  }

  lemma RowsInOrder(a: nat, b: nat, g: nat)
    requires g > 0 && a < b
    ensures a / g <= b / g
  {
    SplitDigits(a, g);
    SplitDigits(b, g);
    OneBlockMore(b / g, g);
    if b / g < a / g {
      ScaleUp(g, b / g + 1, a / g);
    }
  }

  /** The rows of g are full, and there are at least g of them. */
  predicate FullRows(n: nat, g: nat)
    requires g > 0
  {
    g * g <= n && n % g == 0
  }

  /** Neither end lies outside. */
  lemma GoesInside(q: nat, r: nat, n: nat, g: nat)
    requires g > 0 && FullRows(n, g) && q < n && Goes(q, r, g)
    ensures r < n
  {
    hide FullRows;
    SplitDigits(q, g);
    GoesInsideAt(q, r, q / g, q % g, n, g);
  }

  lemma GoesInsideAt(q: nat, r: nat, row: nat, col: nat, n: nat, g: nat)
    requires g > 0 && FullRows(n, g) && q < n && q == row * g + col && col < g
    requires (r == q + 1 && col + 1 < g) || (r == q + g && row + 1 < g)
    ensures r < n
  {
    SplitDigits(n, g);
    RowInside(r, row, col, n / g, n, g);
  }

  lemma RowInside(r: nat, row: nat, col: nat, k: nat, n: nat, g: nat)
    requires g * g <= n && n == k * g && row * g + col < n && col < g
    requires (r == row * g + col + 1 && col + 1 < g) || (r == row * g + col + g && row + 1 < g)
    ensures r < n
  {
    OneBlockMore(row, g);
    if r == row * g + col + g {
      ScaleUp(g, row + 2, g);
    } else if row < k {
      ScaleUp(g, row + 1, k);
    } else {
      ScaleUp(g, k, row);
    }
  }

  /** The outcome without the functions above: with g the integer square root of n, an error exactly if g does not
      divide n; otherwise qubit q sits where row * g + col == q, and [a, b] is a coupling exactly if the qubits are one
      step apart, in one row or both in the first g rows, and row and column of a have an even sum. */
  lemma SimpleTopologyInWords(n: nat, g: nat)
    requires g > 0 && g * g <= n < (g + 1) * (g + 1)
    ensures n % g != 0 ==> SimpleTopology(n) == Err(MissingQubit)
    ensures n % g == 0 ==>
      && SimpleTopology(n).Ok?
      && SimpleTopology(n).value.gridSize == g
      && SimpleQubitsInWords(n, g, SimpleTopology(n).value.qubits)
      && SimpleCouplingsInWords(g, SimpleTopology(n).value)
  {
    hide SimpleQubits, SimpleCouplings, ISqrt, SimpleQubitsInWords, SimpleCouplingsInWords;
    ISqrtUnique(n, g);
    if n % g == 0 {
      SimplePlaces(n, g);
      SimpleNeighbours(n, g, Topology(g, SimpleQubits(n, g), SimpleCouplings(n, g)));
    }
  }

  ghost predicate SimpleQubitsInWords(n: nat, g: nat, qubits: Qubits) {
    && (forall q :: q in qubits <==> 0 <= q < n)
    && (forall q :: q in qubits ==> 0 <= qubits[q].col < g && qubits[q].row * g + qubits[q].col == q)
  }

  ghost predicate SimpleCouplingsInWords(g: nat, t: Topology) {
    && Distinct(t.couplings)
    && (forall a, b :: Coupling(a, b) in t.couplings <==> SimplyCoupled(a, b, g, t.qubits))
  }

  ghost predicate SimplyCoupled(a: nat, b: nat, g: nat, qubits: Qubits) {
    && a in qubits && b in qubits && OneApart(qubits[a], qubits[b])
    && (qubits[a].row == qubits[b].row || (qubits[a].row < g && qubits[b].row < g))
    && (qubits[a].row + qubits[a].col) % 2 == 0
  }

  lemma SimplePlaces(n: nat, g: nat)
    requires g > 0
    ensures SimpleQubitsInWords(n, g, SimpleQubits(n, g))
  {
    forall q: nat | q < n ensures 0 <= RowMajor(q, g).col < g && RowMajor(q, g).row * g + RowMajor(q, g).col == q {
      SplitDigits(q, g);
    }
  }

  lemma SimpleNeighbours(n: nat, g: nat, t: Topology)
    requires g > 0 && FullRows(n, g)
    requires t.qubits == SimpleQubits(n, g) && t.couplings == SimpleCouplings(n, g)
    ensures SimpleCouplingsInWords(g, t)
  {
    hide SimpleCouplings, SimpleQubits, GoneFrom, SimplyCoupled, Low, FullRows;
    SimpleBySource(n, g);
    forall a: nat, b: nat ensures Coupling(a, b) in t.couplings <==> SimplyCoupled(a, b, g, t.qubits) {
      OneNeighbour(n, g, t.qubits, a, b);
    }
  }

  lemma OneNeighbour(n: nat, g: nat, qubits: Qubits, a: nat, b: nat)
    requires g > 0 && FullRows(n, g) && qubits == SimpleQubits(n, g)
    ensures Low(Coupling(a, b)) < n && GoneFrom(Coupling(a, b), g) <==> SimplyCoupled(a, b, g, qubits)
  {
    hide Goes, OneApart, FullRows;
    var q, r := Low(Coupling(a, b)), High(Coupling(a, b));
    if q < r {
      GoesIsOneApart(q, r, g);
      ApartBothWays(RowMajor(a, g), RowMajor(b, g));
      if q < n && Goes(q, r, g) {
        GoesInside(q, r, n, g);
      }
    } else {
      NotApartFromItself(RowMajor(a, g));
      NoLoop(a, g);
    }
  }

  lemma ApartBothWays(p: Position, q: Position)
    ensures OneApart(p, q) <==> OneApart(q, p)
  {
  }

  lemma NotApartFromItself(p: Position)
    ensures !OneApart(p, p)
  {
  }

  lemma NoLoop(q: nat, g: nat)
    requires g > 0
    ensures !Goes(q, q, g)
  {
  }

  // ---------------------------------------------------------------------
  // How many couplings there are
  // ---------------------------------------------------------------------

  ghost predicate Renumberable(c: Coupling, qubits: Qubits, finder: Finder) {
    && c.control in qubits && qubits[c.control] in finder
    && c.target in qubits && qubits[c.target] in finder
  }

  /** The coupling between the same two positions in another numbering. */
  ghost function Renumber(c: Coupling, qubits: Qubits, finder: Finder): Coupling
    requires Renumberable(c, qubits, finder)
  {
    Coupling(finder[qubits[c.control]], finder[qubits[c.target]])
  }

  /** Both dictionaries know the same positions. */
  ghost predicate SamePositions(f1: Finder, f2: Finder) {
    f1.Keys == f2.Keys
  }

  lemma RenumberProper(c: Coupling, q1: Qubits, f1: Finder, q2: Qubits, f2: Finder)
    requires Inverts(f1, q1) && Inverts(f2, q2) && SamePositions(f1, f2) && ProperCoupling(c, q1)
    ensures Renumberable(c, q1, f2)
    ensures ProperCoupling(Renumber(c, q1, f2), q2)
  {
  }

  lemma RenumberInjective(c: Coupling, d: Coupling, q1: Qubits, f1: Finder, q2: Qubits, f2: Finder)
    requires Inverts(f1, q1) && Inverts(f2, q2)
    requires Renumberable(c, q1, f2) && Renumberable(d, q1, f2) && c != d
    ensures Renumber(c, q1, f2) != Renumber(d, q1, f2)
  {
  }

  lemma NoMoreCouplings(n: nat, q1: Qubits, f1: Finder, q2: Qubits, f2: Finder)
    requires Numbered(n, q1) && Inverts(f1, q1)
    requires Numbered(n, q2) && Inverts(f2, q2)
    requires SamePositions(f1, f2)
    ensures |Couplings(n, q1, f1)| <= |Couplings(n, q2, f2)|
  {
    hide ProperCoupling, Inverts;
    CouplingsExact(n, q1, f1);
    CouplingsExact(n, q2, f2);
    forall c | ProperCoupling(c, q1)
      ensures Renumberable(c, q1, f2) && ProperCoupling(Renumber(c, q1, f2), q2)
    {
      RenumberProper(c, q1, f1, q2, f2);
    }
    InjectionLength(Couplings(n, q1, f1), Couplings(n, q2, f2), q1, f1, q2, f2);
  }

  lemma {:induction false} InjectionLength(list1: seq<Coupling>, list2: seq<Coupling>, q1: Qubits, f1: Finder,
                                           q2: Qubits, f2: Finder)
    requires Inverts(f1, q1) && Inverts(f2, q2)
    requires Distinct(list1) && Distinct(list2)
    requires forall c :: c in list1 ==> Renumberable(c, q1, f2) && Renumber(c, q1, f2) in list2
    ensures |list1| <= |list2|
  {
    hide Inverts, Renumberable, Renumber;
    if list1 == [] {
    } else {
      var front, last := list1[..|list1| - 1], list1[|list1| - 1];
      assert last in list1 && forall c :: c in front ==> c in list1 && c != last;
      var d := Renumber(last, q1, f2);
      var i :| 0 <= i < |list2| && list2[i] == d;
      var rest := list2[..i] + list2[i + 1..];
      forall c | c in front ensures Renumber(c, q1, f2) in rest {
        RenumberInjective(c, last, q1, f1, q2, f2);
        var j :| 0 <= j < |list2| && list2[j] == Renumber(c, q1, f2);
        assert list2[j] == rest[if j < i then j else j - 1];
      }
      InjectionLength(front, rest, q1, f1, q2, f2);
    }
  }

  /** Only the occupied positions matter for the number of couplings. */
  lemma SamePositionsSameCount(n: nat, q1: Qubits, f1: Finder, q2: Qubits, f2: Finder)
    requires Numbered(n, q1) && Inverts(f1, q1)
    requires Numbered(n, q2) && Inverts(f2, q2)
    requires SamePositions(f1, f2)
    ensures |Couplings(n, q1, f1)| == |Couplings(n, q2, f2)|
  {
    hide Inverts, Couplings;
    NoMoreCouplings(n, q1, f1, q2, f2);
    NoMoreCouplings(n, q2, f2, q1, f1);
  }

  function Min(a: int, b: int): int {
    if a < b then a else b
  }

  /** The couplings of the first n qubits when n is in row `row` of g, `col` along: g - 1 to the right in each row,
      g downwards except in the last. */
  function CountAt(n: nat, row: nat, col: nat, g: nat): int {
    row * (g - 1) + Min(col, g - 1) + (if row < g - 1 then n else (g - 1) * g)
  }

  lemma OneMoreQubit(n: nat, row: nat, col: nat, g: nat)
    requires row < g && col < g && n == row * g + col
    ensures |SimpleCouplings(n + 1, g)| ==
      |SimpleCouplings(n, g)| + (if col + 1 < g then 1 else 0) + (if row + 1 < g then 1 else 0)
  {
    hide Lookup;
    CombineDigits(row, col, g);
  }

  lemma CountNext(n: nat, row: nat, col: nat, g: nat)
    requires row < g && col < g && n == row * g + col
    ensures CountAt(n + 1, row, col + 1, g)
         == CountAt(n, row, col, g) + (if col + 1 < g then 1 else 0) + (if row + 1 < g then 1 else 0)
  {
  }

  lemma CountNextRow(n: nat, row: nat, g: nat)
    requires 0 < row < g && n == row * g
    ensures CountAt(n, row - 1, g, g) == CountAt(n, row, 0, g)
    ensures (row - 1) * g + g == n
  {
    assert (row - 1) * (g - 1) + (g - 1) == row * (g - 1);
    assert (row - 1) * g + g == row * g;
  }

  lemma CountStart(n: nat, g: nat)
    requires n == 0 && g > 0
    ensures |SimpleCouplings(n, g)| == CountAt(n, 0, 0, g)
  {
  }

  /** Count row by row. */
  lemma {:induction false} CountUpTo(n: nat, row: nat, col: nat, g: nat)
    requires row < g && col <= g && n == row * g + col
    ensures |SimpleCouplings(n, g)| == CountAt(n, row, col, g)
    decreases row, col
  {
    hide SimpleCouplings, CountAt;
    if col > 0 {
      CountUpTo(n - 1, row, col - 1, g);
      OneMoreQubit(n - 1, row, col - 1, g);
      CountNext(n - 1, row, col - 1, g);
    } else if row > 0 {
      CountNextRow(n, row, g);
      CountUpTo(n, row - 1, g, g);
    } else {
      CountStart(n, g);
    }
  }

  lemma SimpleCount(n: nat, g: nat)
    requires g > 0 && n == (g - 1) * g + g
    ensures |SimpleCouplings(n, g)| == 2 * ((g - 1) * g)
  {
    hide SimpleCouplings;
    CountUpTo(n, g - 1, g, g);
    FullSquareCount(n, g);
  }

  lemma FullSquareCount(n: nat, g: nat)
    requires g > 0
    ensures CountAt(n, g - 1, g, g) == 2 * ((g - 1) * g)
  {
    assert (g - 1) * (g - 1) + (g - 1) == (g - 1) * g;
  }

  /** The positions of the g-by-g grid. */
  predicate InSquare(pos: Position, g: nat) {
    0 <= pos.row < g && 0 <= pos.col < g
  }

  ghost predicate FillsSquare(qubits: Qubits, g: nat) {
    forall pos :: pos in qubits.Values <==> InSquare(pos, g)
  }

  lemma MuxFillsSquare(n: nat, g: nat, m: nat, p: nat)
    requires m > 0 && p > 0 && g == p * m && n == g * g
    ensures FillsSquare(MuxQubits(n, m, p), g)
  {
    var qubits := MuxQubits(n, m, p);
    forall pos ensures pos in qubits.Values <==> InSquare(pos, g) {
      if pos in qubits.Values {
        var q :| 0 <= q < n && PositionOf(q, m, p) == pos;
        LayoutInverse(q, m, p);
        LayoutFillsSquare(pos, m, p);
      }
      if InSquare(pos, g) {
        LayoutFillsSquare(pos, m, p);
        LayoutOnto(pos, m, p);
        assert qubits[QubitAt(pos, m, p)] == pos;
      }
    }
  }

  /** For n = g * g qubits and a block size that divides g, the MUX generator
      returns the full grid: all 2g(g - 1) couplings between neighbours. */
  lemma MuxTopologyOfSquare(n: nat, g: nat, m: nat, p: nat)
    requires m > 0 && p > 0 && g == p * m && n == g * g
    ensures
      var t := MuxTopology(n, m);
      && t.Ok? && t.value.gridSize == g
      && Numbered(n, t.value.qubits) && FillsSquare(t.value.qubits, g)
      && |t.value.couplings| == 2 * (g * (g - 1))
  {
    BlockedGrid(n, g, m, p);
    MuxFinderInverts(n, m, p);
    MuxFillsSquare(n, g, m, p);
    MuxCount(n, g, m, p);
  }

  lemma MuxCount(n: nat, g: nat, m: nat, p: nat)
    requires m > 0 && p > 0 && g == p * m && n == g * g
    ensures |Couplings(n, MuxQubits(n, m, p), MuxFinder(n, m, p))| == 2 * (g * (g - 1))
  {
    hide MuxQubits, MuxFinder, SimpleQubits, Couplings, Inverts, Numbered;
    BlockedGrid(n, g, m, p);
    SquarePositions(n, g, m, p);
    MuxFinderInverts(n, m, p);
    MuxFinderInverts(n, 1, g);
    SameQubits(n, g);
    SamePositionsSameCount(n, MuxQubits(n, m, p), MuxFinder(n, m, p), SimpleQubits(n, g), MuxFinder(n, 1, g));
    RowMajorCount(n, g, MuxFinder(n, 1, g));
  }

  lemma FinderKnows(qubits: Qubits, finder: Finder, g: nat)
    requires Inverts(finder, qubits) && FillsSquare(qubits, g)
    ensures forall pos :: pos in finder <==> InSquare(pos, g)
  {
    forall pos | pos in finder ensures pos in qubits.Values {
      assert qubits[finder[pos]] == pos;
    }
  }

  lemma SquarePositions(n: nat, g: nat, m: nat, p: nat)
    requires m > 0 && p > 0 && g == p * m && n == g * g && g > 0
    ensures SamePositions(MuxFinder(n, m, p), MuxFinder(n, 1, g))
  {
    hide MuxQubits, MuxFinder, FillsSquare, Inverts;
    MuxFillsSquare(n, g, m, p);
    MuxFillsSquare(n, g, 1, g);
    MuxFinderInverts(n, m, p);
    MuxFinderInverts(n, 1, g);
    FinderKnows(MuxQubits(n, m, p), MuxFinder(n, m, p), g);
    FinderKnows(MuxQubits(n, 1, g), MuxFinder(n, 1, g), g);
  }

  lemma RowMajorCount(n: nat, g: nat, finder: Finder)
    requires g > 0 && n == g * g && n == (g - 1) * g + g && Inverts(finder, SimpleQubits(n, g))
    ensures |Couplings(n, SimpleQubits(n, g), finder)| == 2 * (g * (g - 1))
  {
    SameCouplings(n, g, SimpleQubits(n, g), finder);
    SimpleCount(n, g);
  }

  lemma BlockedGrid(n: nat, g: nat, m: nat, p: nat)
    requires m > 0 && p > 0 && g == p * m && n == g * g
    ensures g > 0 && ISqrt(n) == g && g / m == p && n == (g - 1) * g + g
  {
    ScaleUp(m, 1, p);
    ISqrtUnique(n, g);
    DivModUnique(g, m, p, 0);
  }
}
