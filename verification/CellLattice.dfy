/** `qubit_lattice` of src/tools/calc_poisition.py: an independent generator for 2-by-2 blocks. */
module CellLattice {
  import opened Common
  import opened LatticeLayout
  import opened LatticeCouplings
  import opened MuxLattice
  import opened SimpleLattice

  type Edge = (nat, nat)

  function Node(i: nat, j: nat, k: nat, d: nat): nat {
    4 * (i * d + j) + k
  }

  /** The edges that the loop body adds in cell (i, j). */
  function CellEdges(i: nat, j: nat, d: nat): seq<Edge> {
    CellEdgesAt(i * d + j, d, i != d - 1, j != d - 1)
  }

  /** The same by the number of the cell; `below` and `beside` say whether there is
      a cell below, d numbers on, and a cell to the right. */
  function CellEdgesAt(x: nat, d: nat, below: bool, beside: bool): seq<Edge> {
    [(4 * x, 4 * x + 1), (4 * x, 4 * x + 2), (4 * x + 1, 4 * x + 3), (4 * x + 2, 4 * x + 3)]
    + (if below then [(4 * x + 2, 4 * (x + d)), (4 * x + 3, 4 * (x + d) + 1)] else [])
    + (if beside then [(4 * x + 1, 4 * (x + 1)), (4 * x + 3, 4 * (x + 1) + 2)] else [])
  }

  /** The edges of the first t cells, row by row. */
  function CellsUpTo(t: nat, d: nat): seq<Edge>
    requires d > 0
  {
    if t == 0 then [] else CellsUpTo(t - 1, d) + CellAt(t - 1, d)
  }

  function CellAt(x: nat, d: nat): seq<Edge>
    requires d > 0
  {
    CellEdges(x / d, x % d, d)
  }

  function LatticeEdges(d: nat): seq<Edge> {
    if d == 0 then [] else CellsUpTo(d * d, d)
  }

  /** Grid position of the k-th qubit of cell (i, j). */
  function CellPosition(i: nat, j: nat, k: nat): Position {
    Position(2 * i + k / 2, 2 * j + k % 2)
  }

  lemma NodePosition(i: nat, j: nat, k: nat, d: nat)
    requires i < d && j < d && k < 4
    ensures Node(i, j, k, d) < 4 * (d * d)
    ensures PositionOf(Node(i, j, k, d), 2, d) == CellPosition(i, j, k)
    ensures Node(i, j, k, d) / 4 == i * d + j
  {
    DivModUnique(Node(i, j, k, d), 4, i * d + j, k);
    CombineDigits(i, j, d);
    BottomInside(i, j, d * d, d);
    QuotientBelow(i * d + j, d, d);
  }

  /** Every node is a place in a cell. */
  lemma NodeOf(q: nat, d: nat) returns (i: nat, j: nat, k: nat)
    requires d > 0 && q < 4 * (d * d)
    ensures i < d && j < d && k < 4 && q == Node(i, j, k, d)
  {
    var t := q / 4;
    i, j, k := t / d, t % d, q % 4;
    QuotientBelow(t, d, d);
    SplitDigits(t, d);
  }

  lemma SameNumber(i: nat, j: nat, i': nat, j': nat, d: nat)
    requires j < d && j' < d
    ensures i' * d + j' == i * d + j <==> i' == i && j' == j
  {
    CombineDigits(i, j, d);
    CombineDigits(i', j', d);
  }

  lemma CellNumber(i: nat, j: nat, i': nat, j': nat, d: nat)
    requires i < d && j < d && i' < d && j' < d
    ensures i' * d + j' == i * d + j <==> i' == i && j' == j
    ensures i + 1 < d ==> (i' * d + j' == i * d + j + d <==> i' == i + 1 && j' == j)
    ensures j + 1 < d ==> (i' * d + j' == i * d + j + 1 <==> i' == i && j' == j + 1)
  {
    SameNumber(i, j, i', j', d);
    NextRowStart(i, d);
    SameNumber(i + 1, j, i', j', d);
    if j + 1 < d {
      SameNumber(i, j + 1, i', j', d);
    }
  }

  /** Steps from the k-th place of a cell: within it, to the cell below, to the right. */
  predicate StepInside(k: nat, k': nat) {
    (k, k') in {(0, 1), (0, 2), (1, 3), (2, 3)}
  }

  predicate StepBelow(k: nat, k': nat) {
    (k, k') in {(2, 0), (3, 1)}
  }

  predicate StepBeside(k: nat, k': nat) {
    (k, k') in {(1, 0), (3, 2)}
  }

  lemma CellEdgesAtExact(x: nat, k: nat, x': nat, k': nat, d: nat, below: bool, beside: bool)
    requires k < 4 && k' < 4
    ensures (4 * x + k, 4 * x' + k') in CellEdgesAt(x, d, below, beside) <==>
      || (x' == x && StepInside(k, k'))
      || (below && x' == x + d && StepBelow(k, k'))
      || (beside && x' == x + 1 && StepBeside(k, k'))
  {
  }

  lemma StepsAreNext(i: nat, j: nat, k: nat, i': nat, j': nat, k': nat)
    requires k < 4 && k' < 4
    ensures IsNext(CellPosition(i, j, k), CellPosition(i', j', k')) <==>
      || (i' == i && j' == j && StepInside(k, k'))
      || (i' == i + 1 && j' == j && StepBelow(k, k'))
      || (i' == i && j' == j + 1 && StepBeside(k, k'))
  {
  }

  /** The same with the numbers x and x' of the two cells. */
  lemma CellStep(x: nat, x': nat, i: nat, j: nat, k: nat, i': nat, j': nat, k': nat, d: nat)
    requires k < 4 && k' < 4
    requires x' == x <==> i' == i && j' == j
    requires i != d - 1 ==> (x' == x + d <==> i' == i + 1 && j' == j)
    requires j != d - 1 ==> (x' == x + 1 <==> i' == i && j' == j + 1)
    requires i' < d && j' < d
    ensures (4 * x + k, 4 * x' + k') in CellEdgesAt(x, d, i != d - 1, j != d - 1) <==>
      IsNext(CellPosition(i, j, k), CellPosition(i', j', k'))
  {
    hide CellEdgesAt, IsNext, CellPosition, StepInside, StepBelow, StepBeside;
    CellEdgesAtExact(x, k, x', k', d, i != d - 1, j != d - 1);
    StepsAreNext(i, j, k, i', j', k');
  }

  lemma CellRelations(i: nat, j: nat, i': nat, j': nat, d: nat)
    requires i < d && j < d && i' < d && j' < d
    ensures
      var x, x' := i * d + j, i' * d + j';
      && x >= 0 && x' >= 0
      && (x' == x <==> i' == i && j' == j)
      && (i != d - 1 ==> (x' == x + d <==> i' == i + 1 && j' == j))
      && (j != d - 1 ==> (x' == x + 1 <==> i' == i && j' == j + 1))
  {
    CellNumber(i, j, i', j', d);
  }

  /** A cell lists exactly the edges from its qubits to their right and bottom neighbours. */
  lemma CellEdgesExact(i: nat, j: nat, k: nat, i': nat, j': nat, k': nat, d: nat)
    requires i < d && j < d && k < 4 && i' < d && j' < d && k' < 4
    ensures (Node(i, j, k, d), Node(i', j', k', d)) in CellEdges(i, j, d) <==>
      IsNext(CellPosition(i, j, k), CellPosition(i', j', k'))
  {
    hide CellEdgesAt, IsNext, CellPosition;
    CellRelations(i, j, i', j', d);
    CellStep(i * d + j, i' * d + j', i, j, k, i', j', k', d);
  }

  /** An edge starts in the cell that lists it. */
  lemma SourceCell(x: nat, e: Edge, d: nat)
    requires d > 0 && e in CellAt(x, d)
    ensures e.0 / 4 == x
  {
    SplitDigits(x, d);
  }

  lemma {:induction false} CellsUpToMembers(t: nat, d: nat, e: Edge)
    requires d > 0
    ensures e in CellsUpTo(t, d) <==> e.0 / 4 < t && e in CellAt(e.0 / 4, d)
  {
    hide CellAt;
    if t == 0 {
    } else {
      CellsUpToMembers(t - 1, d, e);
      if e in CellAt(t - 1, d) {
        SourceCell(t - 1, e, d);
      }
    }
  }

  lemma CellInside(i: nat, j: nat, d: nat)
    requires i < d && j < d
    ensures 0 <= i * d + j < d * d
    ensures i + 1 < d ==> i * d + j + d < d * d
    ensures j + 1 < d ==> i * d + j + 1 < d * d
  {
    ScaleUp(d, i + 1, d);
    if i + 1 < d {
      ScaleUp(d, i + 2, d);
    }
  }

  lemma EdgeTarget(x: nat, d: nat, below: bool, beside: bool, e: Edge)
    requires e in CellEdgesAt(x, d, below, beside)
    ensures e.1 < 4 * (x + 1) || (below && e.1 < 4 * (x + d + 1)) || (beside && e.1 < 4 * (x + 2))
  {
  }

  lemma EdgeStaysInside(i: nat, j: nat, e: Edge, d: nat)
    requires i < d && j < d && e in CellEdges(i, j, d)
    ensures e.1 < 4 * (d * d)
  {
    CellInside(i, j, d);
    EdgeTarget(i * d + j, d, i != d - 1, j != d - 1, e);
  }

  /** The edges run exactly from each qubit to its right and bottom neighbour. */
  lemma LatticeEdgesExact(a: nat, b: nat, d: nat)
    requires d > 0
    ensures (a, b) in LatticeEdges(d) <==>
      a < 4 * (d * d) && b < 4 * (d * d) && IsNext(PositionOf(a, 2, d), PositionOf(b, 2, d))
  {
    CellsUpToMembers(d * d, d, (a, b));
    if a < 4 * (d * d) {
      var i, j, k := NodeOf(a, d);
      NodePosition(i, j, k, d);
      CombineDigits(i, j, d);
      assert CellAt(a / 4, d) == CellEdges(i, j, d);
      EdgeFrom(i, j, k, b, d);
    }
  }

  lemma EdgeFrom(i: nat, j: nat, k: nat, b: nat, d: nat)
    requires i < d && j < d && k < 4
    ensures (Node(i, j, k, d), b) in CellEdges(i, j, d) <==>
      b < 4 * (d * d) && IsNext(CellPosition(i, j, k), PositionOf(b, 2, d))
  {
    if (Node(i, j, k, d), b) in CellEdges(i, j, d) {
      EdgeStaysInside(i, j, (Node(i, j, k, d), b), d);
    }
    if b < 4 * (d * d) {
      var i', j', k' := NodeOf(b, d);
      NodePosition(i', j', k', d);
      CellEdgesExact(i, j, k, i', j', k', d);
    }
  }

  lemma CellEdgesDistinct(x: nat, d: nat, below: bool, beside: bool)
    ensures Distinct(CellEdgesAt(x, d, below, beside))
  {
  }

  lemma CellIsNew(x: nat, d: nat)
    requires d > 0
    ensures forall e :: e in CellAt(x, d) ==> e !in CellsUpTo(x, d)
  {
    hide CellAt, CellsUpTo;
    forall e | e in CellAt(x, d) ensures e !in CellsUpTo(x, d) {
      SourceCell(x, e, d);
      CellsUpToMembers(x, d, e);
    }
  }

  lemma CellAtDistinct(x: nat, d: nat)
    requires d > 0
    ensures Distinct(CellAt(x, d))
  {
    hide CellEdgesAt;
    CellEdgesDistinct(x / d * d + x % d, d, x / d != d - 1, x % d != d - 1);
  }

  lemma {:induction false} EdgesDistinct(t: nat, d: nat)
    requires d > 0
    ensures Distinct(CellsUpTo(t, d))
  {
    hide CellAt, Distinct;
    if t > 0 {
      EdgesDistinct(t - 1, d);
      CellAtDistinct(t - 1, d);
      CellIsNew(t - 1, d);
      DistinctConcat(CellsUpTo(t - 1, d), CellAt(t - 1, d));
    } else {
      NothingDistinct<Edge>();
    }
  }

  lemma NothingDistinct<T>()
    ensures Distinct<T>([])
  {
  }

  /** The place of a qubit in a drawing: 50 units per column, rows downwards. */
  predicate DrawnAt(pos: map<nat, (int, int)>, q: nat, grid: Position) {
    q in pos && pos[q] == (50 * grid.col, -50 * grid.row)
  }

  method QubitLattice(d: nat) returns (edges: seq<Edge>, pos: map<nat, (int, int)>)
    ensures edges == LatticeEdges(d)
    ensures d == 0 ==> pos == map[]
    ensures d > 0 ==> forall q :: q in pos <==> 0 <= q < 4 * (d * d)
    ensures d > 0 ==> forall q :: q in pos ==> pos[q] == (50 * PositionOf(q, 2, d).col, -50 * PositionOf(q, 2, d).row)
  {
    hide PositionOf;
    edges := CollectEdges(d);
    pos := DrawPositions(d);
  }

  method CollectEdges(d: nat) returns (edges: seq<Edge>)
    ensures edges == LatticeEdges(d)
  {
    edges := [];
    for i := 0 to d
      invariant d > 0 ==> edges == CellsUpTo(i * d, d)
      invariant d == 0 ==> edges == []
    {
      var row := EdgesOfRow(i, d);
      edges := edges + row;
      NextRowStart(i, d);
    }
  }

  /** The inner loop: the edges of the cells of one row. */
  method EdgesOfRow(i: nat, d: nat) returns (edges: seq<Edge>)
    requires i < d
    ensures CellsUpTo(i * d, d) + edges == CellsUpTo(i * d + d, d)
  {
    hide CellAt;
    edges := [];
    ghost var start := i * d;
    for j := 0 to d
      invariant CellsUpTo(start, d) + edges == CellsUpTo(start + j, d)
    {
      var cell := EdgesOfCell(i, j, d);
      CellInRow(i, j, d);
      assert CellsUpTo(start, d) + (edges + cell) == CellsUpTo(start, d) + edges + cell;
      edges := edges + cell;
    }
  }

  lemma CellInRow(i: nat, j: nat, d: nat)
    requires i < d && j < d
    ensures CellAt(i * d + j, d) == CellEdges(i, j, d)
  {
    CombineDigits(i, j, d);
  }

  lemma NextRowStart(i: nat, d: nat)
    ensures (i + 1) * d == i * d + d
  {
  }

  method EdgesOfCell(i: nat, j: nat, d: nat) returns (edges: seq<Edge>)
    requires i < d && j < d
    ensures edges == CellEdges(i, j, d)
  {
    edges := [(Node(i, j, 0, d), Node(i, j, 1, d)), (Node(i, j, 0, d), Node(i, j, 2, d)),
              (Node(i, j, 1, d), Node(i, j, 3, d)), (Node(i, j, 2, d), Node(i, j, 3, d))];
    assert (i + 1) * d + j == i * d + j + d;
    if i != d - 1 {
      edges := edges + [(Node(i, j, 2, d), Node(i + 1, j, 0, d)), (Node(i, j, 3, d), Node(i + 1, j, 1, d))];
    }
    if j != d - 1 {
      edges := edges + [(Node(i, j, 1, d), Node(i, j + 1, 0, d)), (Node(i, j, 3, d), Node(i, j + 1, 2, d))];
    }
  }

  method DrawPositions(d: nat) returns (pos: map<nat, (int, int)>)
    ensures d == 0 ==> pos == map[]
    ensures d > 0 ==> pos.Keys == MuxQubits(4 * (d * d), 2, d).Keys
    ensures d > 0 ==> forall q :: q in pos ==> DrawnAt(pos, q, PositionOf(q, 2, d))
  {
    pos := map[];
    for i := 0 to d
      invariant d == 0 ==> pos == map[]
      invariant d > 0 ==> forall q :: q in pos <==> 0 <= q < 4 * (i * d)
      invariant d > 0 ==> forall q :: q in pos ==> DrawnAt(pos, q, PositionOf(q, 2, d))
    {
      for j := 0 to d
        invariant forall q :: q in pos <==> 0 <= q < 4 * (i * d + j)
        invariant forall q :: q in pos ==> DrawnAt(pos, q, PositionOf(q, 2, d))
      {
        pos := DrawCell(pos, i, j, d);
      }
      assert (i + 1) * d == i * d + d;
    }
  }

  lemma NodesOfCell(i: nat, j: nat, d: nat)
    requires i < d && j < d
    ensures Node(i, j, 0, d) == 4 * (i * d + j) && Node(i, j, 1, d) == 4 * (i * d + j) + 1
    ensures Node(i, j, 2, d) == 4 * (i * d + j) + 2 && Node(i, j, 3, d) == 4 * (i * d + j) + 3
    ensures PositionOf(Node(i, j, 0, d), 2, d) == Position(2 * i, 2 * j)
    ensures PositionOf(Node(i, j, 1, d), 2, d) == Position(2 * i, 2 * j + 1)
    ensures PositionOf(Node(i, j, 2, d), 2, d) == Position(2 * i + 1, 2 * j)
    ensures PositionOf(Node(i, j, 3, d), 2, d) == Position(2 * i + 1, 2 * j + 1)
  {
    hide PositionOf;
    NodePosition(i, j, 0, d);
    NodePosition(i, j, 1, d);
    NodePosition(i, j, 2, d);
    NodePosition(i, j, 3, d);
  }

  method DrawCell(pos0: map<nat, (int, int)>, i: nat, j: nat, d: nat) returns (pos: map<nat, (int, int)>)
    requires i < d && j < d
    requires forall q :: q in pos0 <==> 0 <= q < 4 * (i * d + j)
    requires forall q :: q in pos0 ==> DrawnAt(pos0, q, PositionOf(q, 2, d))
    ensures forall q :: q in pos <==> 0 <= q < 4 * (i * d + j + 1)
    ensures forall q :: q in pos ==> DrawnAt(pos, q, PositionOf(q, 2, d))
  {
    hide PositionOf, Node;
    var scale := 50;
    var xBase: int, yBase: int := j * 2 * scale, -(i as int) * 2 * scale;
    NodesOfCell(i, j, d);
    pos := pos0;
    pos := pos[Node(i, j, 0, d) := (xBase, yBase)];
    pos := pos[Node(i, j, 1, d) := (xBase + scale, yBase)];
    pos := pos[Node(i, j, 2, d) := (xBase, yBase - scale)];
    pos := pos[Node(i, j, 3, d) := (xBase + scale, yBase - scale)];
  }

  /** The independent generator and the MUX generator with 2-by-2 blocks connect
      the same unordered pairs of qubits, each listed once by both. */
  lemma LatticesAgree(d: nat, a: nat, b: nat)
    requires d > 0
    ensures
      var t := MuxTopology(4 * (d * d), 2);
      && t.Ok? && Distinct(LatticeEdges(d)) && Distinct(t.value.couplings)
      && ((a, b) in LatticeEdges(d) || (b, a) in LatticeEdges(d) <==>
          Coupling(a, b) in t.value.couplings || Coupling(b, a) in t.value.couplings)
  {
    var n := 4 * (d * d);
    BlockedGrid(n, d * 2, 2, d);
    EdgesDistinct(d * d, d);
    MuxFinderInverts(n, 2, d);
    var qubits := MuxQubits(n, 2, d);
    CouplingsExact(n, qubits, MuxFinder(n, 2, d));
    LatticeEdgesExact(a, b, d);
    LatticeEdgesExact(b, a, d);
    if a in qubits && b in qubits && Neighbours(qubits[a], qubits[b]) {
      assert ProperCoupling(Coupling(a, b), qubits) || ProperCoupling(Coupling(b, a), qubits);
    }
  }
}
