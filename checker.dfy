/** The satisfiability check halo2's `MockProver::verify` performs on a
    completed assignment: every gate at every row whose selector is on, then
    every copy link. The check always completes and returns every failure. */
module MockProver {
  import opened Field
  import opened Plonk

  /** Where a failure sits: in a region (its index in placement order, its
      name and the row's offset inside it), or at a row outside every region. */
  datatype Location = InRegion(region: nat, name: string, offset: nat) | OutsideRegion(row: nat)

  /** A queried cell: column and rotation (always the current row here). */
  datatype VirtualCell = VirtualCell(column: nat, rotation: int)

  datatype Failure =
    | ConstraintNotSatisfied(gate: nat, gateName: string, constraint: nat, constraintName: string,
                             location: Location, cellValues: seq<(VirtualCell, Fe)>)
    | CellNotAssigned(gate: nat, gateName: string, location: Location, column: nat)
    | Permutation(cell: CellRef, other: CellRef)

  /** The region a row belongs to: the last placed region starting at or before it. */
  function Locate(regions: seq<RegionInfo>, row: nat): (loc: Location)
    ensures loc.InRegion? ==> loc.region < |regions| && loc.name == regions[loc.region].name
                              && regions[loc.region].start + loc.offset == row
    ensures loc.OutsideRegion? ==> loc.row == row
    ensures loc.InRegion? <==> exists i :: 0 <= i < |regions| && regions[i].start <= row
    ensures loc.InRegion? ==> forall j :: loc.region < j < |regions| ==> row < regions[j].start
    decreases |regions|
  {
    if |regions| == 0 then OutsideRegion(row)
    else
      var last := regions[|regions| - 1];
      if last.start <= row then InRegion(|regions| - 1, last.name, row - last.start)
      else
        var pre := regions[..|regions| - 1];
        assert forall i :: 0 <= i < |pre| ==> pre[i] == regions[i];
        Locate(pre, row)
  }

  /** The members of `s` below `n`, in increasing order. */
  function Columns(s: set<nat>, n: nat): (cs: seq<nat>)
    ensures forall i :: 0 <= i < |cs| ==> cs[i] in s && cs[i] < n
    ensures forall c :: c in s && c < n ==> c in cs
    ensures forall i, j :: 0 <= i < j < |cs| ==> cs[i] < cs[j]
  {
    if n == 0 then [] else Columns(s, n - 1) + (if n - 1 in s then [n - 1] else [])
  }

  /** The columns a polynomial reads, in increasing order. */
  function QueriedColumns(e: Expr): seq<nat>
  {
    Columns(Queried(e), Bound(e))
  }

  /** The columns any of the constraints read. */
  function GateQueried(cons: seq<Constraint>): set<nat>
  {
    if cons == [] then {} else Queried(cons[0].poly) + GateQueried(cons[1..])
  }

  /** One more than the largest column any of the constraints read. */
  function GateBound(cons: seq<Constraint>): nat
  {
    if cons == [] then 0 else Max(Bound(cons[0].poly), GateBound(cons[1..]))
  }

  /** A column some constraint reads is one the gate reads, below its bound. */
  lemma {:induction false} GateQueriedMember(cons: seq<Constraint>, k: nat, c: nat)
    requires k < |cons| && c in Queried(cons[k].poly)
    ensures c in GateQueried(cons) && c < GateBound(cons)
  {
    if k > 0 {
      assert cons[k] == cons[1..][k - 1];
      GateQueriedMember(cons[1..], k - 1, c);
    }
  }

  /** A column the gate reads is one some constraint reads. */
  lemma {:induction false} GateQueriedSource(cons: seq<Constraint>, c: nat)
    requires c in GateQueried(cons)
    ensures exists k :: 0 <= k < |cons| && c in Queried(cons[k].poly)
  {
    if c !in Queried(cons[0].poly) {
      GateQueriedSource(cons[1..], c);
      var k :| 0 <= k < |cons[1..]| && c in Queried(cons[1..][k].poly);
      assert cons[1..][k] == cons[k + 1];
    }
  }

  /** The values of the given cells of a row, each at rotation zero. */
  function CellValues(row: Row, cols: seq<nat>): (vs: seq<(VirtualCell, Fe)>)
    ensures |vs| == |cols|
    ensures forall i :: 0 <= i < |cols| ==> vs[i] == (VirtualCell(cols[i], 0), CellValue(row, cols[i]))
  {
    if cols == [] then [] else [(VirtualCell(cols[0], 0), CellValue(row, cols[0]))] + CellValues(row, cols[1..])
  }

  /** One failure per listed cell of the row that holds no known value. */
  function Missing(gi: nat, g: Gate, loc: Location, row: Row, cols: seq<nat>): seq<Failure>
  {
    if cols == [] then []
    else
      (if IsKnown(row, cols[0]) then [] else [CellNotAssigned(gi, g.name, loc, cols[0])])
      + Missing(gi, g, loc, row, cols[1..])
  }

  /** One failure per constraint, from the k-th on, that does not vanish at the row. */
  function Unsatisfied(gi: nat, g: Gate, loc: Location, row: Row, k: nat): seq<Failure>
    decreases |g.constraints| - k
  {
    if k >= |g.constraints| then []
    else
      var con := g.constraints[k];
      (if Eval(con.poly, row) == 0 then []
       else [ConstraintNotSatisfied(gi, g.name, k, con.name, loc, CellValues(row, QueriedColumns(con.poly)))])
      + Unsatisfied(gi, g, loc, row, k + 1)
  }

  /** The failures of gate `gi` at row `r`: none where the selector is off;
      otherwise the cells it reads that hold no value, or, when all hold one,
      the constraints that do not vanish. */
  function GateAtRow(gi: nat, g: Gate, asg: Assignment, r: nat): (fs: seq<Failure>)
    requires r < |asg.rows|
    ensures fs == [] <==> RowSatisfies(g, asg.rows[r])
  {
    var row := asg.rows[r];
    if !row.enabled then []
    else
      var loc := Locate(asg.regions, r);
      var cols := Columns(GateQueried(g.constraints), GateBound(g.constraints));
      GateAtRowEmpty(gi, g, loc, row, cols);
      var missing := Missing(gi, g, loc, row, cols);
      if missing != [] then missing else Unsatisfied(gi, g, loc, row, 0)
  }

  /** The failures of gate `gi` at the rows from `r` on. */
  function GateFrom(gi: nat, g: Gate, asg: Assignment, r: nat): seq<Failure>
    decreases |asg.rows| - r
  {
    if r >= |asg.rows| then [] else GateAtRow(gi, g, asg, r) + GateFrom(gi, g, asg, r + 1)
  }

  /** The failures of the gates from the `gi`-th on. */
  function GatesFrom(gates: seq<Gate>, gi: nat, asg: Assignment): seq<Failure>
    decreases |gates| - gi
  {
    if gi >= |gates| then [] else GateFrom(gi, gates[gi], asg, 0) + GatesFrom(gates, gi + 1, asg)
  }

  /** The cell's row exists and the cell holds a known value. */
  predicate Holds(rows: seq<Row>, c: CellRef)
  {
    c.row < |rows| && IsKnown(rows[c.row], c.column)
  }

  /** Both cells of the link hold known values, and the same one. */
  predicate CopyHolds(link: Link, rows: seq<Row>)
  {
    Holds(rows, link.0) && Holds(rows, link.1)
    && CellValue(rows[link.0.row], link.0.column) == CellValue(rows[link.1.row], link.1.column)
  }

  /** One failure per copy link that does not hold. */
  function CopyFailures(copies: seq<Link>, rows: seq<Row>): seq<Failure>
  {
    if copies == [] then []
    else
      (if CopyHolds(copies[0], rows) then [] else [Permutation(copies[0].0, copies[0].1)])
      + CopyFailures(copies[1..], rows)
  }

  /** All failures of an assignment: gate failures gate by gate and row by
      row, then copy failures link by link. There are none exactly when the
      assignment satisfies every gate at every row and every copy link. */
  function Verify(cs: ConstraintSystem, asg: Assignment): (fs: seq<Failure>)
    ensures fs == [] <==> Satisfied(cs, asg)
  {
    GatesFromEmpty(cs.gates, 0, asg);
    CopyFailuresEmpty(asg.copies, asg.rows);
    GatesFrom(cs.gates, 0, asg) + CopyFailures(asg.copies, asg.rows)
  }

  /** Every listed cell of the row holds a known value. */
  predicate AllKnown(row: Row, cols: seq<nat>)
  {
    forall i :: 0 <= i < |cols| ==> IsKnown(row, cols[i])
  }

  /** Every cell a constraint of the gate reads holds a known value. */
  ghost predicate ReadsKnown(g: Gate, row: Row)
  {
    forall k, c :: 0 <= k < |g.constraints| && c in Queried(g.constraints[k].poly) ==> IsKnown(row, c)
  }

  /** Every constraint of the gate vanishes at the row. */
  ghost predicate Vanishes(g: Gate, row: Row)
  {
    forall k :: 0 <= k < |g.constraints| ==> Eval(g.constraints[k].poly, row) == 0
  }

  /** What it means for a gate to hold at a row: wherever the selector is on,
      every cell a constraint reads holds a known value and every constraint vanishes. */
  ghost predicate RowSatisfies(g: Gate, row: Row)
  {
    row.enabled ==> ReadsKnown(g, row) && Vanishes(g, row)
  }

  /** The gate holds at every row of the assignment. */
  ghost predicate GateHolds(g: Gate, asg: Assignment)
  {
    forall r :: 0 <= r < |asg.rows| ==> RowSatisfies(g, asg.rows[r])
  }

  /** What it means for an assignment to satisfy the circuit. */
  ghost predicate Satisfied(cs: ConstraintSystem, asg: Assignment)
  {
    && (forall gi :: 0 <= gi < |cs.gates| ==> GateHolds(cs.gates[gi], asg))
    && (forall i :: 0 <= i < |asg.copies| ==> CopyHolds(asg.copies[i], asg.rows))
  }

  lemma {:induction false} MissingEmpty(gi: nat, g: Gate, loc: Location, row: Row, cols: seq<nat>)
    ensures Missing(gi, g, loc, row, cols) == [] <==> AllKnown(row, cols)
  {
    if cols != [] {
      MissingEmpty(gi, g, loc, row, cols[1..]);
      assert forall i :: 1 <= i < |cols| ==> cols[i] == cols[1..][i - 1];
    }
  }

  lemma {:induction false} UnsatisfiedEmpty(gi: nat, g: Gate, loc: Location, row: Row, k: nat)
    ensures Unsatisfied(gi, g, loc, row, k) == []
            <==> forall j :: k <= j < |g.constraints| ==> Eval(g.constraints[j].poly, row) == 0
    decreases |g.constraints| - k
  {
    if k < |g.constraints| {
      UnsatisfiedEmpty(gi, g, loc, row, k + 1);
    }
  }

  /** The columns the check lists for a gate are exactly the ones its constraints read. */
  lemma ColumnsKnown(g: Gate, row: Row)
    ensures var cols := Columns(GateQueried(g.constraints), GateBound(g.constraints));
      AllKnown(row, cols) <==> ReadsKnown(g, row)
  {
    var cols := Columns(GateQueried(g.constraints), GateBound(g.constraints));
    if ReadsKnown(g, row) {
      KnownListed(g, row, cols);
    }
    if AllKnown(row, cols) {
      ListedKnown(g, row, cols);
    }
  }

  lemma KnownListed(g: Gate, row: Row, cols: seq<nat>)
    requires cols == Columns(GateQueried(g.constraints), GateBound(g.constraints))
    requires ReadsKnown(g, row)
    ensures AllKnown(row, cols)
  {
    forall i | 0 <= i < |cols| ensures IsKnown(row, cols[i]) {
      GateQueriedSource(g.constraints, cols[i]);
    }
  }

  lemma ListedKnown(g: Gate, row: Row, cols: seq<nat>)
    requires cols == Columns(GateQueried(g.constraints), GateBound(g.constraints))
    requires AllKnown(row, cols)
    ensures ReadsKnown(g, row)
  {
    forall k, c | 0 <= k < |g.constraints| && c in Queried(g.constraints[k].poly)
      ensures IsKnown(row, c)
    {
      GateQueriedMember(g.constraints, k, c);
      assert c in cols;
    }
  }

  /** At an enabled row, the cells listed are all known and every constraint
      vanishes exactly when the row satisfies the gate. */
  lemma GateAtRowEmpty(gi: nat, g: Gate, loc: Location, row: Row, cols: seq<nat>)
    requires row.enabled && cols == Columns(GateQueried(g.constraints), GateBound(g.constraints))
    ensures (Missing(gi, g, loc, row, cols) == [] && Unsatisfied(gi, g, loc, row, 0) == []) <==> RowSatisfies(g, row)
  {
    MissingEmpty(gi, g, loc, row, cols);
    UnsatisfiedEmpty(gi, g, loc, row, 0);
    ColumnsKnown(g, row);
    assert Vanishes(g, row) <==> Unsatisfied(gi, g, loc, row, 0) == [];
  }

  lemma {:induction false} GateFromEmpty(gi: nat, g: Gate, asg: Assignment, r: nat)
    ensures GateFrom(gi, g, asg, r) == [] <==> forall r' :: r <= r' < |asg.rows| ==> RowSatisfies(g, asg.rows[r'])
    decreases |asg.rows| - r
  {
    if r < |asg.rows| {
      GateFromEmpty(gi, g, asg, r + 1);
    }
  }

  lemma {:induction false} GatesFromEmpty(gates: seq<Gate>, gi: nat, asg: Assignment)
    ensures GatesFrom(gates, gi, asg) == []
            <==> forall g' :: gi <= g' < |gates| ==> GateHolds(gates[g'], asg)
    decreases |gates| - gi
  {
    if gi < |gates| {
      GateFromEmpty(gi, gates[gi], asg, 0);
      GatesFromEmpty(gates, gi + 1, asg);
    }
  }

  lemma {:induction false} CopyFailuresEmpty(copies: seq<Link>, rows: seq<Row>)
    ensures CopyFailures(copies, rows) == [] <==> forall i :: 0 <= i < |copies| ==> CopyHolds(copies[i], rows)
  {
    if copies != [] {
      CopyFailuresEmpty(copies[1..], rows);
      assert forall i :: 1 <= i < |copies| ==> copies[i] == copies[1..][i - 1];
    }
  }

  /** With one gate, one row and no copy link, the check reports the gate's failures at that row. */
  lemma OneGateOneRow(cs: ConstraintSystem, asg: Assignment)
    requires |cs.gates| == 1 && |asg.rows| == 1 && asg.copies == []
    ensures Verify(cs, asg) == GateAtRow(0, cs.gates[0], asg, 0)
  {
    assert GateFrom(0, cs.gates[0], asg, 0) == GateAtRow(0, cs.gates[0], asg, 0) + [];
    assert GatesFrom(cs.gates, 0, asg) == GateFrom(0, cs.gates[0], asg, 0) + [];
  }

  /** With one gate, the check reports the gate's failures at the first row,
      then at the later rows, then the copy failures. */
  lemma OneGate(cs: ConstraintSystem, asg: Assignment)
    requires |cs.gates| == 1 && |asg.rows| >= 1
    ensures Verify(cs, asg)
            == GateAtRow(0, cs.gates[0], asg, 0) + GateFrom(0, cs.gates[0], asg, 1) + CopyFailures(asg.copies, asg.rows)
  {
    assert GatesFrom(cs.gates, 0, asg) == GateFrom(0, cs.gates[0], asg, 0) + [];
  }

  /** At an enabled row the gate reports its unassigned cells if there are
      any, and its failing constraints otherwise. */
  lemma GateAtEnabledRow(gi: nat, g: Gate, asg: Assignment, r: nat)
    requires r < |asg.rows| && asg.rows[r].enabled
    ensures var loc := Locate(asg.regions, r);
      var missing := Missing(gi, g, loc, asg.rows[r], Columns(GateQueried(g.constraints), GateBound(g.constraints)));
      && (missing != [] ==> GateAtRow(gi, g, asg, r) == missing)
      && (missing == [] ==> GateAtRow(gi, g, asg, r) == Unsatisfied(gi, g, loc, asg.rows[r], 0))
  {
  }

  /** Regions placed one row each, region `i` at row `i`, locate row `r` in region `r` at offset 0. */
  lemma {:induction false} LocateUnitRegions(regions: seq<RegionInfo>, r: nat)
    requires forall i :: 0 <= i < |regions| ==> regions[i].start == i
    requires r < |regions|
    ensures Locate(regions, r) == InRegion(r, regions[r].name, 0)
    decreases |regions|
  {
    if r < |regions| - 1 {
      var pre := regions[..|regions| - 1];
      LocateUnitRegions(pre, r);
    }
  }
}
