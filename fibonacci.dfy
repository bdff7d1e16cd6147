/** The Fibonacci circuit: three advice columns a, b, c, one selector s and
    the gate s * (a + b - c). A first region computes c = a + b from the two
    inputs; seven further regions each copy the previous b and c into a and b
    and compute the next c. */
module Fibonacci {
  import opened Field
  import opened Plonk
  import opened Layout
  import opened MockProver

  /** The `add` gate, whose one constraint is unnamed; it reads a, b and c. */
  function AddGate(): (g: Gate)
    ensures g.name == "add" && |g.constraints| == 1
    ensures Queried(g.constraints[0].poly) == {0, 1, 2}
  {
    Gate("add", [Constraint("", Product(Selector, Minus(Sum(Advice(0), Advice(1)), Advice(2))))])
  }

  /** `FiboChip::configure`: columns a, b, c (0, 1, 2), all taking part in
      copy links, and the `add` gate. */
  function Configure(): (cs: ConstraintSystem)
    ensures cs.advice == 3 && cs.equality == {0, 1, 2} && |cs.gates| == 1
    ensures cs.gates[0] == Gate("add", [Constraint("", Product(Selector, Minus(Sum(Advice(0), Advice(1)), Advice(2))))])
  {
    ConstraintSystem(3, {0, 1, 2}, [AddGate()])
  }

  /** The `add` constraint vanishes exactly at rows whose selector is off or
      whose c equals a + b. */
  lemma {:induction false} AddGateVanishes(row: Row)
    ensures Eval(AddGate().constraints[0].poly, row) == 0
            <==> (!row.enabled || CellValue(row, 2) == Add(CellValue(row, 0), CellValue(row, 1)))
  {
    var sum := Minus(Sum(Advice(0), Advice(1)), Advice(2));
    var ab := Add(CellValue(row, 0), CellValue(row, 1));
    assert Eval(Sum(Advice(0), Advice(1)), row) == ab;
    assert Eval(Negated(Advice(2)), row) == Neg(CellValue(row, 2));
    assert Eval(sum, row) == Add(ab, Neg(CellValue(row, 2)));
    if row.enabled {
      SelectorOn(sum, row);
      AddNegZero(ab, CellValue(row, 2));
    } else {
      SelectorOff(sum, row);
    }
  }

  /** `prev_b.value().and_then(|b| prev_c.value().map(|c| b + c))`: the sum
      when both are known, unknown otherwise. */
  function AddValues(x: Value, y: Value): (r: Value)
    ensures r.Known? <==> x.Known? && y.Known?
    ensures r.Known? ==> r.v == Add(x.v, y.v)
  {
    if x.Known? && y.Known? then Known(Add(x.v, y.v)) else Unknown
  }

  /** The first row's c: a + b, or, with `doubled`, a + b + b, the variant
      that the comment in `assign_first_row` suggests trying to see the check
      fail. */
  function FirstC(a: Fe, b: Fe, doubled: bool): Fe
  {
    if doubled then Add(Add(a, b), b) else Add(a, b)
  }

  /** `FiboChip::assign_first_row`: in a region "first row", enables the selector
      at offset 0 and, when both inputs are present, assigns a, b and the first
      c to columns 0, 1 and 2 at offset 0. A missing input is a synthesis error,
      and the region is then not placed. */
  method AssignFirstRow(lay: Layouter, a: Option<Fe>, b: Option<Fe>, doubled: bool)
    returns (res: Result<(ACell, ACell, ACell)>)
    requires lay.Valid() && lay.width == 3
    modifies lay
    ensures lay.Valid()
    ensures res.Err? <==> a.None? || b.None?
    ensures res.Err? ==> res.error == Synthesis && lay.State() == old(lay.State())
    ensures res.Ok? ==>
      var n := |old(lay.rows)|;
      var c := FirstC(a.value, b.value, doubled);
      && lay.rows == old(lay.rows) + [FullRow(a.value, b.value, c)]
      && lay.regions == old(lay.regions) + [RegionInfo("first row", n)]
      && lay.copies == old(lay.copies)
      && res.value == (ACell(Known(a.value), CellRef(0, n)), ACell(Known(b.value), CellRef(1, n)),
                       ACell(Known(c), CellRef(2, n)))
  {
    var region := lay.OpenRegion("first row");
    region.EnableSelector(0);
    if a.None? || b.None? {
      return Err(Synthesis);
    }
    var aCell := region.AssignAdvice(0, 0, Known(a.value));
    var bCell := region.AssignAdvice(1, 0, Known(b.value));
    // Both inputs are present here, so c is always known.
    var c := FirstC(a.value, b.value, doubled);
    var cCell := region.AssignAdvice(2, 0, Known(c));
    assert region.rows[0].cells == FullRow(a.value, b.value, c).cells;
    lay.Commit(region);
    res := Ok((aCell, bCell, cCell));
  }

  /** The table after `assign_row` places its region: a row holding the two
      copied values and their sum with the selector on, a region "next row"
      at that row, and links from the new a and b to the cells copied. */
  function NextRowOf(st: Assignment, prevB: ACell, prevC: ACell): Assignment
  {
    var n := |st.rows|;
    var c := AddValues(prevB.value, prevC.value);
    Assignment(st.rows + [Row([Assigned(prevB.value), Assigned(prevC.value), Assigned(c)], true)],
               st.regions + [RegionInfo("next row", n)],
               st.copies + [(CellRef(0, n), prevB.cell), (CellRef(1, n), prevC.cell)])
  }

  /** `FiboChip::assign_row`: in a region "next row", enables the selector at
      offset 0, copies `prevB` into a and `prevC` into b (linking each copy to
      its origin) and assigns their sum to c. An unknown input gives an unknown
      c, not an error; the only error is a column outside the copy-enabled set. */
  method AssignRow(lay: Layouter, prevB: ACell, prevC: ACell) returns (res: Result<ACell>)
    requires lay.Valid() && lay.width == 3
    modifies lay
    ensures lay.Valid()
    ensures res.Ok? <==> 0 in lay.equality && 1 in lay.equality
                         && prevB.cell.column in lay.equality && prevC.cell.column in lay.equality
    ensures res.Err? ==> res.error == ColumnNotInPermutation && lay.State() == old(lay.State())
    ensures res.Ok? ==> lay.State() == NextRowOf(old(lay.State()), prevB, prevC)
    ensures res.Ok? ==> res.value == ACell(AddValues(prevB.value, prevC.value), CellRef(2, |old(lay.rows)|))
  {
    var region := lay.OpenRegion("next row");
    region.EnableSelector(0);
    var aCell :- region.CopyAdvice(prevB, 0, 0);
    var bCell :- region.CopyAdvice(prevC, 1, 0);
    var c := AddValues(prevB.value, prevC.value);
    var cCell := region.AssignAdvice(2, 0, c);
    assert region.rows[0].cells == [Assigned(prevB.value), Assigned(prevC.value), Assigned(c)];
    lay.Commit(region);
    res := Ok(cCell);
  }

  /** The first `n` terms of the sequence that starts a, b and in which every
      later term is the sum of the two before it. */
  function FibSeq(a: Fe, b: Fe, n: nat): (s: seq<Fe>)
    ensures |s| == n
    ensures n >= 1 ==> s[0] == a
    ensures n >= 2 ==> s[1] == b
  {
    if n == 0 then []
    else if n == 1 then [a]
    else if n == 2 then [a, b]
    else
      var s := FibSeq(a, b, n - 1);
      s + [Add(s[n - 3], s[n - 2])]
  }

  /** One more term is the sum of the last two, the earlier terms unchanged. */
  lemma FibSeqStep(a: Fe, b: Fe, n: nat)
    requires n >= 2
    ensures var s := FibSeq(a, b, n);
      FibSeq(a, b, n + 1) == s + [Add(s[n - 2], s[n - 1])]
  {
  }

  /** The recurrence the `add` gate enforces, row by row, on a value sequence. */
  predicate Recurrence(vals: seq<Fe>)
  {
    forall k :: 2 <= k < |vals| ==> vals[k] == Add(vals[k - 2], vals[k - 1])
  }

  /** The terms follow the recurrence. */
  lemma {:induction false} FibSeqRecurrence(a: Fe, b: Fe, n: nat)
    ensures Recurrence(FibSeq(a, b, n))
  {
    if n > 2 {
      FibSeqRecurrence(a, b, n - 1);
      assert FibSeq(a, b, n)[..n - 1] == FibSeq(a, b, n - 1);
    }
  }

  /** A sequence following the recurrence is the term sequence of its first two values. */
  lemma {:induction false} RecurrenceUnique(vals: seq<Fe>)
    requires |vals| >= 2 && Recurrence(vals)
    ensures vals == FibSeq(vals[0], vals[1], |vals|)
  {
    if |vals| > 2 {
      var pre := vals[..|vals| - 1];
      assert Recurrence(pre) by {
        forall k | 2 <= k < |pre| ensures pre[k] == Add(pre[k - 2], pre[k - 1]) {
          assert pre[k] == vals[k] && pre[k - 1] == vals[k - 1] && pre[k - 2] == vals[k - 2];
        }
      }
      RecurrenceUnique(pre);
      assert vals == pre + [vals[|vals| - 1]];
    }
  }

  /** The values of a table whose first row holds a, b, c and whose later
      rows follow the recurrence: a, then the n - 1 terms starting b, c. */
  function Terms(a: Fe, b: Fe, c: Fe, n: nat): (s: seq<Fe>)
    requires n >= 3
    ensures |s| == n && s[..3] == [a, b, c]
  {
    [a] + FibSeq(b, c, n - 1)
  }

  /** One more value appends the sum of the last two and keeps the earlier ones. */
  lemma TermsStep(a: Fe, b: Fe, c: Fe, n: nat)
    requires n >= 3
    ensures var s := Terms(a, b, c, n);
      Terms(a, b, c, n + 1) == s + [Add(s[n - 2], s[n - 1])]
  {
    FibSeqStep(b, c, n - 1);
    var f := FibSeq(b, c, n - 1);
    assert [a] + (f + [Add(f[n - 3], f[n - 2])]) == ([a] + f) + [Add(f[n - 3], f[n - 2])];
  }

  /** With c = a + b in the first row, the values are the terms starting a, b. */
  lemma {:induction false} TermsSum(a: Fe, b: Fe, n: nat)
    requires n >= 3
    ensures Terms(a, b, Add(a, b), n) == FibSeq(a, b, n)
  {
    var vals := Terms(a, b, Add(a, b), n);
    var f := FibSeq(b, Add(a, b), n - 1);
    FibSeqRecurrence(b, Add(a, b), n - 1);
    assert Recurrence(vals) by {
      forall k | 2 <= k < n ensures vals[k] == Add(vals[k - 2], vals[k - 1]) {
        if k >= 3 {
          assert vals[k] == f[k - 1] && vals[k - 1] == f[k - 2] && vals[k - 2] == f[k - 3];
        }
      }
    }
    RecurrenceUnique(vals);
  }

  /** The cell that `assign_row` copies into a at row `n`: the a-input `prev_b`
      is the b cell of the first row for row 1, and the c cell of row n - 2 after that. */
  function PrevBCell(n: nat): CellRef
  {
    if n <= 1 then CellRef(1, 0) else CellRef(2, n - 2)
  }

  /** The i-th copy link of the table: two per row after the first. */
  function ChainLink(i: nat): Link
  {
    var n := i / 2 + 1;
    if i % 2 == 0 then (CellRef(0, n), PrevBCell(n)) else (CellRef(1, n), CellRef(2, n - 1))
  }

  /** The table `synthesize` builds when its rows hold `vals`: row r holds
      vals[r], vals[r + 1], vals[r + 2] with its selector on, in its own
      region, its a and b copied from the cells `assign_row` is handed. */
  function Chain(vals: seq<Fe>): Assignment
    requires |vals| >= 3
    decreases |vals|
  {
    if |vals| == 3 then
      Assignment([FullRow(vals[0], vals[1], vals[2])], [RegionInfo("first row", 0)], [])
    else
      var n := |vals| - 3;
      NextRow(Chain(vals[..|vals| - 1]), n, vals[n], vals[n + 1], vals[n + 2])
  }

  /** The table with row `n` placed after it as a "next row" region holding
      x, y, z, its a and b linked to the cells they were copied from. */
  function NextRow(pre: Assignment, n: nat, x: Fe, y: Fe, z: Fe): Assignment
    requires n >= 1
  {
    Assignment(pre.rows + [FullRow(x, y, z)],
               pre.regions + [RegionInfo("next row", n)],
               pre.copies + [(CellRef(0, n), PrevBCell(n)), (CellRef(1, n), CellRef(2, n - 1))])
  }

  /** Row r of the table: vals[r], vals[r + 1], vals[r + 2], selector on. */
  function RowAt(vals: seq<Fe>, r: nat): Row
    requires r + 2 < |vals|
  {
    FullRow(vals[r], vals[r + 1], vals[r + 2])
  }

  /** Chain grows by one row, one region and two links per value. */
  lemma {:induction false} ChainStep(vals: seq<Fe>, v: Fe)
    requires |vals| >= 3
    ensures var n := |vals| - 2;
      Chain(vals + [v]) == NextRow(Chain(vals), n, vals[n], vals[n + 1], v)
  {
    assert (vals + [v])[..|vals|] == vals;
  }

  lemma {:induction false} ChainRows(vals: seq<Fe>)
    requires |vals| >= 3
    ensures |Chain(vals).rows| == |vals| - 2
    ensures forall r :: 0 <= r < |vals| - 2 ==> Chain(vals).rows[r] == RowAt(vals, r)
    decreases |vals|
  {
    if |vals| > 3 {
      var pre := vals[..|vals| - 1];
      var n := |vals| - 3;
      ChainRows(pre);
      ChainStep(pre, vals[|vals| - 1]);
      assert pre + [vals[|vals| - 1]] == vals;
    }
  }

  lemma {:induction false} ChainRegions(vals: seq<Fe>)
    requires |vals| >= 3
    ensures |Chain(vals).regions| == |vals| - 2
    ensures forall r :: 0 <= r < |vals| - 2 ==>
              Chain(vals).regions[r] == RegionInfo(if r == 0 then "first row" else "next row", r)
    decreases |vals|
  {
    if |vals| > 3 {
      var pre := vals[..|vals| - 1];
      ChainRegions(pre);
      ChainStep(pre, vals[|vals| - 1]);
      assert pre + [vals[|vals| - 1]] == vals;
    }
  }

  lemma {:induction false} ChainCopies(vals: seq<Fe>)
    requires |vals| >= 3
    ensures |Chain(vals).copies| == 2 * (|vals| - 3)
    ensures forall i :: 0 <= i < 2 * (|vals| - 3) ==> Chain(vals).copies[i] == ChainLink(i)
    decreases |vals|
  {
    if |vals| > 3 {
      var pre := vals[..|vals| - 1];
      var n := |vals| - 3;
      ChainCopies(pre);
      ChainStep(pre, vals[|vals| - 1]);
      assert pre + [vals[|vals| - 1]] == vals;
      var cp := Chain(pre).copies;
      assert Chain(vals).copies == cp + [(CellRef(0, n), PrevBCell(n)), (CellRef(1, n), CellRef(2, n - 1))];
      forall i | 0 <= i < 2 * n ensures Chain(vals).copies[i] == ChainLink(i) {
        if i < 2 * (n - 1) {
          assert Chain(vals).copies[i] == cp[i];
        } else if i == 2 * (n - 1) {
          assert ChainLink(i) == (CellRef(0, n), PrevBCell(n));
        } else {
          assert ChainLink(i) == (CellRef(1, n), CellRef(2, n - 1));
        }
      }
    }
  }

  /** The shape of the table: one row and one region per step, region r at
      row r, and two copy links for every row after the first. */
  lemma {:induction false} ChainShape(vals: seq<Fe>)
    requires |vals| >= 3
    ensures var asg := Chain(vals);
      && |asg.rows| == |vals| - 2 && |asg.regions| == |vals| - 2 && |asg.copies| == 2 * (|vals| - 3)
      && (forall r :: 0 <= r < |asg.rows| ==> asg.rows[r] == RowAt(vals, r))
      && (forall r :: 0 <= r < |asg.regions| ==>
            asg.regions[r] == RegionInfo(if r == 0 then "first row" else "next row", r))
      && (forall i :: 0 <= i < |asg.copies| ==> asg.copies[i] == ChainLink(i))
  {
    ChainRows(vals);
    ChainRegions(vals);
    ChainCopies(vals);
  }

  /** Every copy link of the table joins two cells holding the same value,
      whatever the values are. */
  lemma {:induction false} ChainCopiesHold(vals: seq<Fe>)
    requires |vals| >= 3
    ensures forall i :: 0 <= i < |Chain(vals).copies| ==> CopyHolds(Chain(vals).copies[i], Chain(vals).rows)
  {
    var asg := Chain(vals);
    ChainShape(vals);
    forall i | 0 <= i < |asg.copies| ensures CopyHolds(asg.copies[i], asg.rows) {
      var n := i / 2 + 1;
      assert asg.rows[n] == RowAt(vals, n) && asg.rows[n - 1] == RowAt(vals, n - 1);
      if n >= 2 {
        assert asg.rows[n - 2] == RowAt(vals, n - 2);
      }
    }
  }

  /** A row with a, b, c all known satisfies `add` exactly when c = a + b. */
  lemma {:induction false} FullRowSatisfies(x: Fe, y: Fe, z: Fe)
    ensures RowSatisfies(AddGate(), FullRow(x, y, z)) <==> z == Add(x, y)
  {
    AddGateVanishes(FullRow(x, y, z));
  }

  /** The table satisfies the circuit exactly when its values follow the recurrence. */
  lemma ChainSatisfied(vals: seq<Fe>)
    requires |vals| >= 3
    ensures Satisfied(Configure(), Chain(vals)) <==> Recurrence(vals)
  {
    var cs, asg := Configure(), Chain(vals);
    ChainCopiesHold(vals);
    if Recurrence(vals) {
      RecurrenceSatisfies(vals);
      assert cs.gates == [AddGate()];
    }
    if Satisfied(cs, asg) {
      assert GateHolds(cs.gates[0], asg);
      SatisfiedRecurrence(vals);
    }
  }

  /** Values following the recurrence satisfy the gate at every row. */
  lemma RecurrenceSatisfies(vals: seq<Fe>)
    requires |vals| >= 3 && Recurrence(vals)
    ensures forall r :: 0 <= r < |Chain(vals).rows| ==> RowSatisfies(AddGate(), Chain(vals).rows[r])
  {
    ChainRows(vals);
    forall r | 0 <= r < |vals| - 2 ensures RowSatisfies(AddGate(), RowAt(vals, r)) {
      FullRowSatisfies(vals[r], vals[r + 1], vals[r + 2]);
    }
  }

  /** A table satisfying the gate at every row holds values following the recurrence. */
  lemma SatisfiedRecurrence(vals: seq<Fe>)
    requires |vals| >= 3
    requires forall r :: 0 <= r < |Chain(vals).rows| ==> RowSatisfies(AddGate(), Chain(vals).rows[r])
    ensures Recurrence(vals)
  {
    ChainRows(vals);
    forall k | 2 <= k < |vals| ensures vals[k] == Add(vals[k - 2], vals[k - 1]) {
      assert RowSatisfies(AddGate(), RowAt(vals, k - 2));
      FullRowSatisfies(vals[k - 2], vals[k - 1], vals[k]);
    }
  }

  /** One `assign_row` call, handed the cells of the last two values, adds
      the next row of the chain. */
  lemma {:induction false} AssignRowExtendsChain(vals: seq<Fe>, prevB: ACell, prevC: ACell)
    requires |vals| >= 3
    requires prevB == ACell(Known(vals[|vals| - 2]), PrevBCell(|vals| - 2))
    requires prevC == ACell(Known(vals[|vals| - 1]), CellRef(2, |vals| - 3))
    ensures |Chain(vals).rows| == |vals| - 2
    ensures AddValues(prevB.value, prevC.value) == Known(Add(vals[|vals| - 2], vals[|vals| - 1]))
    ensures Chain(vals + [Add(vals[|vals| - 2], vals[|vals| - 1])]) == NextRowOf(Chain(vals), prevB, prevC)
  {
    ChainRows(vals);
    ChainStep(vals, Add(vals[|vals| - 2], vals[|vals| - 1]));
  }

  /** One `assign_row` call on the table of `vals`, handed the cells of its
      last two values, places the chain's next row: the table becomes the
      chain of `vals` extended by the sum of its last two values, and the
      returned cell is that sum's c cell. */
  method AssignNextRow(lay: Layouter, ghost vals: seq<Fe>, prevB: ACell, prevC: ACell) returns (c: ACell)
    requires lay.Valid() && lay.width == 3 && lay.equality == {0, 1, 2}
    requires |vals| >= 3 && lay.State() == Chain(vals)
    requires prevB == ACell(Known(vals[|vals| - 2]), PrevBCell(|vals| - 2))
    requires prevC == ACell(Known(vals[|vals| - 1]), CellRef(2, |vals| - 3))
    modifies lay
    ensures lay.Valid()
    ensures lay.State() == Chain(vals + [Add(vals[|vals| - 2], vals[|vals| - 1])])
    ensures c == ACell(Known(Add(vals[|vals| - 2], vals[|vals| - 1])), CellRef(2, |vals| - 2))
  {
    AssignRowExtendsChain(vals, prevB, prevC);
    var res := AssignRow(lay, prevB, prevC);
    // Every column is copy-enabled, so copying cannot fail.
    assert res.Ok?;
    c := res.value;
  }

  /** `MyCircuit::synthesize`: the first row from the inputs, then seven
      further rows, each from the previous b and c. With both inputs present
      the table is the chain of the ten values starting from the first row;
      with c = a + b there, these are the first ten terms starting a, b. With
      an input missing, synthesis fails and nothing is placed. */
  method Synthesize(lay: Layouter, a: Option<Fe>, b: Option<Fe>, doubled: bool) returns (res: Result<()>)
    requires lay.Valid() && lay.width == 3 && lay.equality == {0, 1, 2}
    requires lay.State() == Assignment([], [], [])
    modifies lay
    ensures res.Err? <==> a.None? || b.None?
    ensures res.Err? ==> res.error == Synthesis && lay.State() == old(lay.State())
    ensures res.Ok? && !doubled ==> lay.State() == Chain(FibSeq(a.value, b.value, 10))
    ensures res.Ok? && doubled ==> lay.State() == Chain(DoubledValues(a.value, b.value))
  {
    var first := AssignFirstRow(lay, a, b, doubled);
    if first.Err? {
      return Err(first.error);
    }
    var (_, prevB, prevC) := first.value;
    ghost var x, y, z := a.value, b.value, FirstC(a.value, b.value, doubled);
    ghost var vals := [x, y, z];
    assert vals == Terms(x, y, z, 3);
    for i := 3 to 10
      invariant lay.Valid() && lay.width == 3 && lay.equality == {0, 1, 2}
      invariant |vals| == i && vals == Terms(x, y, z, i)
      invariant lay.State() == Chain(vals)
      invariant prevB == ACell(Known(vals[i - 2]), PrevBCell(i - 2))
      invariant prevC == ACell(Known(vals[i - 1]), CellRef(2, i - 3))
    {
      TermsStep(x, y, z, i);
      var c := AssignNextRow(lay, vals, prevB, prevC);
      vals := vals + [Add(vals[i - 2], vals[i - 1])];
      prevB, prevC := prevC, c;
    }
    FirstTerms(x, y, doubled);
    res := Ok(());
  }

  /** The ten values from the first row are the terms starting a, b, or, in
      the variant, the doubled table's values. */
  lemma FirstTerms(a: Fe, b: Fe, doubled: bool)
    ensures !doubled ==> Terms(a, b, FirstC(a, b, doubled), 10) == FibSeq(a, b, 10)
    ensures doubled ==> Terms(a, b, FirstC(a, b, doubled), 10) == DoubledValues(a, b)
  {
    if !doubled {
      TermsSum(a, b, 10);
    }
  }

  /** Whatever the inputs, the synthesized table satisfies the circuit. */
  lemma {:induction false} FibonacciSatisfied(a: Fe, b: Fe)
    ensures Verify(Configure(), Chain(FibSeq(a, b, 10))) == []
  {
    FibSeqRecurrence(a, b, 10);
    ChainSatisfied(FibSeq(a, b, 10));
  }

  /** `MockProver::run` on `MyCircuit { a, b }`, then `verify`: synthesis fails
      on a missing input, and otherwise the check reports no failure, unless
      the first row's c is a + b + b with b non-zero, when it reports the one
      failure of the first row. */
  method Prove(a: Option<Fe>, b: Option<Fe>, doubled: bool) returns (res: Result<seq<Failure>>)
    ensures res.Err? <==> a.None? || b.None?
    ensures res.Err? ==> res.error == Synthesis
    ensures res.Ok? && (!doubled || b.value == 0) ==> res.value == []
    ensures res.Ok? && doubled && b.value != 0 ==>
      res.value == [ConstraintNotSatisfied(0, "add", 0, "", InRegion(0, "first row", 0),
                                           [(VirtualCell(0, 0), a.value), (VirtualCell(1, 0), b.value),
                                            (VirtualCell(2, 0), Add(Add(a.value, b.value), b.value))])]
  {
    var cs := Configure();
    var lay := new Layouter(cs);
    var synth := Synthesize(lay, a, b, doubled);
    res := synth.Then(Verify(cs, lay.State()));
    if synth.Ok? && !doubled {
      FibonacciSatisfied(a.value, b.value);
    } else if synth.Ok? && b.value == 0 {
      DoubledZeroSatisfied(a.value);
    } else if synth.Ok? {
      DoubledFirstRowFails(a.value, b.value);
    }
  }

  /** `fibonacci_simple` with its test: inputs a = b = 1, and the check passes. */
  method FibonacciSimple() returns (res: Result<seq<Failure>>)
    ensures res == Ok([])
  {
    res := Prove(Some(1), Some(1), false);
  }

  /** The integer Fibonacci numbers. */
  function Fib(n: nat): nat
  {
    if n < 2 then n else Fib(n - 2) + Fib(n - 1)
  }

  /** From 1, 1 the terms are the Fibonacci numbers, reduced modulo P. */
  lemma {:induction false} FibSeqIsFib(n: nat, k: nat)
    requires k < n
    ensures FibSeq(1, 1, n)[k] == Fib(k + 1) % P
  {
    if k >= 2 {
      FibSeqRecurrence(1, 1, n);
      FibSeqIsFib(n, k - 2);
      FibSeqIsFib(n, k - 1);
      AddIsMod(FibSeq(1, 1, n)[k - 2], FibSeq(1, 1, n)[k - 1], Fib(k - 1), Fib(k));
    }
  }

  /** The contents of one column of a table, row by row. */
  function Column(asg: Assignment, column: nat): (cs: seq<CellState>)
    ensures |cs| == |asg.rows|
  {
    seq(|asg.rows|, r requires 0 <= r < |asg.rows| =>
      if column < |asg.rows[r].cells| then asg.rows[r].cells[column] else Unassigned)
  }

  /** The c column holds the values from the third on. */
  lemma ChainColumn(vals: seq<Fe>)
    requires |vals| >= 3
    ensures |Column(Chain(vals), 2)| == |vals| - 2
    ensures forall r :: 0 <= r < |vals| - 2 ==> Column(Chain(vals), 2)[r] == Assigned(Known(vals[r + 2]))
  {
    ChainRows(vals);
  }

  /** From 1, 1 the first ten terms are 1, 1, 2, 3, 5, 8, 13, 21, 34, 55. */
  lemma FibSimpleValues()
    ensures FibSeq(1, 1, 10) == [1, 1, 2, 3, 5, 8, 13, 21, 34, 55]
  {
  }

  /** With a = b = 1 the c column reads 2, 3, 5, 8, 13, 21, 34, 55. */
  lemma FibonacciSimpleColumn()
    ensures Column(Chain(FibSeq(1, 1, 10)), 2)
            == [Assigned(Known(2)), Assigned(Known(3)), Assigned(Known(5)), Assigned(Known(8)),
                Assigned(Known(13)), Assigned(Known(21)), Assigned(Known(34)), Assigned(Known(55))]
  {
    FibSimpleValues();
    ChainColumn(FibSeq(1, 1, 10));
  }

  /** The values `Synthesize` places with `doubled`: the first row's c is
      a + b + b and the rest of the circuit is unchanged, so the rows hold a,
      then the sequence starting b, a + 2b. */
  function DoubledValues(a: Fe, b: Fe): seq<Fe>
  {
    Terms(a, b, Add(Add(a, b), b), 10)
  }

  /** The `add` gate reads columns a, b and c. */
  lemma AddGateColumns()
    ensures Columns(GateQueried(AddGate().constraints), GateBound(AddGate().constraints)) == [0, 1, 2]
  {
    var cons := AddGate().constraints;
    assert Queried(cons[0].poly) == {0, 1, 2};
    assert GateQueried(cons) == {0, 1, 2};
    assert GateBound(cons) == 3;
    assert Columns({0, 1, 2}, 0) == [];
  }

  /** The `add` constraint reads columns a, b and c. */
  lemma AddQueriedColumns()
    ensures QueriedColumns(AddGate().constraints[0].poly) == [0, 1, 2]
  {
    var poly := AddGate().constraints[0].poly;
    assert Queried(poly) == {0, 1, 2};
    assert Bound(poly) == 3;
    assert Columns({0, 1, 2}, 0) == [];
  }

  /** At an enabled row holding known x, y, z with z other than x + y, the
      `add` gate reports exactly one failure: its constraint, with the three values. */
  lemma AddGateFailsAt(asg: Assignment, r: nat, x: Fe, y: Fe, z: Fe)
    requires r < |asg.rows| && asg.rows[r] == FullRow(x, y, z) && z != Add(x, y)
    ensures GateAtRow(0, AddGate(), asg, r)
            == [ConstraintNotSatisfied(0, "add", 0, "", Locate(asg.regions, r),
                                       [(VirtualCell(0, 0), x), (VirtualCell(1, 0), y), (VirtualCell(2, 0), z)])]
  {
    var loc := Locate(asg.regions, r);
    AddGateColumns();
    FullRowComplete(loc, x, y, z);
    FullRowUnsatisfied(loc, x, y, z);
  }

  /** A row with a, b, c all known has no unassigned cell the `add` gate reads. */
  lemma FullRowComplete(loc: Location, x: Fe, y: Fe, z: Fe)
    ensures Missing(0, AddGate(), loc, FullRow(x, y, z), [0, 1, 2]) == []
  {
    MissingEmpty(0, AddGate(), loc, FullRow(x, y, z), [0, 1, 2]);
  }

  /** With c other than a + b, the `add` constraint fails, reporting a, b and c. */
  lemma FullRowUnsatisfied(loc: Location, x: Fe, y: Fe, z: Fe)
    requires z != Add(x, y)
    ensures Unsatisfied(0, AddGate(), loc, FullRow(x, y, z), 0)
            == [ConstraintNotSatisfied(0, "add", 0, "", loc,
                                       [(VirtualCell(0, 0), x), (VirtualCell(1, 0), y), (VirtualCell(2, 0), z)])]
  {
    AddQueriedColumns();
    FullRowValues(x, y, z);
    AddGateVanishes(FullRow(x, y, z));
  }

  /** The values the check reports for a full row. */
  lemma FullRowValues(x: Fe, y: Fe, z: Fe)
    ensures CellValues(FullRow(x, y, z), [0, 1, 2]) == [(VirtualCell(0, 0), x), (VirtualCell(1, 0), y), (VirtualCell(2, 0), z)]
  {
    var row := FullRow(x, y, z);
    assert CellValue(row, 0) == x && CellValue(row, 1) == y && CellValue(row, 2) == z;
  }

  /** With c = a + b + b in the first row and b non-zero, the check reports
      exactly one failure: the `add` constraint at offset 0 of region 0,
      "first row", with the values of a, b and c. */
  lemma {:induction false} DoubledFirstRowFails(a: Fe, b: Fe)
    requires b != 0
    ensures Verify(Configure(), Chain(DoubledValues(a, b)))
            == [ConstraintNotSatisfied(0, "add", 0, "", InRegion(0, "first row", 0),
                                       [(VirtualCell(0, 0), a), (VirtualCell(1, 0), b),
                                        (VirtualCell(2, 0), Add(Add(a, b), b))])]
  {
    var vals := DoubledValues(a, b);
    var asg := Chain(vals);
    var c := Add(Add(a, b), b);
    // Row 0 does not follow the recurrence: a + b + b differs from a + b.
    assert c != Add(a, b) by {
      assert Add(a, b) + b < 2 * P;
    }
    DoubledFirstRow(a, b);
    OneGate(Configure(), asg);
    DoubledTailSatisfied(a, b);
    DoubledCopiesHold(a, b);
    DoubledFirstLocation(a, b);
    AddGateFailsAt(asg, 0, a, b, c);
  }

  /** With b = 0 the variant computes the same c, and the check passes. */
  lemma DoubledZeroSatisfied(a: Fe)
    ensures Verify(Configure(), Chain(DoubledValues(a, 0))) == []
  {
    assert Add(Add(a, 0), 0) == Add(a, 0);
    TermsSum(a, 0, 10);
    FibonacciSatisfied(a, 0);
  }

  /** Row 0 of the doubled table is offset 0 of region 0, "first row". */
  lemma DoubledFirstLocation(a: Fe, b: Fe)
    ensures Locate(Chain(DoubledValues(a, b)).regions, 0) == InRegion(0, "first row", 0)
  {
    var asg := Chain(DoubledValues(a, b));
    ChainRegions(DoubledValues(a, b));
    LocateUnitRegions(asg.regions, 0);
  }

  /** Row 0 of the doubled table holds a, b, a + b + b. */
  lemma DoubledFirstRow(a: Fe, b: Fe)
    ensures |Chain(DoubledValues(a, b)).rows| == 8
    ensures Chain(DoubledValues(a, b)).rows[0] == FullRow(a, b, Add(Add(a, b), b))
  {
    ChainRows(DoubledValues(a, b));
  }

  /** Rows 1 to 7 of the doubled table satisfy the `add` gate. */
  lemma DoubledTailSatisfied(a: Fe, b: Fe)
    ensures GateFrom(0, AddGate(), Chain(DoubledValues(a, b)), 1) == []
  {
    var vals := DoubledValues(a, b);
    var asg := Chain(vals);
    FibSeqRecurrence(b, Add(Add(a, b), b), 9);
    ChainRows(vals);
    forall r | 1 <= r < |asg.rows| ensures RowSatisfies(AddGate(), asg.rows[r]) {
      assert vals[r + 2] == Add(vals[r], vals[r + 1]);
      FullRowSatisfies(vals[r], vals[r + 1], vals[r + 2]);
    }
    GateFromEmpty(0, AddGate(), asg, 1);
  }

  /** No copy link of the doubled table fails. */
  lemma DoubledCopiesHold(a: Fe, b: Fe)
    ensures CopyFailures(Chain(DoubledValues(a, b)).copies, Chain(DoubledValues(a, b)).rows) == []
  {
    ChainCopiesHold(DoubledValues(a, b));
    CopyFailuresEmpty(Chain(DoubledValues(a, b)).copies, Chain(DoubledValues(a, b)).rows);
  }
}
