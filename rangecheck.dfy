/** The range-check circuit: one advice column `value`, one selector
    `q_range_check` and the gate q * value * (0 - value) * ... * (7 - value),
    which vanishes at an enabled row exactly when the value is 0, 1, ..., or 7.
    A single region "Assign value" enables the selector and assigns the value. */
module RangeCheck {
  import opened Field
  import opened Plonk
  import opened Layout
  import opened MockProver

  /** The `range_check` closure: `(0..range).fold(value, |expr, i| expr * (i - value))`.
      The fold is seeded with `value` itself, not with one. */
  function RangeCheckExpr(value: Expr, range: nat): (e: Expr)
    ensures Queried(e) == Queried(value)
    ensures Bound(e) == Bound(value)
  {
    if range == 0 then value
    else
      var factor := Minus(Constant(FromNat(range - 1)), value);
      assert Queried(factor) == Queried(value) && Bound(factor) == Bound(value);
      Product(RangeCheckExpr(value, range - 1), factor)
  }

  /** The range the gate checks, fixed at 8 whatever the circuit's RANGE parameter is. */
  const CheckedRange: nat := 8

  /** The integer the fold computes before reduction: x * (0 - x) * ... * (range - 1 - x). */
  function PolyInt(x: int, range: nat): int
  {
    if range == 0 then x else PolyInt(x, range - 1) * ((range - 1) - x)
  }

  /** One factor of the product. */
  lemma PolyIntStep(x: int, range: nat)
    requires range > 0
    ensures PolyInt(x, range) == PolyInt(x, range - 1) * ((range - 1) - x)
  {
  }

  /** The "Range check" gate, its one constraint "range check" multiplied by the selector. */
  function RangeGate(): Gate
  {
    Gate("Range check", [Constraint("range check", Product(Selector, RangeCheckExpr(Advice(0), CheckedRange)))])
  }

  /** `RangeCheckConfig::<F, RANGE>::configure`: one advice column, none taking
      part in copy links, and the "Range check" gate. The range the gate
      checks is the literal 8, whatever RANGE is. */
  function Configure(range: nat): (cs: ConstraintSystem)
    ensures cs.advice == 1 && cs.equality == {} && |cs.gates| == 1 && |cs.gates[0].constraints| == 1
    ensures cs.gates[0].constraints[0].poly == Product(Selector, RangeCheckExpr(Advice(0), CheckedRange))
  {
    ConstraintSystem(1, {}, [RangeGate()])
  }

  /** One step of the fold multiplies by the factor `range - 1 - value`. */
  lemma RangeCheckStep(value: Expr, range: nat, row: Row)
    requires range > 0
    ensures Eval(RangeCheckExpr(value, range), row)
            == Mul(Eval(RangeCheckExpr(value, range - 1), row), Add(FromNat(range - 1), Neg(Eval(value, row))))
  {
    var f := Minus(Constant(FromNat(range - 1)), value);
    assert RangeCheckExpr(value, range) == Product(RangeCheckExpr(value, range - 1), f);
    assert Eval(Negated(value), row) == Neg(Eval(value, row));
    assert Eval(f, row) == Add(FromNat(range - 1), Neg(Eval(value, row)));
  }

  /** The fold's value at a row where the folded expression has value x. */
  function Fold(x: Fe, range: nat): Fe
  {
    if range == 0 then x else Mul(Fold(x, range - 1), Add(FromNat(range - 1), Neg(x)))
  }

  /** The range-check expression evaluates to the fold of its value. */
  lemma {:induction false} EvalFold(value: Expr, range: nat, row: Row)
    ensures Eval(RangeCheckExpr(value, range), row) == Fold(Eval(value, row), range)
  {
    if range > 0 {
      EvalFold(value, range - 1, row);
      RangeCheckStep(value, range, row);
    }
  }

  /** The fold in the field is the integer product reduced modulo P. */
  lemma {:induction false} FoldIsMod(x: Fe, range: nat)
    ensures Fold(x, range) == PolyInt(x, range) % P
  {
    if range > 0 {
      FoldIsMod(x, range - 1);
      FactorIsMod(range - 1, x);
      PolyIntStep(x, range);
      MulIsMod(Fold(x, range - 1), Add(FromNat(range - 1), Neg(x)), PolyInt(x, range - 1), (range - 1) - x, PolyInt(x, range));
    }
  }

  /** The fold evaluates to the integer product reduced modulo P. */
  lemma EvalRangeCheck(value: Expr, range: nat, row: Row)
    ensures Eval(RangeCheckExpr(value, range), row) == PolyInt(Eval(value, row), range) % P
  {
    EvalFold(value, range, row);
    FoldIsMod(Eval(value, row), range);
  }

  /** The factor i - x is the integer difference reduced modulo P. */
  lemma FactorIsMod(i: nat, x: Fe)
    ensures Add(FromNat(i), Neg(x)) == (i - x) % P
  {
    NegIsMod(x);
    AddIsMod(FromNat(i), Neg(x), i, -(x as int));
  }

  /** The product has a zero factor for every x in 0..range. */
  lemma {:induction false} PolyIntZero(x: int, range: nat)
    requires 0 <= x < range
    ensures PolyInt(x, range) == 0
  {
    if x < range - 1 {
      PolyIntZero(x, range - 1);
    }
  }

  /** Outside 0..range the fold does not vanish, since no factor does and the
      field has no zero divisors. */
  lemma {:induction false} RangeCheckNonZero(value: Expr, range: nat, row: Row)
    requires NoZeroDivisors()
    requires 0 < Eval(value, row) && range <= Eval(value, row)
    ensures Eval(RangeCheckExpr(value, range), row) != 0
  {
    if range > 0 {
      var x := Eval(value, row);
      RangeCheckNonZero(value, range - 1, row);
      FromSmall(range - 1);
      AddNegZero(FromNat(range - 1), x);
      RangeCheckStep(value, range, row);
    }
  }

  /** The range-check fold vanishes exactly on 0, ..., range - 1 (for the
      "only if" half, given that the field has no zero divisors). */
  lemma RangeCheckVanishes(value: Expr, range: nat, row: Row)
    requires 1 <= range <= P
    ensures Eval(value, row) < range ==> Eval(RangeCheckExpr(value, range), row) == 0
    ensures NoZeroDivisors() && Eval(RangeCheckExpr(value, range), row) == 0 ==> Eval(value, row) < range
  {
    if Eval(value, row) < range {
      RangeCheckZero(value, range, row);
    } else if NoZeroDivisors() {
      RangeCheckNonZero(value, range, row);
    }
  }

  /** Inside 0..range the fold vanishes. */
  lemma RangeCheckZero(value: Expr, range: nat, row: Row)
    requires Eval(value, row) < range
    ensures Eval(RangeCheckExpr(value, range), row) == 0
  {
    PolyIntZero(Eval(value, row), range);
    EvalRangeCheck(value, range, row);
  }

  /** For the value 8 the fold is 8 * 8! = 322560, which is non-zero in the field. */
  lemma RangeCheckEight(row: Row)
    requires CellValue(row, 0) == 8
    ensures Eval(RangeCheckExpr(Advice(0), CheckedRange), row) == 322560
  {
    EvalRangeCheck(Advice(0), CheckedRange, row);
    PolyIntEight();
  }

  /** Where `q_range_check` is off the constraint vanishes, whatever the value. */
  lemma RangeGateOff(row: Row)
    requires !row.enabled
    ensures Eval(RangeGate().constraints[0].poly, row) == 0
  {
    SelectorOff(RangeCheckExpr(Advice(0), CheckedRange), row);
  }

  /** The table `assign` leaves behind: one row holding the value with the
      selector on, in region "Assign value". */
  function RangeTable(value: Value): Assignment
  {
    Assignment([Row([Assigned(value)], true)], [RegionInfo("Assign value", 0)], [])
  }

  /** `RangeCheckConfig::assign`: in a region "Assign value", enables the
      selector at offset 0 and assigns the value to the advice cell at offset 0. */
  method Assign(lay: Layouter, value: Value)
    requires lay.Valid() && lay.width == 1
    modifies lay
    ensures lay.Valid()
    ensures lay.rows == old(lay.rows) + [Row([Assigned(value)], true)]
    ensures lay.regions == old(lay.regions) + [RegionInfo("Assign value", |old(lay.rows)|)]
    ensures lay.copies == old(lay.copies)
  {
    var region := lay.OpenRegion("Assign value");
    region.EnableSelector(0);
    var _ := region.AssignAdvice(0, 0, value);
    assert region.rows[0].cells == [Assigned(value)];
    lay.Commit(region);
  }

  /** The failure the check reports for a value outside the range. */
  function RangeFailure(v: Fe): Failure
  {
    ConstraintNotSatisfied(0, "Range check", 0, "range check", InRegion(0, "Assign value", 0),
                           [(VirtualCell(0, 0), v)])
  }

  /** The gate reads only the value column. */
  lemma RangeColumns()
    ensures Columns(GateQueried(RangeGate().constraints), GateBound(RangeGate().constraints)) == [0]
  {
    var cons := RangeGate().constraints;
    assert GateQueried(cons) == Queried(cons[0].poly) + {};
    ColumnsZero();
  }

  /** The constraint reads only the value column. */
  lemma RangeQueriedColumns()
    ensures QueriedColumns(RangeGate().constraints[0].poly) == [0]
  {
    ColumnsZero();
  }

  /** The single column 0, as the check lists it. */
  lemma ColumnsZero()
    ensures Columns({0}, 1) == [0]
  {
    assert Columns({0}, 0) == [];
  }

  /** The check on the table of a known value: no failure when the fold
      vanishes, otherwise the one constraint failure at offset 0 of
      "Assign value", reporting the value. */
  lemma RangeVerify(v: Fe)
    ensures Verify(Configure(8), RangeTable(Known(v)))
            == if PolyInt(v, CheckedRange) % P == 0 then [] else [RangeFailure(v)]
  {
    var cs, asg := Configure(8), RangeTable(Known(v));
    var loc := InRegion(0, "Assign value", 0);
    OneGateOneRow(cs, asg);
    GateAtEnabledRow(0, RangeGate(), asg, 0);
    RangeColumns();
    KnownRowComplete(loc, v);
    KnownRowUnsatisfied(loc, v);
    assert Locate(asg.regions, 0) == loc;
  }

  /** A row holding a known value has no unassigned cell the gate reads. */
  lemma KnownRowComplete(loc: Location, v: Fe)
    ensures Missing(0, RangeGate(), loc, Row([Assigned(Known(v))], true), [0]) == []
  {
    MissingEmpty(0, RangeGate(), loc, Row([Assigned(Known(v))], true), [0]);
  }

  /** At an enabled row holding v, the constraint fails exactly when the fold
      does not vanish at v, and the failure reports v. */
  lemma KnownRowUnsatisfied(loc: Location, v: Fe)
    ensures Unsatisfied(0, RangeGate(), loc, Row([Assigned(Known(v))], true), 0)
            == if PolyInt(v, CheckedRange) % P == 0 then []
               else [ConstraintNotSatisfied(0, "Range check", 0, "range check", loc, [(VirtualCell(0, 0), v)])]
  {
    var row := Row([Assigned(Known(v))], true);
    RangeQueriedColumns();
    EvalRangeCheck(Advice(0), CheckedRange, row);
    SelectorOn(RangeCheckExpr(Advice(0), CheckedRange), row);
    assert CellValues(row, [0]) == [(VirtualCell(0, 0), v)];
  }

  /** 8 * (0 - 8) * (1 - 8) * ... * (7 - 8) = 8 * 8!. */
  lemma PolyIntEight()
    ensures PolyInt(8, CheckedRange) == 322560
    ensures PolyInt(8, CheckedRange) % P == 322560
  {
    FromSmall(322560);
  }

  /** `test_rangecheck`, passing half: every value in 0..8 passes the check. */
  lemma RangePass(v: Fe)
    requires v < 8
    ensures Verify(Configure(8), RangeTable(Known(v))) == []
  {
    PolyIntZero(v, CheckedRange);
    RangeVerify(v);
  }

  /** `test_rangecheck`, failing half: the value 8 gives exactly one failure,
      the "range check" constraint of gate 0 at offset 0 of region 0, with
      the advice cell (column 0, rotation 0) holding 8. */
  lemma RangeFailEight()
    ensures Verify(Configure(8), RangeTable(Known(8))) == [RangeFailure(8)]
  {
    RangeVerify(8);
    PolyIntEight();
  }

  /** Every value from 8 on fails the check, given that the field has no zero divisors. */
  lemma RangeFail(v: Fe)
    requires NoZeroDivisors() && 8 <= v
    ensures Verify(Configure(8), RangeTable(Known(v))) == [RangeFailure(v)]
  {
    PolyIntNonZero(v);
    RangeVerify(v);
  }

  /** From 8 on, the product is non-zero in the field. */
  lemma PolyIntNonZero(v: Fe)
    requires NoZeroDivisors() && CheckedRange <= v
    ensures PolyInt(v, CheckedRange) % P != 0
  {
    var row := Row([Assigned(Known(v))], true);
    assert Eval(Advice(0), row) == v;
    EvalRangeCheck(Advice(0), CheckedRange, row);
    RangeCheckNonZero(Advice(0), CheckedRange, row);
  }

  /** `MockProver::run` on `TestCircuit { value }`, then `verify`. The mock
      prover refuses to assign a value that is not known, a synthesis error;
      otherwise the check runs on the table `assign` leaves behind. */
  method Prove(value: Value) returns (res: Result<seq<Failure>>)
    ensures res.Err? <==> value.Unknown?
    ensures res.Err? ==> res.error == Synthesis
    ensures res.Ok? ==> res.value == Verify(Configure(8), RangeTable(value))
    ensures res.Ok? && value.v < 8 ==> res.value == []
    ensures res.Ok? && value.v == 8 ==> res.value == [RangeFailure(8)]
  {
    if value.Unknown? {
      return Err(Synthesis);
    }
    var cs := Configure(8);
    var lay := new Layouter(cs);
    Assign(lay, value);
    assert lay.State() == RangeTable(value);
    res := Ok(Verify(cs, lay.State()));
    if value.v < 8 {
      RangePass(value.v);
    } else if value.v == 8 {
      RangeFailEight();
    }
  }
}
