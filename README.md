# halo2 simple examples: the Fibonacci and range-check circuits

This project models two small halo2 circuits over the Pasta `Fp` field, and
the parts of halo2 they use, and proves what each circuit enforces.

- **Fibonacci.** Three advice columns a, b, c and one selector s. The custom
  gate `add` is `s * (a + b - c)`. A first region "first row" holds the two
  inputs and their sum. Seven "next row" regions each copy the previous b and
  c cells into a and b, with copy constraints, and compute the next c. The
  table then holds the first ten terms of the sequence starting a, b.
- **Range check.** One advice column `value` and one selector `q_range_check`.
  The gate "Range check" has one constraint, "range check". It is the fold
  `value * (0 - value) * (1 - value) * ... * (7 - value)`, multiplied by the
  selector. A single region "Assign value" enables the selector and assigns
  the value.

The model is organised in layers:

- `field.dfy` (module `Field`): the field, as integers modulo the Pasta `Fp`
  modulus.
- `plonk.dfy` (module `Plonk`):
  - gate expressions and their evaluation at a row;
  - the table of advice cells, with one selector bit per row;
  - witness values, which are known or unknown.
- `layouter.dfy` (module `Layout`): the region API the circuits call, as
  classes with mutable state. `Region` has `enable`, `assign_advice` and
  `copy_advice`. `Layouter` opens regions at the next free row and commits them.
- `checker.dfy` (module `MockProver`): a model of the satisfiability check
  of halo2's `MockProver::verify`, as pure functions over the finished table.
  It lists each gate's failures row by row, then the failures of copy
  constraints. It simplifies halo2's check in five ways, listed under
  "## Left out"; none changes an outcome either circuit can reach.
- `fibonacci.dfy` (module `Fibonacci`) and `rangecheck.dfy` (module
  `RangeCheck`): the two circuits, their synthesis as imperative methods
  against the layouter, and their tests.

Three details of the code that are easy to miss:

- The range-check fold starts from `value`, not from one. The gate is
  therefore `value` times the product of `i - value` for i in 0..8. This
  still vanishes exactly on 0..7, since the factor `0 - value` already covers 0.
- `RangeCheckConfig` takes a `RANGE` parameter, but the gate always checks the
  literal 8 (rangecheck.rs line 33). `RangeCheck.Configure` ignores its
  argument in the same way.
- In `assign_row`, the a cell copies `prev_b`. After the first step, `prev_b`
  is the c cell of two rows earlier, not the b cell of the previous row
  (`Fibonacci.PrevBCell`).

## Model

| member | source | states |
|---|---|---|
| Plonk.SelectorOff | src/fibonacci.rs:44-49 | a constraint multiplied by the selector vanishes at every row whose selector is off, whatever the cells hold |
| Plonk.SelectorOn | src/rangecheck.rs:33 | at an enabled row the selector factor is one, so `with_selector` leaves the constraint as it is |
| Layout.Region.constructor | src/fibonacci.rs:64-66 | a fresh region handle has an empty offset space starting at 0 and no copy links |
| Layout.Region.EnableSelector | src/fibonacci.rs:67 | `selector.enable(region, offset)` sets that row's selector bit, pads the region to reach it, and changes no cell or link |
| Layout.Region.AssignAdvice | src/fibonacci.rs:72-77 | `assign_advice` writes the value to the one cell (column, offset), leaves every other cell as it was, and returns the cell at absolute row start + offset |
| Layout.Region.CopyAdvice | src/fibonacci.rs:112-117 | `copy_advice` writes the origin's value and records a link from the new cell to the origin; it fails with a permutation error exactly when a column is not copy-enabled |
| Layout.Layouter.constructor | src/fibonacci.rs:147-149 | the table starts empty, with the configured advice columns and copy-enabled set |
| Layout.Layouter.OpenRegion | src/fibonacci.rs:64-66 | `assign_region` opens a region at the first row no earlier region uses |
| Layout.Layouter.Commit | src/fibonacci.rs:64-98 | a successful region body's rows, name and links are appended to the table, in placement order |
| MockProver.Locate | src/rangecheck.rs:118-121 | a failure's location is a region exactly when some placed region starts at or before the row; it is then the last such region, with the row's offset inside it, and otherwise the bare row |
| MockProver.Columns | src/rangecheck.rs:122 | the cells a failure reports are exactly the queried columns, in increasing order without repetition |
| MockProver.CellValues | src/rangecheck.rs:122 | each reported cell carries its column, rotation 0 and the cell's value |
| MockProver.GateQueriedMember | src/fibonacci.rs:44-49 | a column any constraint of a gate queries is one the gate's check inspects |
| MockProver.GateQueriedSource | src/fibonacci.rs:44-49 | every column the gate's check inspects is queried by some constraint |
| MockProver.ColumnsKnown | src/fibonacci.rs:44-49 | all columns the check lists for a gate hold known values exactly when every cell any constraint reads does |
| MockProver.MissingEmpty | src/rangecheck.rs:105-106 | no cell-not-assigned failure arises exactly when every listed cell holds a known value |
| MockProver.UnsatisfiedEmpty | src/rangecheck.rs:105-106 | no constraint failure arises exactly when every constraint vanishes at the row |
| MockProver.GateAtRow | src/fibonacci.rs:191-192 | a gate reports nothing at a row exactly when the row satisfies it: selector off, or every cell a constraint reads known and every constraint zero |
| MockProver.GateAtRowEmpty | src/fibonacci.rs:44-49 | at an enabled row, no cell-not-assigned failure and no constraint failure arise exactly when the row satisfies the gate |
| MockProver.GateFromEmpty | src/fibonacci.rs:191-192 | a gate reports nothing from row r on exactly when every such row satisfies it |
| MockProver.GatesFromEmpty | src/fibonacci.rs:191-192 | the gates report nothing exactly when every gate holds at every row |
| MockProver.CopyFailuresEmpty | src/fibonacci.rs:191-192 | no permutation failure arises exactly when every copy link joins two known cells with equal values |
| MockProver.Verify | src/fibonacci.rs:191-192 | `verify()` returns no failure (`assert_satisfied` passes) exactly when the assignment satisfies every gate at every row and every copy link |
| MockProver.OneGate | src/fibonacci.rs:84-88 | with one gate, the check reports that gate's failures at row 0, then at the later rows, then the copy failures |
| MockProver.OneGateOneRow | src/rangecheck.rs:113-124 | with one gate, one row and no link, the check's result is that gate's failures at that row |
| MockProver.GateAtEnabledRow | src/rangecheck.rs:113-124 | at an enabled row, cell-not-assigned failures take precedence over constraint failures |
| MockProver.LocateUnitRegions | src/fibonacci.rs:158-167 | when region i is the single row i, row r is offset 0 of region r |
| Field.AddNegZero | src/fibonacci.rs:49 | a - c is zero in the field exactly when a equals c |
| Fibonacci.AddGate | src/fibonacci.rs:39-50 | the gate is named "add", has one constraint, and that constraint queries a, b and c |
| Fibonacci.Configure | src/fibonacci.rs:29-56 | three advice columns, all copy-enabled, and one gate: `add`, whose unnamed constraint is s * (a + b - c) |
| Fibonacci.AddGateVanishes | src/fibonacci.rs:39-50 | the `add` constraint vanishes exactly at rows whose selector is off or whose c equals a + b |
| Fibonacci.AddValues | src/fibonacci.rs:119-122 | the sum of two witness values is known exactly when both are, and is their field sum |
| Fibonacci.AssignFirstRow | src/fibonacci.rs:58-99 | a missing input is a synthesis error and places nothing; otherwise one "first row" region holds a, b and the first c (a + b, or a + b + b in the variant of the comment at lines 79-88) with the selector on, and the three cells are returned |
| Fibonacci.AssignRow | src/fibonacci.rs:101-130 | one "next row" region holds the two copied values and their sum, with links from a and b to the cells copied; it fails only when a column is not copy-enabled |
| Fibonacci.AssignRowExtendsChain | src/fibonacci.rs:163-166 | one `assign_row` on the cells of the last two values adds exactly the chain's next row, region and links |
| Fibonacci.AssignNextRow | src/fibonacci.rs:163-166 | with every column copy-enabled, one loop step extends the table to the chain of one more term and returns that term's c cell |
| Fibonacci.Synthesize | src/fibonacci.rs:151-170 | synthesis fails exactly when an input is missing, placing nothing; otherwise the table is the chain of the first ten terms starting a, b, or, in the `a + b + b` variant, the chain of `DoubledValues(a, b)` |
| Fibonacci.Terms | src/fibonacci.rs:151-170 | the values of a table whose first row holds a, b, c: n of them, starting a, b, c |
| Fibonacci.TermsStep | src/fibonacci.rs:162-166 | one more row appends the sum of the last two values and keeps the earlier ones |
| Fibonacci.TermsSum | src/fibonacci.rs:89-91 | with c = a + b in the first row, the values are exactly the terms starting a, b |
| Fibonacci.FirstTerms | src/fibonacci.rs:79-91 | the ten values from the first row are the terms starting a, b, or, in the variant, `DoubledValues(a, b)` |
| Fibonacci.FibSeq | src/fibonacci.rs:158-167 | the term sequence has the requested length and starts a, b |
| Fibonacci.FibSeqStep | src/fibonacci.rs:162-166 | one more term appends the sum of the last two and keeps the earlier terms |
| Fibonacci.FibSeqRecurrence | src/fibonacci.rs:161-166 | every term after the second is the sum of the two before it |
| Fibonacci.RecurrenceUnique | src/fibonacci.rs:161-166 | any sequence following the recurrence is the term sequence of its first two values |
| Fibonacci.ChainStep | src/fibonacci.rs:162-167 | one more value adds one "next row" region and its two links to the table |
| Fibonacci.ChainRows | src/fibonacci.rs:158-167 | row r of the table holds values r, r + 1, r + 2 with its selector on |
| Fibonacci.ChainRegions | src/fibonacci.rs:158-167 | region r is at row r, named "first row" for r = 0 and "next row" after |
| Fibonacci.ChainCopies | src/fibonacci.rs:112-117 | the links are two per later row: a to the cell `prev_b`, b to the c cell of the row before |
| Fibonacci.ChainShape | src/fibonacci.rs:158-167 | the table's rows, regions and links, all together |
| Fibonacci.ChainCopiesHold | src/fibonacci.rs:112-117 | every copy link of the table joins two cells with the same known value |
| Fibonacci.FullRowSatisfies | src/fibonacci.rs:44-49 | an enabled row of known a, b, c satisfies `add` exactly when c = a + b |
| Fibonacci.RecurrenceSatisfies | src/fibonacci.rs:44-49 | values following the recurrence satisfy `add` at every row of their table |
| Fibonacci.SatisfiedRecurrence | src/fibonacci.rs:44-49 | a table satisfying `add` at every row holds values following the recurrence |
| Fibonacci.ChainSatisfied | src/fibonacci.rs:29-56 | the table of a value sequence satisfies the circuit exactly when the values follow the recurrence |
| Fibonacci.FibonacciSatisfied | src/fibonacci.rs:189-193 | for any inputs a, b, the synthesized table passes the check with no failure |
| Fibonacci.Prove | src/fibonacci.rs:173-183 | `MockProver::run` then `verify`: a synthesis error exactly when an input is missing; otherwise no failure, except in the `a + b + b` variant with b non-zero, where exactly the one `add` failure at offset 0 of region 0 "first row", with a, b, a + b + b |
| Fibonacci.FibonacciSimple | src/fibonacci.rs:189-193 | `fibonacci_simple` with a = b = 1 passes the check |
| Fibonacci.FibSeqIsFib | src/fibonacci.rs:161 | from 1, 1 the k-th term is the (k + 1)-th Fibonacci number modulo P |
| Fibonacci.Column | src/fibonacci.rs:93-95 | a column of the table has one entry per row |
| Fibonacci.ChainColumn | src/fibonacci.rs:93-95 | the c column holds the terms from the third on |
| Fibonacci.FibSimpleValues | src/fibonacci.rs:173-183 | from 1, 1 the ten terms are 1, 1, 2, 3, 5, 8, 13, 21, 34, 55 |
| Fibonacci.FibonacciSimpleColumn | src/fibonacci.rs:173-183 | with a = b = 1 the c column reads 2, 3, 5, 8, 13, 21, 34, 55 |
| Fibonacci.AddGateColumns | src/fibonacci.rs:45-47 | the `add` gate queries columns a, b and c |
| Fibonacci.AddQueriedColumns | src/fibonacci.rs:45-47 | the `add` constraint queries columns a, b and c |
| Fibonacci.AddGateFailsAt | src/fibonacci.rs:84-88 | at an enabled row of known a, b, c with c other than a + b, `add` reports one constraint failure carrying the three values |
| Fibonacci.FullRowComplete | src/fibonacci.rs:72-95 | a row of three known cells reports no unassigned cell |
| Fibonacci.FullRowUnsatisfied | src/fibonacci.rs:84-88 | with c other than a + b the unnamed constraint fails, reporting a, b and c |
| Fibonacci.DoubledFirstRow | src/fibonacci.rs:79-91 | with the `a + b + b` variant, row 0 holds a, b, a + b + b |
| Fibonacci.DoubledTailSatisfied | src/fibonacci.rs:79-91 | with the `a + b + b` variant, rows 1 to 7 still satisfy `add` |
| Fibonacci.DoubledCopiesHold | src/fibonacci.rs:79-91 | with the `a + b + b` variant, every copy link still holds |
| Fibonacci.DoubledFirstLocation | src/fibonacci.rs:84-88 | in the `a + b + b` variant's table, row 0 is offset 0 of region 0, "first row" |
| Fibonacci.DoubledZeroSatisfied | src/fibonacci.rs:79-91 | with the `a + b + b` variant and b = 0, the check passes |
| Fibonacci.DoubledFirstRowFails | src/fibonacci.rs:79-91 | with the `a + b + b` variant and b non-zero, the check reports exactly one failure: `add` at offset 0 of region 0 "first row", with a, b, a + b + b |
| RangeCheck.RangeCheckExpr | src/rangecheck.rs:27-31 | the fold queries exactly the cells `value` queries |
| RangeCheck.Configure | src/rangecheck.rs:13-36 | one advice column, no copy-enabled column, one gate with one constraint: the selector times the fold for range 8 |
| RangeCheck.RangeCheckStep | src/rangecheck.rs:28-30 | each fold step multiplies by `i - value` for the next i |
| RangeCheck.EvalFold | src/rangecheck.rs:28-30 | the fold expression evaluates to the field fold of the value |
| RangeCheck.FactorIsMod | src/rangecheck.rs:29 | the factor `F::from(i) - value` is the integer i - value reduced modulo P |
| RangeCheck.FoldIsMod | src/rangecheck.rs:28-30 | the field fold is the integer product value * (0 - value) * ... reduced modulo P |
| RangeCheck.EvalRangeCheck | src/rangecheck.rs:27-33 | the fold expression evaluates to that integer product reduced modulo P |
| RangeCheck.PolyIntZero | src/rangecheck.rs:28-30 | the integer product is zero for every value in 0..range |
| RangeCheck.RangeCheckZero | src/rangecheck.rs:27-33 | the fold vanishes for every value in 0..range |
| RangeCheck.RangeCheckNonZero | src/rangecheck.rs:27-33 | the fold does not vanish for a value of at least range, when the field has no zero divisors |
| RangeCheck.RangeCheckVanishes | src/rangecheck.rs:27-33 | the fold vanishes exactly on 0..range; the "only if" half assumes no zero divisors |
| RangeCheck.RangeCheckEight | src/rangecheck.rs:109-111 | for the value 8 the fold is 8 * 8! = 322560 |
| RangeCheck.PolyIntEight | src/rangecheck.rs:109-111 | the integer product at 8, and its residue, are 322560 |
| RangeCheck.PolyIntNonZero | src/rangecheck.rs:109-124 | from 8 on, the product is non-zero in the field, given no zero divisors |
| RangeCheck.RangeGateOff | src/rangecheck.rs:33 | where `q_range_check` is off the constraint vanishes whatever the value |
| RangeCheck.Assign | src/rangecheck.rs:38-54 | one "Assign value" region at the next free row holds the value with the selector on; no link is added |
| RangeCheck.RangeColumns | src/rangecheck.rs:122 | the gate queries only the value column |
| RangeCheck.RangeQueriedColumns | src/rangecheck.rs:122 | the constraint's reported cells are the value column only |
| RangeCheck.KnownRowComplete | src/rangecheck.rs:102 | a row of a known value reports no unassigned cell |
| RangeCheck.KnownRowUnsatisfied | src/rangecheck.rs:113-124 | at an enabled row holding v, the constraint fails exactly when the product at v is non-zero modulo P, reporting v |
| RangeCheck.RangeVerify | src/rangecheck.rs:113-124 | the check on a known v reports nothing when the product at v is zero modulo P, and otherwise exactly the "range check" failure at offset 0 of region 0 "Assign value" with cell (0, 0) holding v |
| RangeCheck.RangePass | src/rangecheck.rs:100-107 | every value in 0..8 passes the check |
| RangeCheck.RangeFailEight | src/rangecheck.rs:109-124 | the value 8 gives exactly the one failure the test expects |
| RangeCheck.RangeFail | src/rangecheck.rs:109-124 | every value from 8 on gives exactly that one failure, with its own value, given no zero divisors |
| RangeCheck.Prove | src/rangecheck.rs:95-125 | `MockProver::run` on the test circuit: a synthesis error exactly for an unknown value; otherwise the check's result on the assigned table, empty for values below 8 and the expected failure for 8 |

## Left out

- halo2's internals (keygen, commitments, the real prover) are not modelled. Only the mock prover's check is.
- The parameter `k`, the table height 2^k, usable rows and blinding rows are left out. The table has exactly the rows the regions use, and the model does not check that they fit in 2^k rows (both tests use k = 4).
- Rotations other than the current row are left out, because neither gate queries another row.
- Fixed columns, instance columns and lookups are left out, because neither circuit uses them.
- The mock prover evaluates every gate at every row, including rows whose selector is off. The model skips those rows for every gate. `Plonk.SelectorOff` shows this loses nothing for both circuits: each of their constraints is a product with the selector, so it is zero there.
- Checker, order of failures: halo2 first lists the cell-not-assigned failures of every region, then evaluates every gate with unassigned cells read as zero. The model instead goes gate by gate and row by row, and at a row with a missing cell it reports only the cell-not-assigned failures (`MockProver.GateAtRow`), not the constraint failures too. Neither circuit's successful synthesis leaves a cell a gate reads unassigned.
- Checker, locations: halo2 places a row in a region only within the region's row range. The model has no region ends: a row after a region's last row counts as part of the last region starting at or before it (`MockProver.Locate`), where halo2 reports it outside every region. In both circuits every row belongs to a region.
- Checker, copy links: halo2's permutation check compares the two cell states, so a link between two unassigned cells passes. The model requires both cells to hold known values (`MockProver.CopyHolds`). Every link either circuit makes joins two assigned cells.
- Checker, copy failures: reported per link, not per cell of the permutation cycle. halo2 walks every cell of every copy-enabled column and reports each cell whose value differs from the next cell of its cycle, so one bad link gives two failures there and one in the model (`MockProver.CopyFailures`). Every link either circuit makes holds.
- Assigning a cell a second time is left out, because both circuits assign each cell once.
- halo2's floor planners (`SimpleFloorPlanner`, `V1`) measure each region before placing it. The model places regions one after another at the next free row.
- `Layouter::namespace` only names scopes in error messages, so the model uses the layouter directly.
- `without_witnesses` is left out, because the key-generation pass it serves is not modelled.
- `Value<Assigned<F>>` rationals are left out. The range-check value is a plain field element, as in the test.
- The free function `rangecheck(left, right)` is left out: it only adds two `usize` values and is unrelated to the circuit.
- Primality of the Pasta modulus is not proved. It would need a certificate beyond what is reasonable here; field arithmetic is exact otherwise.
- RangeCheck.RangeFail: proved under the hypothesis `NoZeroDivisors()`, which holds because the modulus is prime.
- RangeCheck.RangeCheckVanishes: its "only if" half is proved under the same `NoZeroDivisors()` hypothesis.
- RangeCheck.PolyIntNonZero: proved under the same `NoZeroDivisors()` hypothesis.
- RangeCheck.RangeCheckNonZero: proved under the same `NoZeroDivisors()` hypothesis.
- RangeCheck.Prove: the mock prover's refusal to assign an unknown value is modelled here only, as a synthesis error. The layouter itself accepts unknown values, as a key-generation pass does.
- Fibonacci.DoubledFirstRowFails: needs b non-zero. With b = 0, both variants compute the same c, so the check passes (`Fibonacci.DoubledZeroSatisfied`).
- The text of failure messages, and the `Debug` formatting of cell values (halo2 prints `0x8`), are left out. Failures carry the field element itself.
