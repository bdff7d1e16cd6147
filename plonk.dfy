/** The part of halo2's PLONK arithmetization that the two circuits rely on:
    witness values, the table of advice cells with one selector bit per row,
    gate polynomials and their evaluation at a row. */
module Plonk {
  import opened Field

  /** A circuit input that may be absent (Rust's `Option<F>`). */
  datatype Option<T> = None | Some(value: T)

  /** A witness value as synthesis sees it (halo2's `Value<F>`): known, or unknown. */
  datatype Value = Unknown | Known(v: Fe)

  /** The errors synthesis can return. */
  datatype Error = Synthesis | ColumnNotInPermutation

  datatype Result<T> = Ok(value: T) | Err(error: Error) {
    predicate IsFailure() { Err? }

    function PropagateFailure<U>(): Result<U>
      requires Err?
    {
      Err(error)
    }

    function Extract(): T
      requires Ok?
    {
      value
    }

    /** Replaces a successful result by `u`, keeping an error as it is. */
    function Then<U>(u: U): (r: Result<U>)
      ensures r.Ok? <==> Ok?
      ensures r.Ok? ==> r.value == u
      ensures r.Err? ==> r.error == error
    {
      match this
      case Ok(_) => Ok(u)
      case Err(e) => Err(e)
    }
  }

  /** One advice cell of the table. */
  datatype CellState = Unassigned | Assigned(value: Value)

  /** One row of the table: its advice cells, column by column, and its selector bit. */
  datatype Row = Row(cells: seq<CellState>, enabled: bool)

  /** The address of an advice cell: column index and absolute row. */
  datatype CellRef = CellRef(column: nat, row: nat)

  /** An assigned cell handed back to the circuit (halo2's `AssignedCell`). */
  datatype ACell = ACell(value: Value, cell: CellRef)

  /** A placed region: its name and the absolute row of its offset 0. */
  datatype RegionInfo = RegionInfo(name: string, start: nat)

  /** A copy link: the two cells must hold equal values. */
  type Link = (CellRef, CellRef)

  /** A completed assignment: the rows, the placed regions in order, and the copy links. */
  datatype Assignment = Assignment(rows: seq<Row>, regions: seq<RegionInfo>, copies: seq<Link>)

  /** A gate polynomial (halo2's `Expression`) over the current row. */
  datatype Expr =
    | Constant(c: Fe)
    | Selector
    | Advice(column: nat)
    | Negated(e: Expr)
    | Sum(left: Expr, right: Expr)
    | Product(left: Expr, right: Expr)

  /** A named polynomial that must vanish. */
  datatype Constraint = Constraint(name: string, poly: Expr)

  /** A named gate: its constraints, in order. */
  datatype Gate = Gate(name: string, constraints: seq<Constraint>)

  /** The configured circuit: how many advice columns, which of them take part
      in copy links, and the gates. */
  datatype ConstraintSystem = ConstraintSystem(advice: nat, equality: set<nat>, gates: seq<Gate>)

  /** `a - b`, which halo2 builds as `a + (-b)`. */
  function Minus(a: Expr, b: Expr): Expr { Sum(a, Negated(b)) }

  /** The row with cells `a`, `b`, `c`, all known, and its selector on. */
  function FullRow(a: Fe, b: Fe, c: Fe): Row
  {
    Row([Assigned(Known(a)), Assigned(Known(b)), Assigned(Known(c))], true)
  }

  /** The cell holds a known value. */
  predicate IsKnown(row: Row, column: nat)
  {
    column < |row.cells| && row.cells[column].Assigned? && row.cells[column].value.Known?
  }

  /** The value a gate reads from a cell; a cell without a known value reads as zero. */
  function CellValue(row: Row, column: nat): (v: Fe)
    ensures IsKnown(row, column) ==> Known(v) == row.cells[column].value
    ensures !IsKnown(row, column) ==> v == 0
  {
    if IsKnown(row, column) then row.cells[column].value.v else 0
  }

  /** Evaluates a polynomial at a row; the selector is one where the row's bit is on. */
  function Eval(e: Expr, row: Row): Fe
  {
    match e
    case Constant(c) => c
    case Selector => if row.enabled then 1 else 0
    case Advice(column) => CellValue(row, column)
    case Negated(x) => Neg(Eval(x, row))
    case Sum(x, y) => Add(Eval(x, row), Eval(y, row))
    case Product(x, y) => Mul(Eval(x, row), Eval(y, row))
  }

  /** The advice columns a polynomial reads. */
  function Queried(e: Expr): set<nat>
  {
    match e
    case Constant(_) => {}
    case Selector => {}
    case Advice(column) => {column}
    case Negated(x) => Queried(x)
    case Sum(x, y) => Queried(x) + Queried(y)
    case Product(x, y) => Queried(x) + Queried(y)
  }

  /** One more than the largest column a polynomial reads. */
  function Bound(e: Expr): (n: nat)
    ensures forall c :: c in Queried(e) ==> c < n
  {
    match e
    case Constant(_) => 0
    case Selector => 0
    case Advice(column) => column + 1
    case Negated(x) => Bound(x)
    case Sum(x, y) => Max(Bound(x), Bound(y))
    case Product(x, y) => Max(Bound(x), Bound(y))
  }

  function Max(a: nat, b: nat): nat { if a < b then b else a }

  /** A polynomial multiplied by the selector vanishes at every row whose
      selector bit is off, whatever the row's cells hold. */
  lemma SelectorOff(e: Expr, row: Row)
    requires !row.enabled
    ensures Eval(Product(Selector, e), row) == 0
  {
    MulZero(Eval(e, row));
  }

  /** At a row whose selector bit is on, the selector factor is one. */
  lemma SelectorOn(e: Expr, row: Row)
    requires row.enabled
    ensures Eval(Product(Selector, e), row) == Eval(e, row)
  {
    MulOne(Eval(e, row));
  }
}
