/** The fragment of GRASS r.mapcalc the workflow's formulas use. A cell is
    either a number or null; every operator below propagates null the way
    r.mapcalc does, `isnull()` is the only one that never yields null, and
    division by zero yields null. Comparisons yield 1 or 0. */
module MapCalc {
  import opened Wrappers

  type Cell = Option<real>

  const One: Cell := Some(1.0)
  const Zero: Cell := Some(0.0)

  /** `if(cond, a, b)`: null when the condition is null, `a` when it is
      non-zero, `b` when it is zero. */
  function If(cond: Cell, a: Cell, b: Cell): Cell
  {
    match cond
    case None => None
    case Some(c) => if c != 0.0 then a else b
  }

  /** `isnull(x)`. */
  function IsNull(x: Cell): Cell
  {
    if x.None? then One else Zero
  }

  /** `x == k`. */
  function Eq(x: Cell, k: real): Cell
  {
    match x
    case None => None
    case Some(v) => if v == k then One else Zero
  }

  /** `x != k`. */
  function Ne(x: Cell, k: real): Cell
  {
    match x
    case None => None
    case Some(v) => if v != k then One else Zero
  }

  /** `x <= k`. */
  function Le(x: Cell, k: real): Cell
  {
    match x
    case None => None
    case Some(v) => if v <= k then One else Zero
  }

  /** `x * y`. */
  function Mul(x: Cell, y: Cell): Cell
  {
    if x.Some? && y.Some? then Some(x.value * y.value) else None
  }

  /** `x / y`; division by zero gives null. */
  function Div(x: Cell, y: Cell): Cell
  {
    if x.Some? && y.Some? && y.value != 0.0 then Some(x.value / y.value) else None
  }
}
