/** Isochrone classification of a cost-distance raster
    (SheDecides_Python_chain.py, lines 653-666). The workflow builds one
    r.mapcalc expression of nested conditionals, one per time limit in list
    order, ending in `null()`; a cell takes the value of the first limit its
    cost does not exceed. */
module Isochrones {
  import opened Wrappers
  import opened Strings
  import opened MapCalc

  /** The configured time limits, in minutes. */
  const TimeLimits: seq<nat> := [30, 60, 120, 240, 360, 480, 9999999]

  /** The isochrone expression: `null()` or `if(cost<=t, t, otherwise)`. */
  datatype Expr = Null | IfAtMost(limit: nat, otherwise: Expr)

  /** The nesting the builder produces: the first limit outermost. */
  function Nest(limits: seq<nat>): Expr
  {
    if |limits| == 0 then Null else IfAtMost(limits[0], Nest(limits[1..]))
  }

  /** The r.mapcalc text of one conditional's opening: `if(cost<=t,t,`. */
  function Opening(cost: string, t: nat): string
  {
    "if(" + cost + "<=" + Decimal(t) + "," + Decimal(t) + ","
  }

  /** The r.mapcalc text of an expression over the cost layer `cost`. */
  function Render(cost: string, e: Expr): string
  {
    match e
    case Null => "null()"
    case IfAtMost(t, rest) => Opening(cost, t) + Render(cost, rest) + ")"
  }

  /** What r.mapcalc computes for a cell whose cost is `cost`. */
  function Eval(e: Expr, cost: Cell): Cell
  {
    match e
    case Null => None
    case IfAtMost(t, rest) => If(Le(cost, t as real), Some(t as real), Eval(rest, cost))
  }

  // ---------------------------------------------------------------------
  // The string builder of lines 659-664
  // ---------------------------------------------------------------------

  /** The openings of `limits`, in order. */
  function Openings(cost: string, limits: seq<nat>): string
  {
    if |limits| == 0 then ""
    else Openings(cost, limits[..|limits| - 1]) + Opening(cost, limits[|limits| - 1])
  }

  /** `n` closing parentheses. */
  function Closings(n: nat): string
  {
    if n == 0 then "" else Closings(n - 1) + ")"
  }

  lemma {:induction false} OpeningsCons(cost: string, limits: seq<nat>)
    requires |limits| > 0
    ensures Openings(cost, limits) == Opening(cost, limits[0]) + Openings(cost, limits[1..])
    decreases |limits|
  {
    if |limits| > 1 {
      var init := limits[..|limits| - 1];
      var last := limits[|limits| - 1];
      OpeningsCons(cost, init);
      assert init[1..] == limits[1..][..|limits[1..]| - 1];
      assert init[0] == limits[0];
      assert Openings(cost, limits) == Openings(cost, init) + Opening(cost, last);
      assert Openings(cost, limits[1..]) == Openings(cost, init[1..]) + Opening(cost, last);
      AppendAssoc(Opening(cost, limits[0]), Openings(cost, init[1..]), Opening(cost, last));
    } else {
      assert limits[..0] == [];
    }
  }

  /** The nested expression's text is all openings, then `null()`, then one
      closing parenthesis per limit. */
  lemma {:induction false} RenderNest(cost: string, limits: seq<nat>)
    ensures Render(cost, Nest(limits)) == Openings(cost, limits) + "null()" + Closings(|limits|)
    decreases |limits|
  {
    if |limits| > 0 {
      RenderNest(cost, limits[1..]);
      OpeningsCons(cost, limits);
    }
  }

  /** The builder of lines 659-664: `prefix` collects the openings in list
      order and `suffix` collects `null()` and the closings. */
  method IsochroneFormula(output: string, cost: string, limits: seq<nat>) returns (formula: string)
    ensures formula == output + "=" + Render(cost, Nest(limits))
  {
    var prefix := output + "=";
    var suffix := "null()";
    var i := 0;
    while i < |limits|
      invariant 0 <= i <= |limits|
      invariant prefix == output + "=" + Openings(cost, limits[..i])
      invariant suffix == "null()" + Closings(i)
    {
      var opening := "if(" + cost + "<=" + Decimal(limits[i]) + "," + Decimal(limits[i]) + ",";
      assert limits[..i + 1][..i] == limits[..i];
      AppendAssoc(output + "=", Openings(cost, limits[..i]), opening);
      AppendAssoc("null()", Closings(i), ")");
      prefix := prefix + opening;
      suffix := suffix + ")";
      i := i + 1;
    }
    assert limits[..|limits|] == limits;
    RenderNest(cost, limits);
    AppendAssoc(output + "=", Openings(cost, limits) + "null()", Closings(|limits|));
    AppendAssoc(output + "=", Openings(cost, limits), "null()");
    formula := prefix + suffix;
    AppendAssoc(prefix, "null()", Closings(|limits|));
  }

  // ---------------------------------------------------------------------
  // Parenthesis balance of the generated expression
  // ---------------------------------------------------------------------

  predicate NoParens(s: string) {
    '(' !in s && ')' !in s
  }

  lemma OpeningParens(cost: string, t: nat)
    requires NoParens(cost)
    ensures Count(Opening(cost, t), '(') == 1
    ensures Count(Opening(cost, t), ')') == 0
  {
    var d := Decimal(t);
    assert NoParens(d) by {
      assert forall k :: 0 <= k < |d| ==> IsDigit(d[k]);
    }
    var tail := cost + "<=" + d + "," + d + ",";
    assert Opening(cost, t) == "if" + "(" + tail;
    assert NoParens(tail);
    CountAppend("if" + "(", tail, '(');
    CountAppend("if" + "(", tail, ')');
    CountAppend("if", "(", '(');
    CountAppend("if", "(", ')');
    CountAbsent("if", '(');
    CountAbsent("if", ')');
    CountAbsent(tail, '(');
    CountAbsent(tail, ')');
  }

  lemma {:induction false} OpeningsParens(cost: string, limits: seq<nat>)
    requires NoParens(cost)
    ensures Count(Openings(cost, limits), '(') == |limits|
    ensures Count(Openings(cost, limits), ')') == 0
    decreases |limits|
  {
    if |limits| > 0 {
      var init := limits[..|limits| - 1];
      OpeningsParens(cost, init);
      OpeningParens(cost, limits[|limits| - 1]);
      CountAppend(Openings(cost, init), Opening(cost, limits[|limits| - 1]), '(');
      CountAppend(Openings(cost, init), Opening(cost, limits[|limits| - 1]), ')');
    }
  }

  lemma {:induction false} ClosingsParens(n: nat)
    ensures Count(Closings(n), '(') == 0
    ensures Count(Closings(n), ')') == n
    decreases n
  {
    if n > 0 {
      ClosingsParens(n - 1);
      CountAppend(Closings(n - 1), ")", '(');
      CountAppend(Closings(n - 1), ")", ')');
    }
  }

  /** For n limits the expression opens n conditionals plus `null()` and
      closes exactly as many parentheses, so it is balanced whenever the
      layer names carry no parentheses; it ends in `null()` followed by the
      n closing parentheses. */
  lemma FormulaBalanced(output: string, cost: string, limits: seq<nat>)
    requires NoParens(output) && NoParens(cost)
    ensures Count(output + "=" + Render(cost, Nest(limits)), '(') == |limits| + 1
    ensures Count(output + "=" + Render(cost, Nest(limits)), ')') == |limits| + 1
    ensures Render(cost, Nest(limits)) == Openings(cost, limits) + "null()" + Closings(|limits|)
  {
    RenderNest(cost, limits);
    var pre, o, c := output + "=", Openings(cost, limits), Closings(|limits|);
    AppendAssoc(pre, o + "null()", c);
    AppendAssoc(pre, o, "null()");
    OpeningsParens(cost, limits);
    ClosingsParens(|limits|);
    NullParens();
    assert NoParens(pre);
    CountAbsent(pre, '(');
    CountAbsent(pre, ')');
    CountFour(pre, o, "null()", c, '(');
    CountFour(pre, o, "null()", c, ')');
  }

  lemma NullParens()
    ensures Count("null()", '(') == 1 && Count("null()", ')') == 1
  {
    CountAppend("null", "()", '(');
    CountAppend("null", "()", ')');
    CountAbsent("null", '(');
    CountAbsent("null", ')');
    assert "null()" == "null" + "()";
  }

  lemma CountFour(a: string, b: string, c: string, d: string, ch: char)
    ensures Count(a + b + c + d, ch) == Count(a, ch) + Count(b, ch) + Count(c, ch) + Count(d, ch)
  {
    CountAppend(a + b + c, d, ch);
    CountAppend(a + b, c, ch);
    CountAppend(a, b, ch);
  }

  // ---------------------------------------------------------------------
  // Per-cell meaning
  // ---------------------------------------------------------------------

  /** Position of the first limit, in list order, that `c` does not exceed. */
  function FirstFit(limits: seq<nat>, c: real): (r: Option<nat>)
    ensures r.Some? ==> r.value < |limits| && c <= limits[r.value] as real
    ensures r.Some? ==> forall j :: 0 <= j < r.value ==> (limits[j] as real) < c
    ensures r.None? ==> forall j :: 0 <= j < |limits| ==> (limits[j] as real) < c
  {
    if |limits| == 0 then None
    else if c <= limits[0] as real then Some(0)
    else match FirstFit(limits[1..], c)
      case None => None
      case Some(i) => Some(i + 1)
  }

  /** The isochrone value of a cell: the first limit in list order that its
      cost does not exceed (the limit itself, not its position); null when
      the cost is null or exceeds every limit. */
  function Classify(limits: seq<nat>, cost: Cell): (r: Cell)
    ensures r.Some? <==> cost.Some? && exists j :: 0 <= j < |limits| && cost.value <= limits[j] as real
    ensures r.Some? ==> exists i :: (0 <= i < |limits| && r.value == limits[i] as real && cost.value <= r.value
      && forall j :: 0 <= j < i ==> (limits[j] as real) < cost.value)
  {
    if cost.None? then None
    else match FirstFit(limits, cost.value)
      case None => None
      case Some(i) => Some(limits[i] as real)
  }

  /** The generated expression computes exactly the first-fit classification. */
  lemma {:induction false} EvalNest(limits: seq<nat>, cost: Cell)
    ensures Eval(Nest(limits), cost) == Classify(limits, cost)
    decreases |limits|
  {
    if |limits| > 0 {
      EvalNest(limits[1..], cost);
      if cost.Some? && !(cost.value <= limits[0] as real) {
        var rest := FirstFit(limits[1..], cost.value);
        if rest.Some? {
          assert limits[1..][rest.value] == limits[rest.value + 1];
        }
      }
    }
  }

  predicate Increasing(limits: seq<nat>) {
    forall i, j :: 0 <= i < j < |limits| ==> limits[i] < limits[j]
  }

  /** With increasing limits a defined value is the smallest limit at or
      above the cost. */
  lemma ClassifySmallestAbove(limits: seq<nat>, c: real)
    requires Increasing(limits)
    requires Classify(limits, Some(c)).Some?
    ensures c <= Classify(limits, Some(c)).value
    ensures forall j :: 0 <= j < |limits| && c <= limits[j] as real ==> Classify(limits, Some(c)).value <= limits[j] as real
  {
    var i := FirstFit(limits, c).value;
    forall j | 0 <= j < |limits| && c <= limits[j] as real
      ensures limits[i] as real <= limits[j] as real
    {
      if j > i {
        assert limits[i] < limits[j];
      }
    }
  }

  /** With increasing limits, classification is monotone in the cost. */
  lemma ClassifyMonotone(limits: seq<nat>, c1: real, c2: real)
    requires Increasing(limits)
    requires c1 <= c2
    requires Classify(limits, Some(c1)).Some? && Classify(limits, Some(c2)).Some?
    ensures Classify(limits, Some(c1)).value <= Classify(limits, Some(c2)).value
  {
    ClassifySmallestAbove(limits, c1);
    var i2 := FirstFit(limits, c2).value;
    assert c1 <= limits[i2] as real;
  }

  /** Classifying an already classified value changes nothing, for any list
      of limits: the first limit that fits the cost also fits itself, and
      every earlier limit is below it. */
  lemma ClassifyIdempotent(limits: seq<nat>, cost: Cell)
    ensures Classify(limits, Classify(limits, cost)) == Classify(limits, cost)
  {
    var v := Classify(limits, cost);
    if v.Some? {
      var i := FirstFit(limits, cost.value).value;
      var k := FirstFit(limits, v.value);
      assert k.Some?;
      if k.value < i {
        assert false;
      } else if k.value > i {
        assert false;
      }
    }
  }

  /** The configured limits are strictly increasing. */
  lemma TimeLimitsIncreasing()
    ensures Increasing(TimeLimits)
  {
  }

  /** Limits 30, 60 and 9999999 put costs 10, 45, 500 and null into 30, 60,
      9999999 and null. */
  lemma ClassifyExample()
    ensures Classify([30, 60, 9999999], Some(10.0)) == Some(30.0)
    ensures Classify([30, 60, 9999999], Some(45.0)) == Some(60.0)
    ensures Classify([30, 60, 9999999], Some(500.0)) == Some(9999999.0)
    ensures Classify([30, 60, 9999999], None) == None
  {
    var ls: seq<nat> := [30, 60, 9999999];
    assert ls[1..] == [60, 9999999];
    assert ls[1..][1..] == [9999999];
  }
}
