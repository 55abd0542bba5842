/**
 * Basic figures of the two alternatives being compared: revenue, total
 * variable cost and contribution margin, derived from units, unit price and
 * unit variable cost.  The input widgets accept only non-negative integers,
 * so every input is a `nat`; Python integers do not overflow, and neither do
 * Dafny's.
 */
module Basics {

  /** One of the two mutually exclusive business options. */
  datatype Alternative = Alt1 | Alt2

  function Other(a: Alternative): Alternative {
    if a == Alt1 then Alt2 else Alt1
  }

  /** What the user enters for one alternative. */
  datatype AlternativeInput = AlternativeInput(units: nat, unitPrice: nat, unitVariableCost: nat)

  /** Revenue (ingreso), total variable cost (costo_variable) and margin (margen). */
  datatype Figures = Figures(revenue: nat, variableCost: nat, margin: int)

  /** Everything the later models read from the basics form (datos_basicos). */
  datatype BasicData = BasicData(name1: string, name2: string,
                                 input1: AlternativeInput, input2: AlternativeInput,
                                 alt1: Figures, alt2: Figures)

  /** Revenue, variable cost and contribution margin of one alternative. */
  function ComputeFigures(a: AlternativeInput): (f: Figures)
    ensures f.revenue == a.units * a.unitPrice
    ensures f.variableCost == a.units * a.unitVariableCost
    ensures f.margin == f.revenue - f.variableCost
    // the margin is the per-unit margin earned on every unit
    ensures f.margin == a.units * (a.unitPrice - a.unitVariableCost)
  {
    var revenue := a.units * a.unitPrice;
    var variableCost := a.units * a.unitVariableCost;
    Figures(revenue, variableCost, revenue - variableCost)
  }

  /** The basics form: names and figures of both alternatives. */
  function ComputeBasics(name1: string, name2: string,
                         input1: AlternativeInput, input2: AlternativeInput): (b: BasicData)
    ensures b.name1 == name1 && b.name2 == name2
    ensures b.alt1.margin == input1.units * (input1.unitPrice - input1.unitVariableCost)
    ensures b.alt2.margin == input2.units * (input2.unitPrice - input2.unitVariableCost)
    ensures b.alt1 == ComputeFigures(input1) && b.alt2 == ComputeFigures(input2)
  {
    BasicData(name1, name2, input1, input2, ComputeFigures(input1), ComputeFigures(input2))
  }

  /** The margin scales linearly with the number of units. */
  lemma MarginLinearInUnits(a: AlternativeInput, k: nat)
    ensures ComputeFigures(a.(units := k * a.units)).margin == k * ComputeFigures(a).margin
  {
  }

  /** The margin is positive exactly when something is sold above its unit cost,
      and negative exactly when something is sold below it. */
  lemma MarginSign(a: AlternativeInput)
    ensures ComputeFigures(a).margin > 0 <==> a.units > 0 && a.unitPrice > a.unitVariableCost
    ensures ComputeFigures(a).margin < 0 <==> a.units > 0 && a.unitPrice < a.unitVariableCost
  {
  }
}
