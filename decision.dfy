/**
 * The three decision models: total cost, relevant cost and opportunity cost.
 * Each compares the results of the two alternatives and credits the
 * advantage to one of them.
 */
module Decision {
  import opened Wrappers
  import opened Basics
  import opened FixedCosts

  /** Results of both alternatives under one model, their difference
      (ventaja), the alternative credited with the advantage and the amount
      shown in its column. */
  datatype Decision = Decision(result1: int, result2: int, advantage: int,
                               favoured: Alternative, shownAdvantage: nat)

  function ResultOf(d: Decision, a: Alternative): int {
    if a == Alt1 then d.result1 else d.result2
  }

  /** Compares two results: the advantage is credited to alternative 1 only
      when it is strictly ahead, so a tie is credited to alternative 2. */
  function Decide(result1: int, result2: int): (d: Decision)
    ensures d.result1 == result1 && d.result2 == result2
    ensures d.advantage == result1 - result2
    ensures d.favoured == Alt1 <==> result1 > result2
    // the credited alternative is never behind, and the amount shown is its lead
    ensures ResultOf(d, d.favoured) >= ResultOf(d, Other(d.favoured))
    ensures d.shownAdvantage == ResultOf(d, d.favoured) - ResultOf(d, Other(d.favoured))
  {
    var advantage := result1 - result2;
    Decision(result1, result2, advantage,
             if advantage > 0 then Alt1 else Alt2,
             if advantage < 0 then -advantage else advantage)
  }

  /** Swapping the results negates the advantage; unless they tie, the
      credited alternative swaps too. */
  lemma DecideAntisymmetric(result1: int, result2: int)
    ensures Decide(result2, result1).advantage == -Decide(result1, result2).advantage
    ensures result1 != result2 ==> Decide(result2, result1).favoured == Other(Decide(result1, result2).favoured)
    ensures result1 == result2 ==> Decide(result2, result1).favoured == Decide(result1, result2).favoured == Alt2
  {
  }

  /** A model's output: the fixed-cost rows it itemises and its decision. */
  datatype ModelResult = ModelResult(listed: seq<FixedCost>, decision: Decision)

  /** Total-cost model: each result is the margin minus all fixed costs, and
      every row is itemised. */
  function TotalCostModel(b: BasicData, costs: CostData): (m: ModelResult)
    ensures m.listed == costs.rows
    ensures m.decision.result1 == b.alt1.margin - costs.totals.fixed1
    ensures m.decision.result2 == b.alt2.margin - costs.totals.fixed2
    ensures m.decision == Decide(m.decision.result1, m.decision.result2)
  {
    ModelResult(costs.rows, Decide(b.alt1.margin - costs.totals.fixed1, b.alt2.margin - costs.totals.fixed2))
  }

  /** Relevant-cost model: each result is the margin minus the relevant fixed
      costs only, and only relevant rows are itemised. */
  function RelevantCostModel(b: BasicData, costs: CostData): (m: ModelResult)
    ensures m.listed == RelevantRows(costs.rows)
    ensures forall c :: c in m.listed ==> c.relevant
    ensures m.decision.result1 == b.alt1.margin - costs.totals.relevant1
    ensures m.decision.result2 == b.alt2.margin - costs.totals.relevant2
    ensures m.decision == Decide(m.decision.result1, m.decision.result2)
  {
    ModelResult(RelevantRows(costs.rows),
                Decide(b.alt1.margin - costs.totals.relevant1, b.alt2.margin - costs.totals.relevant2))
  }

  /** On a summarized list, leaving out non-relevant rows can only raise each
      result: the relevant-cost result is at least the total-cost result. */
  lemma RelevantResultAtLeastTotal(b: BasicData, rows: seq<FixedCost>)
    requires rows != []
    ensures RelevantCostModel(b, Summarize(rows).value).decision.result1
         >= TotalCostModel(b, Summarize(rows).value).decision.result1
    ensures RelevantCostModel(b, Summarize(rows).value).decision.result2
         >= TotalCostModel(b, Summarize(rows).value).decision.result2
  {
  }

  /** When every non-relevant row costs the same under both alternatives, the
      relevant-cost model reaches the same advantage and credits the same
      alternative as the total-cost model. */
  lemma {:induction false} ModelsAgreeWhenIrrelevantRowsCancel(b: BasicData, rows: seq<FixedCost>)
    requires rows != []
    requires forall i :: 0 <= i < |rows| && !rows[i].relevant ==> rows[i].value1 == rows[i].value2
    ensures RelevantCostModel(b, Summarize(rows).value).decision.advantage
         == TotalCostModel(b, Summarize(rows).value).decision.advantage
    ensures RelevantCostModel(b, Summarize(rows).value).decision.favoured
         == TotalCostModel(b, Summarize(rows).value).decision.favoured
  {
    IrrelevantRowsCancel(rows);
  }

  /** Opportunity-cost figures: choosing one alternative forgoes the other's
      total-cost result. */
  datatype Opportunity = Opportunity(costIfAlt1: int, costIfAlt2: int, advantage: int, best: Alternative)

  function CostOfChoosing(o: Opportunity, a: Alternative): int {
    if a == Alt1 then o.costIfAlt1 else o.costIfAlt2
  }

  /** The opportunity-cost model over the two total-cost results. */
  function OpportunityCost(result1: int, result2: int): (o: Opportunity)
    ensures o.costIfAlt1 == result2 && o.costIfAlt2 == result1
    ensures o.advantage == result1 - result2
    ensures o.best == Alt1 <==> result1 > result2
    // choosing the best alternative forgoes no more than it earns,
    // and choosing the other forgoes at least as much as it earns
    ensures CostOfChoosing(o, o.best) <= (if o.best == Alt1 then result1 else result2)
    ensures CostOfChoosing(o, Other(o.best)) >= (if o.best == Alt1 then result2 else result1)
  {
    var advantage := result1 - result2;
    Opportunity(result2, result1, advantage, if advantage > 0 then Alt1 else Alt2)
  }

  /** The opportunity-cost model names the same best alternative and the same
      advantage as the total-cost model it is fed from. */
  lemma OpportunityAgreesWithTotalCost(b: BasicData, costs: CostData)
    ensures OpportunityCost(TotalCostModel(b, costs).decision.result1,
                            TotalCostModel(b, costs).decision.result2).best
         == TotalCostModel(b, costs).decision.favoured
    ensures OpportunityCost(TotalCostModel(b, costs).decision.result1,
                            TotalCostModel(b, costs).decision.result2).advantage
         == TotalCostModel(b, costs).decision.advantage
  {
  }

  /** All three models, as the combined page shows them. */
  datatype Report = Report(total: ModelResult, relevant: ModelResult, opportunity: Opportunity)

  /** The models run only when there is fixed-cost data. */
  function Evaluate(b: BasicData, costs: Option<CostData>): (r: Option<Report>)
    ensures r.None? <==> costs.None?
    ensures r.Some? ==> (r.value.total == TotalCostModel(b, costs.value) &&
                         r.value.relevant == RelevantCostModel(b, costs.value))
    ensures r.Some? ==> (r.value.opportunity.costIfAlt1 == r.value.total.decision.result2 &&
                         r.value.opportunity.costIfAlt2 == r.value.total.decision.result1)
    ensures r.Some? ==> r.value.opportunity == OpportunityCost(r.value.total.decision.result1,
                                                               r.value.total.decision.result2)
  {
    match costs
    case None => None
    case Some(c) =>
      var total := TotalCostModel(b, c);
      Some(Report(total, RelevantCostModel(b, c),
                  OpportunityCost(total.decision.result1, total.decision.result2)))
  }

  /** The worked example: alternative 1 sells 100 units at 50 with unit cost 20,
      alternative 2 sells 80 at 55 with unit cost 25, and the only fixed cost,
      rent, is 1000 for both. */
  lemma WorkedExample()
    ensures var b := ComputeBasics("A", "B", AlternativeInput(100, 50, 20), AlternativeInput(80, 55, 25));
            var rows := [NewRow(NewCost("Arriendo", 1000, SameValue, 0, 0))];
            var r := Evaluate(b, Summarize(rows)).value;
            b.alt1 == Figures(5000, 2000, 3000) && b.alt2 == Figures(4400, 2000, 2400) &&
            r.total.decision == Decision(2000, 1400, 600, Alt1, 600) &&
            r.relevant.listed == [] &&
            r.relevant.decision == Decision(3000, 2400, 600, Alt1, 600) &&
            r.opportunity == Opportunity(1400, 2000, 600, Alt1)
  {
  }
}
