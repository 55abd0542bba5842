# Cost-decision calculator, modelled in Dafny

This project models the calculation engine of a Streamlit calculator that compares two business
alternatives. It uses three accounting models: total cost, relevant cost and opportunity cost.
The input widgets are replaced by plain values: numbers the user typed, the mode they picked, the
state of a checkbox and whether a button was pressed.

- `basics.dfy` (module `Basics`) covers the basics form. For each alternative it turns units, unit
  price and unit variable cost into revenue (ingreso), total variable cost (costo variable) and
  contribution margin (margen). Every input is a non-negative integer, so every input is a `nat`.
- `fixed_costs.dfy` (module `FixedCosts`) covers the fixed-cost rows `{nombre, valor1, valor2,
  reduccion, relevante}`. It holds:
  - the four seeded rows;
  - the three modes that derive the alternative-2 value and the relevance flag ("Mismo valor",
    "Valor diferente", "Reducción %");
  - the preselected mode and widget defaults of a stored row;
  - the edit pass that rebuilds the list;
  - the add form;
  - the totals over all rows and over relevant rows.
- `ledger.dfy` (module `Ledger`) holds the session's list as the class `CostLedger`. Its methods
  `Seed`, `EditPass`, `Add` and `Clear` update it in place. `FixedCostsPass` is one run of the
  fixed-cost form.
- `decision.dfy` (module `Decision`) holds the total-cost, relevant-cost and opportunity-cost
  models, the advantage and the alternative it is credited to.
- `wrappers.dfy` (module `Wrappers`) holds the `Option` type, used for the `None` the form returns
  when there are no fixed costs.

Four facts about the code that the model keeps:
- On a tie, the advantage is credited to alternative 2 (`ventaja > 0`). There is no separate tie
  outcome.
- The percentage reduction truncates.
- Adding a row with an empty name only shows a warning and leaves the list unchanged.
- All values and prices are integers.

## Model

| member | source | states |
|---|---|---|
| `Basics.ComputeFigures` | src/app.py:166-174 | revenue = units × price and variable cost = units × unit cost; margin = revenue − variable cost, which is units × (price − unit cost) and may be negative |
| `Basics.ComputeBasics` | src/app.py:145-206 | the basics record carries both names and the figures of both alternatives, each margin being units × per-unit margin |
| `Basics.MarginLinearInUnits` | src/app.py:167-174 | multiplying the units by k multiplies the margin by k |
| `Basics.MarginSign` | src/app.py:167-174 | the margin is positive iff units > 0 and price > unit cost, negative iff units > 0 and price < unit cost |
| `FixedCosts.DefaultRows` | src/app.py:218-226 | exactly four rows Arriendo, Electricidad, Remuneraciones, Teléfono, in that order, all values and reductions 0, none relevant |
| `FixedCosts.Reduced` | src/app.py:291 | the value reduced by r percent, truncated, never exceeds valor1, equals valor1 at 0% and is 0 at 100% |
| `FixedCosts.ReducedMonotone` | src/app.py:284-291 | a larger percentage never gives a larger reduced value |
| `FixedCosts.ReducedStrict` | src/app.py:291-292 | any positive reduction of a positive value lowers it |
| `FixedCosts.Derive` | src/app.py:269-292 | "Mismo valor" copies valor1 and is not relevant; "Valor diferente" takes the entered value with reduction 0; "Reducción %" stores the slider value and the reduced value; at 0% that is valor1 and not relevant; in every mode the row is relevant iff its values differ or it carries a reduction |
| `FixedCosts.ApplyEdit` | src/app.py:269-314 | the stored row keeps the edited name and valor1, its valor2 and reduccion are the ones the chosen mode derives, it is well formed, and its relevance is the checkbox value, defaulting to the derived flag |
| `FixedCosts.PreselectedMode` | src/app.py:264-265 | "Mismo valor" iff no reduction and equal values, "Valor diferente" iff no reduction and different values, "Reducción %" iff there is a reduction |
| `FixedCosts.UntouchedKeepsRow` | src/app.py:243-301 | with the preselected mode, the number-input and slider defaults, and the checkbox still holding the stored flag, an untouched row is stored unchanged |
| `FixedCosts.CheckboxDefaultKeepsRowIff` | src/app.py:297-301 | with the checkbox at its default, which is the derived flag, an untouched row is stored unchanged iff its relevance equals the derived one, so an override survives only in the checkbox's state |
| `FixedCosts.Rebuild` | src/app.py:232-314 | the rebuilt list has one row per snapshot whose "Eliminar" was not pressed, and every row is well formed |
| `FixedCosts.RebuildPrefix` | src/app.py:232-314 | rebuilding a prefix of the snapshots yields a prefix of the rebuilt list |
| `FixedCosts.RebuildAt` | src/app.py:303-314 | a kept snapshot i is stored at the position equal to the number of kept snapshots before it, so the original order is preserved |
| `FixedCosts.RebuildDeleted` | src/app.py:303-305 | a snapshot whose "Eliminar" was pressed adds no row: the list rebuilt through it equals the list rebuilt before it |
| `FixedCosts.UntouchedPassKeepsRows` | src/app.py:232-319 | an edit pass in which nothing is touched leaves the list exactly as it was |
| `FixedCosts.DeleteOneRow` | src/app.py:303-319 | pressing "Eliminar" on row k only removes exactly row k and keeps the rest in order |
| `FixedCosts.NewRow` | src/app.py:343-371 | the added row has the entered name and valor1, and the valor2, reduccion and relevance the chosen mode derives; it is well formed |
| `FixedCosts.SameDerivationOnAdd` | src/app.py:343-360 | the add form derives a row by the same rule as the edit pass with an untouched checkbox |
| `FixedCosts.AddThenDeleteRestores` | src/app.py:363-371 | adding a row and then deleting it restores the earlier list |
| `FixedCosts.RelevantRows` | src/app.py:500 | the listed rows are exactly the relevant rows of the list |
| `FixedCosts.RelevantRowsSingle` | src/app.py:500 | a single row is kept iff it is relevant |
| `FixedCosts.RelevantRowsAppend` | src/app.py:500 | filtering a joined list joins the filtered parts, so the filter keeps order and duplicates |
| `FixedCosts.Total` | src/app.py:382-387 | every row's value for the alternative is part of the total |
| `FixedCosts.TotalAppend` | src/app.py:382-383 | the total of two lists joined is the sum of their totals |
| `FixedCosts.RelevantTotalBounded` | src/app.py:382-387 | the relevant total never exceeds the total, for either alternative |
| `FixedCosts.TotalOrderIndependent` | src/app.py:382-387 | reordering the rows does not change the totals |
| `FixedCosts.AddRaisesTotal` | src/app.py:365-371 | appending a row raises each total by that row's value |
| `FixedCosts.DeleteLowersTotal` | src/app.py:303-305 | deleting row k lowers each total by that row's value |
| `FixedCosts.IrrelevantRowsCancel` | src/app.py:386-387 | when non-relevant rows cost the same under both alternatives, the difference of the relevant totals equals the difference of the totals |
| `FixedCosts.DerivedRelevanceCancels` | src/app.py:269-292 | with derived (not overridden) relevance, the relevant totals give the same difference as the totals |
| `FixedCosts.Summarize` | src/app.py:378-426 | an empty list gives None; otherwise the four totals are the column sums over all rows and over relevant rows, with relevant ≤ total |
| `Ledger.CostLedger.constructor` | src/app.py:214 | a new session holds no list |
| `Ledger.CostLedger.Seed` | src/app.py:214-226 | on first use the list becomes the four default rows; later the list is kept |
| `Ledger.CostLedger.EditPass` | src/app.py:232-319 | the stored list is replaced by the rebuilt list, keeping every row well formed |
| `Ledger.CostLedger.Add` | src/app.py:363-375 | exactly one derived row is appended iff the name is non-empty; otherwise the list is unchanged |
| `Ledger.CostLedger.Clear` | src/app.py:411-414 | the list becomes empty |
| `Ledger.FixedCostsPass` | src/app.py:209-426 | seed, edit, then: a successful add reruns with the row appended; an empty list yields no data; a clear reruns with an empty list; otherwise the summary of the rebuilt list |
| `Decision.Decide` | src/app.py:434-470 | ventaja = result1 − result2; credited to alternative 1 iff ventaja > 0 (ties go to alternative 2); the credited alternative is never behind, and the amount shown is its lead |
| `Decision.DecideAntisymmetric` | src/app.py:434-458 | swapping the results negates the advantage and swaps the credited alternative, except that a tie stays with alternative 2 |
| `Decision.TotalCostModel` | src/app.py:429-474 | result_i = margin_i − total fixed cost_i, every row listed, advantage by `Decide` |
| `Decision.RelevantCostModel` | src/app.py:477-524 | result_i = margin_i − relevant fixed cost_i, only relevant rows listed, advantage by `Decide` |
| `Decision.RelevantResultAtLeastTotal` | src/app.py:431-432 | each relevant-cost result is at least the total-cost result |
| `Decision.ModelsAgreeWhenIrrelevantRowsCancel` | src/app.py:479-482 | when non-relevant rows cost the same under both alternatives, both models give the same advantage and credit the same alternative |
| `Decision.OpportunityCost` | src/app.py:527-533 | choosing alt1 costs result2, choosing alt2 costs result1; the best is alt1 iff result1 > result2; choosing the best forgoes no more than it earns |
| `Decision.OpportunityAgreesWithTotalCost` | src/app.py:577-578 | fed with the total-cost results, the opportunity model names the same best alternative and advantage |
| `Decision.Evaluate` | src/app.py:585-604 | the models run iff there is fixed-cost data; the opportunity model is computed from the total-cost results, so each opportunity cost is the other alternative's total-cost result |
| `Decision.WorkedExample` | src/app.py:590-604 | 100×50 vs 80×55 with unit costs 20 and 25 and a rent of 1000 for both: margins 3000 and 2400, total-cost results 2000 and 1400, relevant-cost results 3000 and 2400, advantage 600 for alternative 1 |

## Left out

- The Streamlit page setup, styling, cover page and page navigation (src/app.py:8-139, 545-608) are
  user interface and routing. `Decision.Evaluate` keeps only the numeric part of the combined page.
- Table assembly with pandas and currency formatting are presentation only. The model keeps the
  numbers that go into the tables: the listed rows, the totals, the results and the advantage with
  the alternative it is credited to.
- The opportunity-cost "table" (src/app.py:536-543) is left out. It is a set of label strings
  without values, and the function returns nothing. Only the numbers from lines 529-533 are modelled.
- `FixedCosts.Reduced`: the code computes `int(valor1 * (1 - reduccion/100))` in floating point.
  The model computes the integer quotient valor1·(100 − r) div 100. The two can differ by one for
  some inputs, because the float product can land just below a whole number (100 at 55% is one
  such case). Floating-point arithmetic is not modelled.
- Widget state is kept per row index (`key=f"costo_{i}_..."`). After a deletion, a later row could
  pick up the widget state of the row that used to sit at its index. This is not modelled: each
  row's snapshot is given as the widget values of that row.
- The reruns that `st.experimental_rerun` triggers after an add or a clear are modelled only as the
  `Rerun` outcome of `Ledger.FixedCostsPass`. The next run is a new call.
- The slider's step of 5 is not modelled. Any integer percentage in [0, 100] is accepted.
- The unused numpy and plotly imports are not modelled.
