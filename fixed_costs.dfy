/**
 * The fixed-cost rows of the calculator (costos_fijos): how a row's
 * alternative-2 value and relevance flag are derived from the chosen mode,
 * how an edit pass rebuilds the list, and the totals over all rows and over
 * relevant rows only.
 */
module FixedCosts {
  import opened Wrappers
  import opened Basics

  /** One fixed-cost record {nombre, valor1, valor2, reduccion, relevante}. */
  datatype FixedCost = FixedCost(name: string, value1: nat, value2: nat, reduction: nat, relevant: bool)

  /** The three ways of giving the alternative-2 value of a row. */
  datatype Mode = SameValue | DifferentValue | ReductionPct

  /** Names of the rows the list is seeded with on first use. */
  const DefaultNames: seq<string> := ["Arriendo", "Electricidad", "Remuneraciones", "Teléfono"]

  /** A seeded row: named, all values zero, not relevant. */
  function Blank(name: string): FixedCost {
    FixedCost(name, 0, 0, 0, false)
  }

  /** The four seeded rows, in order. */
  function DefaultRows(): (rows: seq<FixedCost>)
    ensures |rows| == 4
    ensures rows[0].name == "Arriendo" && rows[1].name == "Electricidad"
    ensures rows[2].name == "Remuneraciones" && rows[3].name == "Teléfono"
    ensures forall i :: 0 <= i < |rows| ==>
      rows[i].value1 == 0 && rows[i].value2 == 0 && rows[i].reduction == 0 && !rows[i].relevant
  {
    seq(|DefaultNames|, i requires 0 <= i < |DefaultNames| => Blank(DefaultNames[i]))
  }

  // ---------------------------------------------------------------------------
  // Percentage reduction

  /** The alternative-2 value of a row reduced by `pct` percent, truncated. */
  function Reduced(value1: nat, pct: nat): (v: nat)
    requires pct <= 100
    ensures v <= value1
    ensures pct == 0 ==> v == value1
    ensures pct == 100 ==> v == 0
  {
    value1 * (100 - pct) / 100
  }

  /** A larger reduction never gives a larger value. */
  lemma ReducedMonotone(value1: nat, p: nat, q: nat)
    requires p <= q <= 100
    ensures Reduced(value1, q) <= Reduced(value1, p)
  {
  }

  /** Any positive reduction of a positive value lowers it. */
  lemma ReducedStrict(value1: nat, pct: nat)
    requires 0 < pct <= 100 && value1 > 0
    ensures Reduced(value1, pct) < value1
  {
  }

  // ---------------------------------------------------------------------------
  // Deriving a row from its mode

  /** The derived part of a row: alternative-2 value, reduction and relevance. */
  datatype Derived = Derived(value2: nat, reduction: nat, relevant: bool)

  /** How a row's alternative-2 value, reduction and default relevance follow
      from the chosen mode. `enteredValue2` is read only in "Valor diferente",
      `enteredPct` only in "Reducción %". The same rule serves edited rows and
      new rows. */
  function Derive(value1: nat, mode: Mode, enteredValue2: nat, enteredPct: nat): (d: Derived)
    requires enteredPct <= 100
    ensures d.reduction <= 100
    ensures mode != ReductionPct ==> d.reduction == 0
    ensures mode == SameValue ==> d.value2 == value1 && !d.relevant
    ensures mode == DifferentValue ==> d.value2 == enteredValue2
    ensures mode == ReductionPct ==>
              d.reduction == enteredPct && d.value2 == Reduced(value1, enteredPct) &&
              (d.relevant <==> enteredPct > 0)
    // a row carrying a reduction holds the reduced value
    ensures d.reduction > 0 ==> d.value2 == Reduced(value1, d.reduction)
    // a derived row is relevant exactly when it differs between the
    // alternatives or carries a reduction
    ensures d.relevant <==> d.value2 != value1 || d.reduction > 0
  {
    match mode
    case SameValue => Derived(value1, 0, false)
    case DifferentValue => Derived(enteredValue2, 0, value1 != enteredValue2)
    case ReductionPct => Derived(Reduced(value1, enteredPct), enteredPct, enteredPct > 0)
  }

  /** What every stored row satisfies: the reduction is a percentage, and a row
      with a reduction holds the reduced value. */
  ghost predicate WellFormed(c: FixedCost) {
    c.reduction <= 100 && (c.reduction > 0 ==> c.value2 == Reduced(c.value1, c.reduction))
  }

  /** The relevance a row would get from its own values if nobody ticked the box. */
  predicate DerivedRelevance(c: FixedCost) {
    c.value2 != c.value1 || c.reduction > 0
  }

  // ---------------------------------------------------------------------------
  // The edit pass

  /** The widgets of one row as the user leaves them: the edited name and
      alternative-1 value, the chosen mode, the alternative-2 number input and
      the slider (each read only in its own mode), the relevance checkbox
      (None while it still shows the derived default) and whether "Eliminar"
      was pressed. */
  datatype RowEdit = RowEdit(name: string, value1: nat, mode: Mode, value2: nat, pct: nat,
                             relevantToggle: Option<bool>, delete: bool)

  ghost predicate ValidEdit(e: RowEdit) {
    e.pct <= 100
  }

  /** The row an edit snapshot stores: derived values, and the checkbox's
      relevance (which defaults to the derived flag). */
  function ApplyEdit(e: RowEdit): (c: FixedCost)
    requires ValidEdit(e)
    ensures WellFormed(c)
    ensures c.name == e.name && c.value1 == e.value1
    ensures e.relevantToggle.Some? ==> c.relevant == e.relevantToggle.value
    ensures e.relevantToggle.None? ==> (c.relevant <==> DerivedRelevance(c))
    // the stored values are the ones the chosen mode derives
    ensures var d := Derive(e.value1, e.mode, e.value2, e.pct);
            c.value2 == d.value2 && c.reduction == d.reduction &&
            (e.relevantToggle.None? ==> c.relevant == d.relevant)
  {
    var d := Derive(e.value1, e.mode, e.value2, e.pct);
    FixedCost(e.name, e.value1, d.value2, d.reduction, e.relevantToggle.GetOr(d.relevant))
  }

  /** The mode radio button preselected for a stored row. */
  function PreselectedMode(c: FixedCost): (m: Mode)
    ensures m == SameValue <==> c.reduction == 0 && c.value1 == c.value2
    ensures m == DifferentValue <==> c.reduction == 0 && c.value1 != c.value2
    ensures m == ReductionPct <==> c.reduction != 0
  {
    if c.reduction == 0 && c.value1 == c.value2 then SameValue
    else if c.reduction == 0 then DifferentValue
    else ReductionPct
  }

  /** The snapshot of a row whose widgets the user did not touch: every widget
      shows its default (the alternative-2 input shows the stored value only
      when it differs from the alternative-1 value, else 0) and the checkbox
      still shows the stored flag. */
  function Untouched(c: FixedCost): RowEdit {
    RowEdit(c.name, c.value1, PreselectedMode(c),
            if c.value2 != c.value1 then c.value2 else 0,
            if c.reduction > 0 then c.reduction else 0,
            Some(c.relevant), false)
  }

  /** Leaving a stored row's widgets alone stores the very same row: the
      preselected mode re-derives exactly the stored values. */
  lemma UntouchedKeepsRow(c: FixedCost)
    requires WellFormed(c)
    ensures ValidEdit(Untouched(c)) && ApplyEdit(Untouched(c)) == c
  {
  }

  /** With the checkbox at its default (the derived flag) rather than holding
      the stored flag, an untouched row is stored unchanged exactly when its
      relevance was never overridden: an override lives only in the
      checkbox's state. */
  lemma CheckboxDefaultKeepsRowIff(c: FixedCost)
    requires WellFormed(c)
    ensures ValidEdit(Untouched(c).(relevantToggle := None))
    ensures ApplyEdit(Untouched(c).(relevantToggle := None)) == c <==> (c.relevant <==> DerivedRelevance(c))
  {
  }

  /** The untouched snapshots of a whole list. */
  function UntouchedAll(rows: seq<FixedCost>): (edits: seq<RowEdit>)
    ensures |edits| == |rows|
    ensures forall i :: 0 <= i < |rows| ==> edits[i] == Untouched(rows[i])
  {
    seq(|rows|, i requires 0 <= i < |rows| => Untouched(rows[i]))
  }

  /** Every snapshot of the pass is well formed. */
  ghost predicate ValidEdits(edits: seq<RowEdit>) {
    forall i :: 0 <= i < |edits| ==> ValidEdit(edits[i])
  }

  /** Number of rows whose "Eliminar" was not pressed. */
  function KeptCount(edits: seq<RowEdit>): nat {
    if edits == [] then 0
    else KeptCount(edits[..|edits| - 1]) + (if edits[|edits| - 1].delete then 0 else 1)
  }

  /** The list the edit pass stores (costos_actualizados): the snapshots in
      order, each applied, skipping those whose "Eliminar" was pressed. */
  function Rebuild(edits: seq<RowEdit>): (rows: seq<FixedCost>)
    requires ValidEdits(edits)
    ensures |rows| == KeptCount(edits) <= |edits|
    ensures forall i :: 0 <= i < |rows| ==> WellFormed(rows[i])
  {
    if edits == [] then []
    else
      var last := edits[|edits| - 1];
      var rest := Rebuild(edits[..|edits| - 1]);
      if last.delete then rest else rest + [ApplyEdit(last)]
  }

  /** The pass over a prefix of the snapshots stores a prefix of the list. */
  lemma {:induction false} RebuildPrefix(edits: seq<RowEdit>, n: nat)
    requires ValidEdits(edits) && n <= |edits|
    ensures Rebuild(edits[..n]) <= Rebuild(edits)
    decreases |edits| - n
  {
    if n < |edits| {
      var m := |edits| - 1;
      assert edits[..m][..n] == edits[..n];
      RebuildPrefix(edits[..m], n);
      assert Rebuild(edits[..m]) <= Rebuild(edits);
    } else {
      assert edits[..n] == edits;
    }
  }

  /** Order is kept and nothing but deleted rows is dropped: a kept snapshot i
      lands right after the rows kept before it. */
  lemma {:induction false} RebuildAt(edits: seq<RowEdit>, i: nat)
    requires ValidEdits(edits) && i < |edits| && !edits[i].delete
    ensures KeptCount(edits[..i]) < |Rebuild(edits)|
    ensures Rebuild(edits)[KeptCount(edits[..i])] == ApplyEdit(edits[i])
  {
    assert edits[..i + 1][..i] == edits[..i];
    RebuildPrefix(edits, i + 1);
  }

  /** A deleted snapshot leaves no row. */
  lemma {:induction false} RebuildDeleted(edits: seq<RowEdit>, i: nat)
    requires ValidEdits(edits) && i < |edits| && edits[i].delete
    ensures Rebuild(edits[..i + 1]) == Rebuild(edits[..i])
  {
    assert edits[..i + 1][..i] == edits[..i];
  }

  /** A pass in which the user touches nothing leaves the list as it was. */
  lemma {:induction false} UntouchedPassKeepsRows(rows: seq<FixedCost>)
    requires forall i :: 0 <= i < |rows| ==> WellFormed(rows[i])
    ensures ValidEdits(UntouchedAll(rows)) && Rebuild(UntouchedAll(rows)) == rows
    decreases |rows|
  {
    var edits := UntouchedAll(rows);
    forall i | 0 <= i < |rows| ensures ValidEdit(edits[i]) && ApplyEdit(edits[i]) == rows[i] {
      UntouchedKeepsRow(rows[i]);
    }
    if rows != [] {
      var m := |rows| - 1;
      assert UntouchedAll(rows[..m]) == edits[..m];
      UntouchedPassKeepsRows(rows[..m]);
      assert rows == rows[..m] + [rows[m]];
    }
  }

  /** The pass with row k's "Eliminar" pressed and every other row untouched. */
  function DeleteEdits(rows: seq<FixedCost>, k: nat): (edits: seq<RowEdit>)
    requires k < |rows|
    ensures |edits| == |rows|
  {
    UntouchedAll(rows)[k := Untouched(rows[k]).(delete := true)]
  }

  lemma DeleteEditsValid(rows: seq<FixedCost>, k: nat)
    requires forall i :: 0 <= i < |rows| ==> WellFormed(rows[i])
    requires k < |rows|
    ensures ValidEdits(DeleteEdits(rows, k))
  {
  }

  /** Pressing "Eliminar" on row k alone removes exactly row k. */
  lemma {:induction false} DeleteOneRow(rows: seq<FixedCost>, k: nat)
    requires forall i :: 0 <= i < |rows| ==> WellFormed(rows[i])
    requires k < |rows|
    ensures ValidEdits(DeleteEdits(rows, k))
    ensures Rebuild(DeleteEdits(rows, k)) == rows[..k] + rows[k + 1..]
    decreases |rows|
  {
    DeleteEditsValid(rows, k);
    var edits := DeleteEdits(rows, k);
    var m := |rows| - 1;
    if k == m {
      DeleteLast(rows);
    } else {
      assert edits[..m] == DeleteEdits(rows[..m], k);
      DeleteOneRow(rows[..m], k);
      UntouchedKeepsRow(rows[m]);
      assert Rebuild(edits) == Rebuild(edits[..m]) + [rows[m]];
      assert rows[..m][..k] == rows[..k];
      assert rows[k + 1..] == rows[..m][k + 1..] + [rows[m]];
    }
  }

  lemma DeleteLast(rows: seq<FixedCost>)
    requires forall i :: 0 <= i < |rows| ==> WellFormed(rows[i])
    requires rows != []
    ensures ValidEdits(DeleteEdits(rows, |rows| - 1))
    ensures Rebuild(DeleteEdits(rows, |rows| - 1)) == rows[..|rows| - 1]
  {
    var m := |rows| - 1;
    DeleteEditsValid(rows, m);
    assert DeleteEdits(rows, m)[..m] == UntouchedAll(rows[..m]);
    UntouchedPassKeepsRows(rows[..m]);
  }

  // ---------------------------------------------------------------------------
  // Adding a row

  /** What the "Agregar nuevo costo fijo" form holds. */
  datatype NewCost = NewCost(name: string, value1: nat, mode: Mode, value2: nat, pct: nat)

  /** The row the add form appends: values and relevance derived as for an
      edited row whose checkbox was never touched. */
  function NewRow(n: NewCost): (c: FixedCost)
    requires n.pct <= 100
    ensures WellFormed(c)
    ensures c.name == n.name && c.value1 == n.value1
    ensures c.relevant <==> DerivedRelevance(c)
    // values and relevance are the ones the chosen mode derives
    ensures var d := Derive(n.value1, n.mode, n.value2, n.pct);
            c.value2 == d.value2 && c.reduction == d.reduction && c.relevant == d.relevant
  {
    var d := Derive(n.value1, n.mode, n.value2, n.pct);
    FixedCost(n.name, n.value1, d.value2, d.reduction, d.relevant)
  }

  /** Adding and editing derive a row by the same rule. */
  lemma SameDerivationOnAdd(n: NewCost)
    requires n.pct <= 100
    ensures NewRow(n) == ApplyEdit(RowEdit(n.name, n.value1, n.mode, n.value2, n.pct, None, false))
  {
  }

  /** Adding a row and then deleting it (touching nothing else) restores the list. */
  lemma {:induction false} AddThenDeleteRestores(rows: seq<FixedCost>, n: NewCost)
    requires forall i :: 0 <= i < |rows| ==> WellFormed(rows[i])
    requires n.pct <= 100
    ensures ValidEdits(DeleteEdits(rows + [NewRow(n)], |rows|))
    ensures Rebuild(DeleteEdits(rows + [NewRow(n)], |rows|)) == rows
  {
    var grown := rows + [NewRow(n)];
    DeleteLast(grown);
    assert grown[..|rows|] == rows;
  }

  // ---------------------------------------------------------------------------
  // Totals

  /** A row's value for one alternative. */
  function Value(c: FixedCost, alt: Alternative): nat {
    if alt == Alt1 then c.value1 else c.value2
  }

  /** Sum of one alternative's values over a list of rows. */
  function Total(rows: seq<FixedCost>, alt: Alternative): (t: nat)
    // every row's value is part of the total
    ensures forall i :: 0 <= i < |rows| ==> Value(rows[i], alt) <= t
  {
    if rows == [] then 0 else Value(rows[0], alt) + Total(rows[1..], alt)
  }

  /** The rows ticked as relevant, in their order. */
  function RelevantRows(rows: seq<FixedCost>): (r: seq<FixedCost>)
    ensures |r| <= |rows|
    ensures forall c :: c in r ==> c in rows && c.relevant
    ensures forall c :: c in rows && c.relevant ==> c in r
  {
    if rows == [] then []
    else if rows[0].relevant then [rows[0]] + RelevantRows(rows[1..])
    else RelevantRows(rows[1..])
  }

  /** Filtering keeps a relevant row, and drops a non-relevant one. */
  lemma RelevantRowsSingle(c: FixedCost)
    ensures RelevantRows([c]) == if c.relevant then [c] else []
  {
  }

  /** Filtering a joined list filters each part and keeps their order, so
      RelevantRows keeps every relevant row, duplicates included, in order. */
  lemma {:induction false} RelevantRowsAppend(a: seq<FixedCost>, b: seq<FixedCost>)
    ensures RelevantRows(a + b) == RelevantRows(a) + RelevantRows(b)
  {
    if a == [] {
      assert a + b == b;
    } else {
      assert (a + b)[0] == a[0];
      assert (a + b)[1..] == a[1..] + b;
      RelevantRowsAppend(a[1..], b);
    }
  }

  lemma {:induction false} TotalAppend(a: seq<FixedCost>, b: seq<FixedCost>, alt: Alternative)
    ensures Total(a + b, alt) == Total(a, alt) + Total(b, alt)
  {
    if a == [] {
      assert a + b == b;
    } else {
      assert (a + b)[1..] == a[1..] + b;
      TotalAppend(a[1..], b, alt);
    }
  }

  /** The relevant total never exceeds the total. */
  lemma {:induction false} RelevantTotalBounded(rows: seq<FixedCost>, alt: Alternative)
    ensures Total(RelevantRows(rows), alt) <= Total(rows, alt)
  {
    if rows != [] {
      RelevantTotalBounded(rows[1..], alt);
      if rows[0].relevant {
        assert ([rows[0]] + RelevantRows(rows[1..]))[1..] == RelevantRows(rows[1..]);
      }
    }
  }

  /** Totals do not depend on the order of the rows. */
  lemma {:induction false} TotalOrderIndependent(a: seq<FixedCost>, b: seq<FixedCost>, alt: Alternative)
    requires multiset(a) == multiset(b)
    ensures Total(a, alt) == Total(b, alt)
    decreases |a|
  {
    if a == [] {
      assert |b| == |multiset(b)| == 0;
    } else {
      assert a[0] in multiset(b);
      var j :| 0 <= j < |b| && b[j] == a[0];
      var rest := b[..j] + b[j + 1..];
      RemoveOne(a, b, j);
      TotalOrderIndependent(a[1..], rest, alt);
      DeleteLowersTotal(b, j, alt);
    }
  }

  lemma RemoveOne(a: seq<FixedCost>, b: seq<FixedCost>, j: nat)
    requires multiset(a) == multiset(b) && a != [] && j < |b| && b[j] == a[0]
    ensures multiset(a[1..]) == multiset(b[..j] + b[j + 1..])
  {
    assert b == b[..j] + [b[j]] + b[j + 1..];
    assert multiset(b) == multiset(b[..j] + b[j + 1..]) + multiset{a[0]};
    assert a == [a[0]] + a[1..];
    assert multiset(a) == multiset{a[0]} + multiset(a[1..]);
    var m := multiset(b[..j] + b[j + 1..]);
    assert multiset(a[1..]) + multiset{a[0]} == m + multiset{a[0]};
    assert multiset(a[1..]) == (m + multiset{a[0]}) - multiset{a[0]} == m;
  }

  /** Adding a row adds its values to the totals. */
  lemma AddRaisesTotal(rows: seq<FixedCost>, c: FixedCost, alt: Alternative)
    ensures Total(rows + [c], alt) == Total(rows, alt) + Value(c, alt)
  {
    TotalAppend(rows, [c], alt);
  }

  /** Deleting row k takes its values off the totals. */
  lemma DeleteLowersTotal(rows: seq<FixedCost>, k: nat, alt: Alternative)
    requires k < |rows|
    ensures Total(rows[..k] + rows[k + 1..], alt) == Total(rows, alt) - Value(rows[k], alt)
  {
    assert rows == rows[..k] + [rows[k]] + rows[k + 1..];
    TotalAppend(rows[..k] + [rows[k]], rows[k + 1..], alt);
    TotalAppend(rows[..k], [rows[k]], alt);
    TotalAppend(rows[..k], rows[k + 1..], alt);
  }

  /** Rows that are the same for both alternatives do not change the
      difference of the totals: when every non-relevant row has equal values,
      the relevant rows alone give the same difference as all rows. */
  lemma {:induction false} IrrelevantRowsCancel(rows: seq<FixedCost>)
    requires forall i :: 0 <= i < |rows| && !rows[i].relevant ==> rows[i].value1 == rows[i].value2
    ensures Total(rows, Alt1) - Total(rows, Alt2)
         == Total(RelevantRows(rows), Alt1) - Total(RelevantRows(rows), Alt2)
  {
    if rows != [] {
      IrrelevantRowsCancel(rows[1..]);
      if rows[0].relevant {
        assert ([rows[0]] + RelevantRows(rows[1..]))[1..] == RelevantRows(rows[1..]);
      }
    }
  }

  /** Rows whose relevance is the derived one (nobody overrode the checkbox)
      are non-relevant only when both alternatives cost the same. */
  lemma {:induction false} DerivedRelevanceCancels(rows: seq<FixedCost>)
    requires forall i :: 0 <= i < |rows| ==> (rows[i].relevant <==> DerivedRelevance(rows[i]))
    ensures Total(rows, Alt1) - Total(rows, Alt2)
         == Total(RelevantRows(rows), Alt1) - Total(RelevantRows(rows), Alt2)
  {
    IrrelevantRowsCancel(rows);
  }

  /** The four totals of the summary. */
  datatype Totals = Totals(fixed1: nat, fixed2: nat, relevant1: nat, relevant2: nat)

  /** The cost data handed to the models (datos_costos): the rows and their totals. */
  datatype CostData = CostData(rows: seq<FixedCost>, totals: Totals)

  /** The fixed-cost summary; an empty list gives no data at all. */
  function Summarize(rows: seq<FixedCost>): (r: Option<CostData>)
    ensures r.None? <==> rows == []
    ensures r.Some? ==> r.value.rows == rows
    ensures r.Some? ==> (r.value.totals.fixed1 == Total(rows, Alt1) &&
                         r.value.totals.fixed2 == Total(rows, Alt2))
    ensures r.Some? ==> (r.value.totals.relevant1 == Total(RelevantRows(rows), Alt1) &&
                         r.value.totals.relevant2 == Total(RelevantRows(rows), Alt2))
    ensures r.Some? ==> (r.value.totals.relevant1 <= r.value.totals.fixed1 &&
                         r.value.totals.relevant2 <= r.value.totals.fixed2)
  {
    if rows == [] then None
    else
      RelevantTotalBounded(rows, Alt1);
      RelevantTotalBounded(rows, Alt2);
      Some(CostData(rows, Totals(Total(rows, Alt1), Total(rows, Alt2),
                                 Total(RelevantRows(rows), Alt1), Total(RelevantRows(rows), Alt2))))
  }
}
