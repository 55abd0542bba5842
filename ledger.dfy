/**
 * The session's fixed-cost list (st.session_state.costos_fijos) and one run
 * of the fixed-cost form over it: seed on first use, the edit pass, the add
 * form, the summary and "Borrar todos".
 */
module Ledger {
  import opened Wrappers
  import opened FixedCosts

  class CostLedger {
    /** Whether the session already holds the list. */
    var seeded: bool
    /** The stored rows, in display order. */
    var rows: seq<FixedCost>

    ghost predicate Valid()
      reads this
    {
      (!seeded ==> rows == []) &&
      forall i :: 0 <= i < |rows| ==> WellFormed(rows[i])
    }

    /** A fresh session: no list yet. */
    constructor ()
      ensures Valid() && !seeded && rows == []
    {
      seeded := false;
      rows := [];
    }

    /** On first use, the list is created and the four default rows are
        appended one by one; later runs keep the list as it is. */
    method Seed()
      requires Valid()
      modifies this
      ensures Valid() && seeded
      ensures old(seeded) ==> rows == old(rows)
      ensures !old(seeded) ==> rows == DefaultRows()
    {
      if !seeded {
        rows := [];
        var i := 0;
        while i < |DefaultNames|
          invariant 0 <= i <= |DefaultNames|
          invariant rows == DefaultRows()[..i]
        {
          rows := rows + [Blank(DefaultNames[i])];
          i := i + 1;
        }
        seeded := true;
      }
    }

    /** The edit pass: one snapshot per stored row; the list is rebuilt in
        order from the snapshots, leaving out the rows whose "Eliminar" was
        pressed, and replaces the stored list. */
    method EditPass(edits: seq<RowEdit>)
      requires Valid() && seeded
      requires |edits| == |rows| && ValidEdits(edits)
      modifies this
      ensures Valid() && seeded
      ensures rows == Rebuild(edits)
    {
      var updated: seq<FixedCost> := [];
      var i := 0;
      while i < |edits|
        invariant 0 <= i <= |edits|
        invariant updated == Rebuild(edits[..i])
      {
        assert edits[..i + 1][..i] == edits[..i];
        if edits[i].delete {
          i := i + 1;
          continue;
        }
        updated := updated + [ApplyEdit(edits[i])];
        i := i + 1;
      }
      assert edits[..i] == edits;
      rows := updated;
    }

    /** "Agregar costo fijo": appends exactly one derived row when a name was
        given; with an empty name the list is left unchanged. */
    method Add(n: NewCost) returns (added: bool)
      requires Valid() && seeded && n.pct <= 100
      modifies this
      ensures Valid() && seeded
      ensures added <==> n.name != []
      ensures rows == if added then old(rows) + [NewRow(n)] else old(rows)
    {
      added := n.name != [];
      if added {
        rows := rows + [NewRow(n)];
      }
    }

    /** "Borrar todos los costos fijos": the list becomes empty (it still exists). */
    method Clear()
      requires Valid() && seeded
      modifies this
      ensures Valid() && seeded && rows == []
    {
      rows := [];
    }
  }

  /** How one run of the fixed-cost form ends: a button press restarts the
      run, an empty list yields no data, otherwise the summary is returned. */
  datatype PassOutcome = Rerun | NoFixedCosts | Costs(data: CostData)

  /** The rows the edit pass sees: the stored list, or the seeded one on first use. */
  function RowsShown(seeded: bool, rows: seq<FixedCost>): seq<FixedCost> {
    if seeded then rows else DefaultRows()
  }

  /** One run of the fixed-cost form. A successful add or a clear restarts the
      run before anything is returned; an add with an empty name only warns. */
  method FixedCostsPass(ledger: CostLedger, edits: seq<RowEdit>, add: Option<NewCost>, clearPressed: bool)
    returns (out: PassOutcome)
    requires ledger.Valid()
    requires |edits| == |RowsShown(ledger.seeded, ledger.rows)| && ValidEdits(edits)
    requires add.Some? ==> add.value.pct <= 100
    modifies ledger
    ensures ledger.Valid() && ledger.seeded
    ensures add.Some? && add.value.name != [] ==>
              out == Rerun && ledger.rows == Rebuild(edits) + [NewRow(add.value)]
    ensures (add.None? || add.value.name == []) && Rebuild(edits) == [] ==>
              out == NoFixedCosts && ledger.rows == []
    ensures (add.None? || add.value.name == []) && Rebuild(edits) != [] && clearPressed ==>
              out == Rerun && ledger.rows == []
    ensures (add.None? || add.value.name == []) && Rebuild(edits) != [] && !clearPressed ==>
              out == Costs(Summarize(Rebuild(edits)).value) && ledger.rows == Rebuild(edits)
  {
    ledger.Seed();
    ledger.EditPass(edits);
    if add.Some? {
      var added := ledger.Add(add.value);
      if added {
        return Rerun;
      }
    }
    var summary := Summarize(ledger.rows);
    if summary.None? {
      return NoFixedCosts;
    }
    if clearPressed {
      ledger.Clear();
      return Rerun;
    }
    return Costs(summary.value);
  }
}
