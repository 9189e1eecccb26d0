/** Regenerating a ledger without losing its reviewed metadata. */
module Ledger {
  import opened Outcomes
  import opened Json

  type Row = map<string, Json>

  /** A ledger document: its name, its rows, and every other key. */
  datatype Document = Document(ledger: Json, rows: seq<Row>, fields: map<string, Json>)

  datatype LedgerError = WrongLedger | MissingId | DuplicateId | Lossy

  /** The other keys of a document that are always generated. */
  const STRUCTURAL: set<string> :=
    {"schema_version", "java_source_revision", "java_reference_identity", "regeneration", "coverage", "row_count"}

  // ---- rows by identifier ----------------------------------------------------------------------------

  predicate HasId(row: Row) { "id" in row && row["id"].Str? && row["id"].s != "" }

  predicate AllHaveIds(rows: seq<Row>) { forall i :: 0 <= i < |rows| ==> HasId(rows[i]) }

  function IdOf(row: Row): string { if HasId(row) then row["id"].s else "" }

  predicate Indexable(rows: seq<Row>)
  {
    AllHaveIds(rows) && forall i, j :: 0 <= i < j < |rows| ==> IdOf(rows[i]) != IdOf(rows[j])
  }

  function Ids(rows: seq<Row>): set<string> { set i | 0 <= i < |rows| :: IdOf(rows[i]) }

  /** `rows_by_id`: a missing identifier is reported at once, repeated ones after the whole pass. */
  method RowsById(rows: seq<Row>) returns (r: Result<map<string, Row>, LedgerError>)
    ensures r.Ok? <==> Indexable(rows)
    ensures r == Err(MissingId) <==> !AllHaveIds(rows)
    ensures r.Err? ==> r.error == MissingId || r.error == DuplicateId
    ensures r.Ok? ==> r.value.Keys == Ids(rows)
    ensures r.Ok? ==> forall i :: 0 <= i < |rows| ==> IdOf(rows[i]) in r.value && r.value[IdOf(rows[i])] == rows[i]
  {
    var indexed: map<string, Row> := map[];
    var duplicates: seq<string> := [];
    var k := 0;
    while k < |rows|
      invariant 0 <= k <= |rows|
      invariant AllHaveIds(rows[..k])
      invariant indexed.Keys == Ids(rows[..k])
      invariant duplicates == [] <==> Indexable(rows[..k])
      invariant duplicates == [] ==> forall i :: 0 <= i < k ==> IdOf(rows[i]) in indexed && indexed[IdOf(rows[i])] == rows[i]
    {
      var row := rows[k];
      if !HasId(row) {
        return Err(MissingId);
      }
      OneMore(rows, k);
      if IdOf(row) in indexed {
        duplicates := duplicates + [IdOf(row)];
      }
      indexed := indexed[IdOf(row) := row];
      k := k + 1;
    }
    assert rows[..k] == rows;
    if duplicates != [] {
      return Err(DuplicateId);
    }
    return Ok(indexed);
  }

  lemma {:induction false} OneMore(rows: seq<Row>, k: nat)
    requires k < |rows| && HasId(rows[k]) && AllHaveIds(rows[..k])
    ensures AllHaveIds(rows[..k + 1])
    ensures Ids(rows[..k + 1]) == Ids(rows[..k]) + {IdOf(rows[k])}
    ensures Indexable(rows[..k + 1]) <==> Indexable(rows[..k]) && IdOf(rows[k]) !in Ids(rows[..k])
  {
    var low, high := rows[..k], rows[..k + 1];
    assert high == low + [rows[k]];
    assert high[k] == rows[k];
    forall x | x in Ids(low) ensures x in Ids(high) {
      var i :| 0 <= i < |low| && IdOf(low[i]) == x;
      assert high[i] == low[i];
    }
    if Indexable(high) {
      forall i, j | 0 <= i < j < k ensures IdOf(low[i]) != IdOf(low[j]) { assert low[i] == high[i] && low[j] == high[j]; }
      forall i | 0 <= i < k ensures IdOf(low[i]) != IdOf(rows[k]) { assert low[i] == high[i]; }
    }
  }

  // ---- merging ---------------------------------------------------------------------------------------

  /** Reviewed values win, except for structural keys. */
  function Overlay(generated: Row, reviewed: Row, structural: set<string>): Row
  {
    map k | k in generated.Keys + (reviewed.Keys - structural) ::
      if k in reviewed && k !in structural then reviewed[k] else generated[k]
  }

  /** The row with this identifier. */
  function RowOf(rows: seq<Row>, id: string): (row: Row)
    requires id in Ids(rows)
    ensures row in rows && IdOf(row) == id
  {
    if IdOf(rows[0]) == id then rows[0] else assert id in Ids(rows[1..]) by { NotFirst(rows, id); } RowOf(rows[1..], id)
  }

  lemma {:induction false} NotFirst(rows: seq<Row>, id: string)
    requires id in Ids(rows) && rows != [] && IdOf(rows[0]) != id
    ensures id in Ids(rows[1..])
  {
    var i :| 0 <= i < |rows| && IdOf(rows[i]) == id;
    assert rows[1..][i - 1] == rows[i];
  }

  lemma {:induction false} RowOfUnique(rows: seq<Row>, i: nat)
    requires Indexable(rows) && i < |rows|
    ensures IdOf(rows[i]) in Ids(rows) && RowOf(rows, IdOf(rows[i])) == rows[i]
  {
    var row := RowOf(rows, IdOf(rows[i]));
    var j :| 0 <= j < |rows| && rows[j] == row;
  }

  /** What a merge needs. */
  predicate Mergeable(reviewed: Document, generated: Document)
  {
    && reviewed.ledger == generated.ledger
    && Indexable(reviewed.rows) && Indexable(generated.rows)
    && Ids(reviewed.rows) == Ids(generated.rows)
  }

  function MergedRow(reviewed: seq<Row>, row: Row, structural: set<string>): Row
    requires IdOf(row) in Ids(reviewed)
  {
    Overlay(row, RowOf(reviewed, IdOf(row)), structural)
  }

  function Merged(reviewed: Document, generated: Document, structural: set<string>): Document
    requires Mergeable(reviewed, generated)
  {
    Document(generated.ledger,
             seq(|generated.rows|, i requires 0 <= i < |generated.rows| => MergedRow(reviewed.rows, generated.rows[i], structural)),
             Overlay(generated.fields, reviewed.fields, STRUCTURAL))
  }

  /** The assignments of one reviewed dictionary into a generated one, key by key. */
  method AssignReviewed(generated: Row, reviewed: Row, structural: set<string>) returns (row: Row)
    ensures row == Overlay(generated, reviewed, structural)
  {
    row := generated;
    var todo := reviewed.Keys;
    while todo != {}
      invariant todo <= reviewed.Keys
      invariant row.Keys == generated.Keys + (reviewed.Keys - todo - structural)
      invariant forall k :: k in row ==>
                  row[k] == if k in reviewed && k !in todo && k !in structural then reviewed[k] else generated[k]
      decreases |todo|
    {
      var key :| key in todo;
      if key !in structural {
        row := row[key := reviewed[key]];
      }
      todo := todo - {key};
    }
    assert row.Keys == Overlay(generated, reviewed, structural).Keys;
  }

  /** `preserve_reviewed_metadata`. */
  method PreserveReviewed(reviewed: Document, generated: Document, structural: set<string>)
    returns (r: Result<Document, LedgerError>)
    ensures r.Ok? <==> Mergeable(reviewed, generated)
    ensures r.Ok? ==> r.value == Merged(reviewed, generated, structural)
    ensures r == Err(WrongLedger) <==> reviewed.ledger != generated.ledger
    ensures r == Err(Lossy) <==>
              && reviewed.ledger == generated.ledger && Indexable(reviewed.rows) && Indexable(generated.rows)
              && Ids(reviewed.rows) != Ids(generated.rows)
  {
    hide Overlay, Indexable, AllHaveIds, RowOf, Ids;
    if reviewed.ledger != generated.ledger {
      return Err(WrongLedger);
    }
    var oldRows := RowsById(reviewed.rows);
    if oldRows.Err? {
      return Err(oldRows.error);
    }
    var newRows := RowsById(generated.rows);
    if newRows.Err? {
      return Err(newRows.error);
    }
    if oldRows.value.Keys != newRows.value.Keys {
      return Err(Lossy);
    }
    var rows := generated.rows;
    var k := 0;
    while k < |rows|
      invariant 0 <= k <= |rows| == |generated.rows|
      invariant forall i :: 0 <= i < k ==> rows[i] == Merged(reviewed, generated, structural).rows[i]
      invariant forall i :: k <= i < |rows| ==> rows[i] == generated.rows[i]
    {
      LookUp(reviewed.rows, generated.rows, k, oldRows.value);
      var row := AssignReviewed(rows[k], oldRows.value[IdOf(rows[k])], structural);
      rows := rows[k := row];
      k := k + 1;
    }
    var fields := AssignReviewed(generated.fields, reviewed.fields, STRUCTURAL);
    assert rows == Merged(reviewed, generated, structural).rows;
    return Ok(Document(generated.ledger, rows, fields));
  }

  lemma {:induction false} LookUp(reviewed: seq<Row>, generated: seq<Row>, k: nat, indexed: map<string, Row>)
    requires k < |generated| && Indexable(reviewed) && Ids(reviewed) == Ids(generated) && indexed.Keys == Ids(reviewed)
    requires forall i :: 0 <= i < |reviewed| ==> IdOf(reviewed[i]) in indexed && indexed[IdOf(reviewed[i])] == reviewed[i]
    ensures IdOf(generated[k]) in indexed && indexed[IdOf(generated[k])] == RowOf(reviewed, IdOf(generated[k]))
  {
    var id := IdOf(generated[k]);
    assert id in Ids(generated);
    var row := RowOf(reviewed, id);
    var j :| 0 <= j < |reviewed| && reviewed[j] == row;
  }

  // ---- what a merge keeps ------------------------------------------------------------------------------

  lemma {:induction false} OverlayKeepsId(generated: Row, reviewed: Row, structural: set<string>)
    requires HasId(generated) && HasId(reviewed) && IdOf(generated) == IdOf(reviewed)
    ensures HasId(Overlay(generated, reviewed, structural)) && IdOf(Overlay(generated, reviewed, structural)) == IdOf(generated)
  {
  }

  /** Generated order and structural keys stay; every other reviewed key is taken over. */
  lemma {:induction false} MergeKeeps(reviewed: Document, generated: Document, structural: set<string>, i: nat)
    requires Mergeable(reviewed, generated) && i < |generated.rows|
    ensures var out := Merged(reviewed, generated, structural);
            && |out.rows| == |generated.rows| && out.ledger == generated.ledger
            && IdOf(generated.rows[i]) in Ids(reviewed.rows)
            && var prior := RowOf(reviewed.rows, IdOf(generated.rows[i]));
            && HasId(out.rows[i]) && IdOf(out.rows[i]) == IdOf(generated.rows[i])
            && (forall k :: k in structural ==>
                  (k in out.rows[i] <==> k in generated.rows[i]) && (k in out.rows[i] ==> out.rows[i][k] == generated.rows[i][k]))
            && (forall k :: k in prior && k !in structural ==> k in out.rows[i] && out.rows[i][k] == prior[k])
            && (forall k :: k in out.rows[i] && k !in structural && k !in prior ==>
                  k in generated.rows[i] && out.rows[i][k] == generated.rows[i][k])
  {
    var id := IdOf(generated.rows[i]);
    assert id in Ids(generated.rows);
    RowOfHasId(reviewed.rows, id);
    OverlayKeepsId(generated.rows[i], RowOf(reviewed.rows, id), structural);
  }

  /**
    The document's own fields: the structural ones are the generated ones, of the others every
    reviewed one is taken over, and nothing else appears.
   */
  lemma {:induction false} MergeKeepsFields(reviewed: Document, generated: Document, structural: set<string>, key: string)
    requires Mergeable(reviewed, generated)
    ensures var out := Merged(reviewed, generated, structural).fields;
            var fixed := key in {"schema_version", "java_source_revision", "java_reference_identity", "regeneration", "coverage", "row_count"};
            && (key in out <==> key in generated.fields || (key in reviewed.fields && !fixed))
            && (key in out && fixed ==> out[key] == generated.fields[key])
            && (key in out && !fixed && key in reviewed.fields ==> out[key] == reviewed.fields[key])
            && (key in out && key !in reviewed.fields ==> out[key] == generated.fields[key])
  {
    hide Mergeable, MergedRow;
  }

  lemma {:induction false} RowOfHasId(rows: seq<Row>, id: string)
    requires Indexable(rows) && id in Ids(rows)
    ensures HasId(RowOf(rows, id))
  {
    var row := RowOf(rows, id);
    var j :| 0 <= j < |rows| && rows[j] == row;
  }

  lemma {:induction false} MergedIdentifiers(reviewed: Document, generated: Document, structural: set<string>)
    requires Mergeable(reviewed, generated)
    ensures Indexable(Merged(reviewed, generated, structural).rows)
    ensures Ids(Merged(reviewed, generated, structural).rows) == Ids(generated.rows)
  {
    hide RowOf, Overlay;
    var out := Merged(reviewed, generated, structural);
    forall i | 0 <= i < |generated.rows|
      ensures HasId(out.rows[i]) && IdOf(out.rows[i]) == IdOf(generated.rows[i])
    {
      MergeKeeps(reviewed, generated, structural, i);
    }
  }

  lemma {:induction false} OverlayAgain(generated: Row, reviewed: Row, structural: set<string>)
    ensures Overlay(generated, Overlay(generated, reviewed, structural), structural) == Overlay(generated, reviewed, structural)
  {
    var once := Overlay(generated, reviewed, structural);
    assert Overlay(generated, once, structural).Keys == once.Keys;
  }

  /** Once merged, the ledger is its own reviewed ledger: regenerating again changes nothing. */
  lemma {:induction false} MergeIsFixedPoint(reviewed: Document, generated: Document, structural: set<string>)
    requires Mergeable(reviewed, generated)
    ensures var out := Merged(reviewed, generated, structural);
            Mergeable(out, generated) && Merged(out, generated, structural) == out
  {
    hide RowOf, Overlay, Ids, Indexable;
    var out := Merged(reviewed, generated, structural);
    MergedIdentifiers(reviewed, generated, structural);
    forall i | 0 <= i < |generated.rows|
      ensures Merged(out, generated, structural).rows[i] == out.rows[i]
    {
      MergeKeeps(reviewed, generated, structural, i);
      RowOfUnique(out.rows, i);
      OverlayAgain(generated.rows[i], RowOf(reviewed.rows, IdOf(generated.rows[i])), structural);
    }
    assert Merged(out, generated, structural).rows == out.rows;
    OverlayAgain(generated.fields, reviewed.fields, STRUCTURAL);
  }

  /** The order of the reviewed rows is immaterial. */
  lemma {:induction false} ReviewedOrderIsForgotten(reviewed: Document, other: Document, generated: Document, structural: set<string>)
    requires Mergeable(reviewed, generated) && other.ledger == reviewed.ledger && other.fields == reviewed.fields
    requires Indexable(other.rows) && (forall row :: row in other.rows <==> row in reviewed.rows)
    ensures Mergeable(other, generated) && Merged(other, generated, structural) == Merged(reviewed, generated, structural)
  {
    hide RowOf, Overlay;
    SameRowsSameIds(reviewed.rows, other.rows);
    forall i | 0 <= i < |generated.rows|
      ensures MergedRow(other.rows, generated.rows[i], structural) == MergedRow(reviewed.rows, generated.rows[i], structural)
    {
      var id := IdOf(generated.rows[i]);
      assert id in Ids(generated.rows);
      var row := RowOf(reviewed.rows, id);
      var j :| 0 <= j < |other.rows| && other.rows[j] == row;
      RowOfUnique(other.rows, j);
    }
    assert Merged(other, generated, structural).rows == Merged(reviewed, generated, structural).rows;
  }

  lemma {:induction false} SameRowsSameIds(a: seq<Row>, b: seq<Row>)
    requires forall row :: row in a <==> row in b
    ensures Ids(a) == Ids(b)
  {
    forall x | x in Ids(a) ensures x in Ids(b) {
      var i :| 0 <= i < |a| && IdOf(a[i]) == x;
      assert a[i] in b;
    }
    forall x | x in Ids(b) ensures x in Ids(a) {
      var i :| 0 <= i < |b| && IdOf(b[i]) == x;
      assert b[i] in a;
    }
  }
}
