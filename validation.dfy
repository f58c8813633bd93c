/**
 * `validate_data` (frontend/etl/transform_utils.py): a schema-only check on
 * the merged table. Only the shape of the table matters, so a table is
 * modelled by its column labels and its number of rows.
 */
module Validation {
  import opened Wrappers

  datatype Table = Table(columns: seq<string>, rowCount: nat)

  /** The columns every published table must have, in the order they are checked. */
  function RequiredColumns(): seq<string> {
    ["date", "iso3", "country"]
  }

  /** `df.empty`: one of the two axes has length zero. */
  predicate IsEmpty(t: Table) {
    t.rowCount == 0 || t.columns == []
  }

  /** The first of `required` that `columns` lacks: the one the check reports. */
  function FirstMissing(required: seq<string>, columns: seq<string>): (r: Option<string>)
    ensures r.None? <==> forall c :: c in required ==> c in columns
    ensures r.Some? ==> exists i :: (0 <= i < |required| && required[i] == r.value
      && r.value !in columns && forall j :: 0 <= j < i ==> required[j] in columns)
  {
    if required == [] then None
    else if required[0] !in columns then Some(required[0])
    else
      var r := FirstMissing(required[1..], columns);
      assert forall c :: c in required <==> c == required[0] || c in required[1..];
      if r.Some? then
        var i :| 0 <= i < |required[1..]| && required[1..][i] == r.value
          && r.value !in columns && forall j :: 0 <= j < i ==> required[1..][j] in columns;
        assert required[i + 1] == r.value;
        r
      else r
  }

  /**
   * False for an empty table and for a table without one of the required
   * columns; true otherwise, whatever else the table holds.
   */
  function ValidateData(t: Table): (ok: bool)
    ensures ok <==> (t.rowCount > 0 && t.columns != []
      && "date" in t.columns && "iso3" in t.columns && "country" in t.columns)
  {
    !IsEmpty(t) && FirstMissing(RequiredColumns(), t.columns).None?
  }

  /** The three tables of the validation tests. */
  lemma ValidationExamples(rows: nat)
    requires rows > 0
    ensures ValidateData(Table(["date", "iso3", "country", "confirmed_cases"], rows))
    ensures !ValidateData(Table([], 0))
    ensures FirstMissing(RequiredColumns(), ["date", "country"]) == Some("iso3")
    ensures !ValidateData(Table(["date", "country"], rows))
  {
    assert "iso3" !in ["date", "country"];
  }
}
