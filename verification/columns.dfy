/** Column inference and row flattening for the record grid: the pure parts
    of `api_fetch_records` and of the column list `add_record` offers. */
module Columns {
  import opened Values
  import opened Text

  /** A record as the listing of a tab returns it: its id and its `data`. */
  datatype StoredRecord = StoredRecord(id: nat, data: Value)

  /** Keys of every object payload in `records`; other payloads add none. */
  function PayloadKeys(records: seq<StoredRecord>): set<string> {
    if records == [] then {}
    else PayloadKeys(records[..|records| - 1]) + AsObject(records[|records| - 1].data).Keys
  }

  /** A key is a column exactly when some object payload carries it. */
  lemma {:induction false} PayloadKeysMeaning(records: seq<StoredRecord>, k: string)
    ensures k in PayloadKeys(records) <==>
              exists i :: 0 <= i < |records| && records[i].data.Object? && k in records[i].data.fields
  {
    if records != [] {
      var init := records[..|records| - 1];
      PayloadKeysMeaning(init, k);
      if k in PayloadKeys(records) && k !in PayloadKeys(init) {
        assert records[|records| - 1].data.Object?;
      }
      if exists i :: 0 <= i < |records| && records[i].data.Object? && k in records[i].data.fields {
        var i :| 0 <= i < |records| && records[i].data.Object? && k in records[i].data.fields;
        if i < |init| { assert init[i] == records[i]; }
      }
    }
  }

  /** The sorted union of payload keys, the list `add_record` offers as
      columns; the choice of which key to insert next is free, as Python's
      set iteration order is. */
  method SortedKeyUnion(records: seq<StoredRecord>) returns (cols: seq<string>)
    ensures StrictlySorted(cols)
    ensures Elems(cols) == PayloadKeys(records)
  {
    cols := [];
    var i := 0;
    while i < |records|
      invariant 0 <= i <= |records|
      invariant StrictlySorted(cols)
      invariant Elems(cols) == PayloadKeys(records[..i])
    {
      assert records[..i + 1][..i] == records[..i];
      var keys := AsObject(records[i].data).Keys;
      while keys != {}
        invariant keys <= AsObject(records[i].data).Keys
        invariant StrictlySorted(cols)
        invariant Elems(cols) + keys == PayloadKeys(records[..i + 1])
        decreases keys
      {
        var k :| k in keys;
        cols := Insert(cols, k);
        keys := keys - {k};
      }
      i := i + 1;
    }
    assert records[..i] == records;
  }

  /** The columns the `add_record` form offers: the sorted payload keys, or
      two placeholder names when the tab has no object payload with a key. */
  method FormColumns(records: seq<StoredRecord>) returns (cols: seq<string>)
    ensures PayloadKeys(records) == {} ==> cols == ["Field 1", "Field 2"]
    ensures PayloadKeys(records) != {} ==> StrictlySorted(cols) && Elems(cols) == PayloadKeys(records)
  {
    cols := SortedKeyUnion(records);
    if cols == [] {
      cols := ["Field 1", "Field 2"];
    } else {
      assert cols[0] in Elems(cols);
    }
  }

  /** The `columns` answer of `api_fetch_records`: `id` and every payload key,
      sorted by code point, each once. */
  method FetchColumns(records: seq<StoredRecord>) returns (cols: seq<string>)
    ensures StrictlySorted(cols)
    ensures Elems(cols) == {"id"} + PayloadKeys(records)
    ensures exists i :: 0 <= i < |cols| && cols[i] == "id"
    ensures forall i, j :: 0 <= i < |cols| && 0 <= j < |cols| && cols[i] == "id" && cols[j] == "id" ==> i == j
    ensures records == [] ==> cols == ["id"]
  {
    var keys := SortedKeyUnion(records);
    cols := Insert(keys, "id");
    assert "id" in Elems(cols);
    forall i, j | 0 <= i < |cols| && 0 <= j < |cols| && cols[i] == "id" && cols[j] == "id"
      ensures i == j
    {
      SortedDistinct(cols, i, j);
    }
    if records == [] {
      SortedUnique(cols, ["id"]);
    }
  }

  /** Two listings of the same records, in any order, give the same columns. */
  lemma ColumnsIgnoreListingOrder(rs1: seq<StoredRecord>, rs2: seq<StoredRecord>, c1: seq<string>, c2: seq<string>)
    requires multiset(rs1) == multiset(rs2)
    requires StrictlySorted(c1) && Elems(c1) == {"id"} + PayloadKeys(rs1)
    requires StrictlySorted(c2) && Elems(c2) == {"id"} + PayloadKeys(rs2)
    ensures c1 == c2
  {
    forall k ensures k in PayloadKeys(rs1) <==> k in PayloadKeys(rs2) {
      PayloadKeysMeaning(rs1, k);
      PayloadKeysMeaning(rs2, k);
      if exists i :: 0 <= i < |rs1| && rs1[i].data.Object? && k in rs1[i].data.fields {
        var i :| 0 <= i < |rs1| && rs1[i].data.Object? && k in rs1[i].data.fields;
        assert rs1[i] in multiset(rs2);
        var j :| 0 <= j < |rs2| && rs2[j] == rs1[i];
      }
      if exists i :: 0 <= i < |rs2| && rs2[i].data.Object? && k in rs2[i].data.fields {
        var i :| 0 <= i < |rs2| && rs2[i].data.Object? && k in rs2[i].data.fields;
        assert rs2[i] in multiset(rs1);
        var j :| 0 <= j < |rs1| && rs1[j] == rs2[i];
      }
    }
    SortedUnique(c1, c2);
  }

  /** One grid row: `{"id": record.id}` updated with an object payload, or
      with the payload under `"data"` when it is not an object. */
  function FlattenRow(r: StoredRecord): (row: map<string, Value>)
    ensures "id" in row
    ensures r.data.Object? ==> row.Keys == {"id"} + r.data.fields.Keys
    ensures r.data.Object? ==> forall k :: k in r.data.fields ==> row[k] == r.data.fields[k]
    ensures "id" !in AsObject(r.data) ==> row["id"] == Num(r.id)
    ensures !r.data.Object? ==> row.Keys == {"id", "data"} && row["data"] == r.data
  {
    if r.data.Object? then map["id" := Num(r.id)] + r.data.fields
    else map["id" := Num(r.id), "data" := r.data]
  }

  /** The `data` answer of `api_fetch_records`: one row per record, in the
      listing's order. */
  function FetchRows(records: seq<StoredRecord>): (rows: seq<map<string, Value>>)
    ensures |rows| == |records|
    ensures forall i :: 0 <= i < |records| ==> rows[i] == FlattenRow(records[i])
  {
    seq(|records|, i requires 0 <= i < |records| => FlattenRow(records[i]))
  }

  /** Every key of a row built from an object payload is one of the columns. */
  lemma RowKeysAreColumns(records: seq<StoredRecord>, i: nat)
    requires i < |records| && records[i].data.Object?
    ensures FlattenRow(records[i]).Keys <= {"id"} + PayloadKeys(records)
  {
    forall k | k in records[i].data.fields ensures k in PayloadKeys(records) {
      PayloadKeysMeaning(records, k);
    }
  }

  /** A payload that is not an object shows up under a `"data"` key that the
      column list does not name, unless some object payload has that key. */
  lemma NonObjectRowHasUnlistedKey(records: seq<StoredRecord>, i: nat)
    requires i < |records| && !records[i].data.Object?
    requires forall j :: 0 <= j < |records| && records[j].data.Object? ==> "data" !in records[j].data.fields
    ensures "data" in FlattenRow(records[i])
    ensures "data" !in {"id"} + PayloadKeys(records)
  {
    PayloadKeysMeaning(records, "data");
  }
}
