/** What the record endpoints do to a payload: the PATCH merge of
    `api_update_record`, the single-cell write of `update_cell`, the `id`
    removal of `api_create_record` and the full replace of `edit_record`. */
module Payloads {
  import opened Values
  import opened Text

  /** `record.data.update(incoming)` after a non-object payload has been
      replaced by `{}`: a right-biased shallow union. */
  function MergePatch(existing: Value, incoming: map<string, Value>): (r: map<string, Value>)
    ensures r.Keys == AsObject(existing).Keys + incoming.Keys
    ensures forall k :: k in incoming ==> r[k] == incoming[k]
    ensures forall k :: k in AsObject(existing) && k !in incoming ==> r[k] == AsObject(existing)[k]
    ensures !existing.Object? ==> r == incoming
  {
    AsObject(existing) + incoming
  }

  /** Applying the same PATCH twice is applying it once. */
  lemma MergeIdempotent(existing: Value, incoming: map<string, Value>)
    ensures MergePatch(Object(MergePatch(existing, incoming)), incoming) == MergePatch(existing, incoming)
  {
    var once := MergePatch(existing, incoming);
    var twice := MergePatch(Object(once), incoming);
    assert twice.Keys == once.Keys;
    forall k | k in once ensures twice[k] == once[k] {
      if k in incoming { assert twice[k] == incoming[k]; }
    }
  }

  /** Two successive PATCHes are one PATCH with their right-biased union. */
  lemma MergeComposes(existing: Value, x: map<string, Value>, y: map<string, Value>)
    ensures MergePatch(Object(MergePatch(existing, x)), y) == MergePatch(existing, x + y)
  {
  }

  /** The worked example: `{a:1, b:2}` patched with `{b:3, c:4}`. */
  lemma MergeExample()
    ensures MergePatch(Object(map["a" := Num(1), "b" := Num(2)]), map["b" := Num(3), "c" := Num(4)])
            == map["a" := Num(1), "b" := Num(3), "c" := Num(4)]
  {
  }

  /** `record.data[column] = value` after a non-object payload has been
      replaced by `{}`. */
  function SetCell(existing: Value, column: string, value: Value): (r: map<string, Value>)
    ensures r.Keys == AsObject(existing).Keys + {column}
    ensures r[column] == value
    ensures forall k :: k in AsObject(existing) && k != column ==> r[k] == AsObject(existing)[k]
  {
    AsObject(existing)[column := value]
  }

  /** A cell write is the PATCH that carries that one cell. */
  lemma SetCellIsSingletonMerge(existing: Value, column: string, value: Value)
    ensures SetCell(existing, column, value) == MergePatch(existing, map[column := value])
  {
  }

  /** `fields.get(key, '').strip()`: `None` when the stored value is not a
      string, which raises in Python. */
  function StrippedField(fields: map<string, Value>, key: string): (r: Option<string>)
    ensures key !in fields ==> r == Some([])
    ensures key in fields && !fields[key].Str? ==> r.None?
    ensures key in fields && fields[key].Str? ==> r.Some? && StripsTo(fields[key].s, r.value)
    ensures r.Some? ==> (r.value == [] <==> key !in fields || AllSpace(fields[key].s))
  {
    if key !in fields then Some([])
    else match fields[key]
      case Str(s) => Some(Strip(s))
      case _ => None
  }

  /** What an `update_cell` body asks for. */
  datatype CellEdit =
    | Unreadable                            // the body is not an object, or its column is not a string
    | BlankColumn                           // the stripped column name is empty
    | SetTo(column: string, value: Value)

  /** Reads `column` (stripped) and `value` (default `''`) from a cell edit body. */
  function ReadCellEdit(body: Value): (e: CellEdit)
    ensures e.Unreadable? <==> !body.Object? || ("column" in body.fields && !body.fields["column"].Str?)
    ensures e.BlankColumn? <==>
              body.Object? && ("column" !in body.fields || (body.fields["column"].Str? && AllSpace(body.fields["column"].s)))
    ensures e.SetTo? ==> && "column" in body.fields
                         && StripsTo(body.fields["column"].s, e.column)
                         && e.column != []
                         && !IsSpace(e.column[0]) && !IsSpace(e.column[|e.column| - 1])
    ensures e.SetTo? ==> e.value == (if "value" in body.fields then body.fields["value"] else Str([]))
  {
    if !body.Object? then Unreadable
    else match StrippedField(body.fields, "column")
      case None => Unreadable
      case Some(column) =>
        if column == [] then BlankColumn
        else
          assert column == Strip(body.fields["column"].s);
          SetTo(column, if "value" in body.fields then body.fields["value"] else Str([]))
  }

  /** Python's `'id' in s` on a string: a substring test. */
  predicate ContainsId(s: string) {
    exists i :: 0 <= i < |s| - 1 && s[i] == 'i' && s[i + 1] == 'd'
  }

  /** The payload `api_create_record` stores for a decoded body, or `None`
      when `'id' in data` / `del data['id']` raises. */
  function CreatePayload(body: Value): (r: Option<Value>)
    ensures body.Object? ==> r.Some? && r.value.Object?
    ensures body.Object? ==> r.value.fields.Keys == body.fields.Keys - {"id"}
    ensures body.Object? ==> forall k :: k in r.value.fields ==> r.value.fields[k] == body.fields[k]
    ensures body.List? ==> (r.Some? <==> Str("id") !in body.items)
    ensures body.Str? ==> (r.Some? <==> !ContainsId(body.s))
    ensures r.Some? && !body.Object? ==> r.value == body
    ensures r.Some? ==> body.Object? || body.List? || body.Str?
  {
    match body
    case Object(fields) => Some(Object(map k | k in fields && k != "id" :: fields[k]))
    case List(items) => if Str("id") in items then None else Some(body)
    case Str(s) => if ContainsId(s) then None else Some(body)
    case _ => None
  }

  /** Creating never leaves an `id` key in an object payload. */
  lemma CreateDropsId(body: Value)
    requires body.Object?
    ensures "id" !in CreatePayload(body).value.fields
    ensures "id" !in body.fields ==> CreatePayload(body).value == body
  {
    if "id" !in body.fields {
      assert CreatePayload(body).value.fields == body.fields;
    }
  }

  /** A string body with no `id` in it is stored as it is: the endpoint
      expects an object but does not check for one. */
  lemma CreateKeepsPlainString()
    ensures CreatePayload(Str("abc")) == Some(Str("abc"))
  {
    assert !ContainsId("abc") by {
      forall i | 0 <= i < 2 ensures !("abc"[i] == 'i' && "abc"[i + 1] == 'd') {}
    }
  }

  /** The payload `api_update_record` stores, or `None` when `dict.update`
      raises on the decoded body. */
  function PatchPayload(existing: Value, body: Value): (r: Option<map<string, Value>>)
    ensures body.Object? ==> r == Some(MergePatch(existing, body.fields))
    ensures body == List([]) || body == Str([]) ==> r == Some(AsObject(existing))
    ensures r.Some? ==> body.Object? || body == List([]) || body == Str([])
  {
    match body
    case Object(fields) => Some(MergePatch(existing, fields))
    case List(items) => if items == [] then Some(AsObject(existing)) else None
    case Str(s) => if s == [] then Some(AsObject(existing)) else None
    case _ => None
  }
}
