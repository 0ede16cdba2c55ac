/** Shape checks on incoming payloads, shared by table construction. */
module Validation {

  import opened Json
  import opened Errors

  /** The error a single required string field produces, or nothing when it is a string. */
  function FieldFailure(value: Value, field: string): Errors.Result<()> {
    if Index(value, field).JNull? then Err(MissingFields(field + " field is missing or null"))
    else if !Index(value, field).JStr? then Err(BadInput(field + " field must be a string"))
    else Ok(())
  }

  /** `check_string_fields_exist`: walks `fields` in order and stops at the first one that
      is absent or null (MissingFields) or present but not a string (BadInput). */
  function CheckStringFieldsExist(value: Value, fields: seq<string>): (r: Errors.Result<()>)
    ensures r.Ok? <==> forall i :: 0 <= i < |fields| ==> Index(value, fields[i]).JStr?
    ensures r.Err? ==> exists i :: 0 <= i < |fields| && FirstFailing(value, fields, i)
                                   && r == FieldFailure(value, fields[i])
  {
    if fields == [] then Ok(())
    else if FieldFailure(value, fields[0]).Err? then FieldFailure(value, fields[0])
    else
      FirstFailingShifts(value, fields);
      CheckStringFieldsExist(value, fields[1..])
  }

  /** Field `i` is the first listed field that is not a JSON string. */
  ghost predicate FirstFailing(value: Value, fields: seq<string>, i: int)
    requires 0 <= i < |fields|
  {
    !Index(value, fields[i]).JStr? && forall j :: 0 <= j < i ==> Index(value, fields[j]).JStr?
  }

  /** Past a leading string field, the first failure of the tail is the first failure overall. */
  lemma FirstFailingShifts(value: Value, fields: seq<string>)
    requires fields != [] && Index(value, fields[0]).JStr?
    ensures forall i :: 0 <= i < |fields| - 1 && FirstFailing(value, fields[1..], i) ==>
              FirstFailing(value, fields, i + 1) && fields[1..][i] == fields[i + 1]
  {
    forall i | 0 <= i < |fields| - 1 && FirstFailing(value, fields[1..], i)
      ensures FirstFailing(value, fields, i + 1)
    {
      forall j | 0 <= j < i + 1 ensures Index(value, fields[j]).JStr? {
        if j > 0 { assert fields[j] == fields[1..][j - 1]; }
      }
    }
  }

  /** A value that is not an object fails on the first listed field, as missing. */
  lemma NonObjectMissesFirstField(value: Value, fields: seq<string>)
    requires !value.JObj? && fields != []
    ensures CheckStringFieldsExist(value, fields) == Err(MissingFields(fields[0] + " field is missing or null"))
  {
  }

  /** `check_key_fields_exist`, which table construction calls but the source does not define:
      each listed field must be present (MissingFields otherwise), must be an object (BadInput
      otherwise) and must carry string `name` and `datatype` fields. */
  function CheckKeyFieldsExist(value: Value, fields: seq<string>): (r: Errors.Result<()>)
    ensures r.Ok? <==> forall i :: 0 <= i < |fields| ==> KeyDescriptorShaped(Index(value, fields[i]))
  {
    if fields == [] then Ok(())
    else
      var desc := Index(value, fields[0]);
      if desc.JNull? then Err(MissingFields(fields[0] + " field is missing or null"))
      else if !desc.JObj? then Err(BadInput(fields[0] + " field must be an object"))
      else
        var parts := ["name", "datatype"];
        assert parts[0] == "name" && parts[1] == "datatype";
        match CheckStringFieldsExist(desc, parts)
        case Err(e) => Err(e)
        case Ok(_) =>
          var rest := CheckKeyFieldsExist(value, fields[1..]);
          assert forall i :: 1 <= i < |fields| ==> fields[i] == fields[1..][i - 1];
          rest
  }

  /** A key descriptor `{name, datatype}` with both parts strings. */
  predicate KeyDescriptorShaped(desc: Value) {
    desc.JObj? && Index(desc, "name").JStr? && Index(desc, "datatype").JStr?
  }
}
