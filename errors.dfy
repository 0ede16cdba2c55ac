/** The three error kinds every storage operation reports through, and their rendering. */
module Errors {

  import opened Wrappers

  datatype DbError =
    | MissingFields(detail: string)
    | TableNotFound(detail: string)
    | BadInput(detail: string)

  /** The `Result<T, DbError>` of the Rust code. */
  datatype Result<T> = Ok(value: T) | Err(error: DbError)

  const MissingFieldsPrefix: string := "Missing Fields! "
  const TableNotFoundPrefix: string := "Table Not Found! "
  const BadInputPrefix: string := "Bad Input! "

  /** The fixed text that introduces an error of `e`'s kind. */
  function Prefix(e: DbError): string {
    match e
    case MissingFields(_) => MissingFieldsPrefix
    case TableNotFound(_) => TableNotFoundPrefix
    case BadInput(_) => BadInputPrefix
  }

  /** `DbError::message`: the kind's prefix, then the detail text. */
  function Message(e: DbError): (r: string)
    ensures |r| == |Prefix(e)| + |e.detail|
    ensures r[..|Prefix(e)|] == Prefix(e) && r[|Prefix(e)|..] == e.detail
  {
    Prefix(e) + e.detail
  }

  /** Recovers an error from its rendering: the inverse of `Message`. */
  function ParseMessage(s: string): (r: Option<DbError>)
    ensures r.Some? ==> Message(r.value) == s
  {
    if |MissingFieldsPrefix| <= |s| && s[..|MissingFieldsPrefix|] == MissingFieldsPrefix then
      Some(MissingFields(s[|MissingFieldsPrefix|..]))
    else if |TableNotFoundPrefix| <= |s| && s[..|TableNotFoundPrefix|] == TableNotFoundPrefix then
      Some(TableNotFound(s[|TableNotFoundPrefix|..]))
    else if |BadInputPrefix| <= |s| && s[..|BadInputPrefix|] == BadInputPrefix then
      Some(BadInput(s[|BadInputPrefix|..]))
    else
      None
  }

  /** `Display for DbError`: the rendering determines the error, kind and detail. */
  function Display(e: DbError): (r: string)
    ensures ParseMessage(r) == Some(e)
  {
    MessageParses(e);
    Message(e)
  }

  /** `Debug for DbError` prints exactly what `Display` prints. */
  function Debug(e: DbError): (r: string)
    ensures r == Display(e)
  {
    Message(e)
  }

  /** Parsing a rendered error gives the error back. */
  lemma MessageParses(e: DbError)
    ensures ParseMessage(Message(e)) == Some(e)
  {
    var m := Message(e);
    match e
    case MissingFields(d) =>
    case TableNotFound(d) =>
      assert m[0] == 'T';
      assert MissingFieldsPrefix[0] == 'M';
    case BadInput(d) =>
      assert m[0] == 'B';
      assert MissingFieldsPrefix[0] == 'M' && TableNotFoundPrefix[0] == 'T';
  }

  /** Two errors that render alike are the same error: the kind is recoverable from the text. */
  lemma MessageInjective(e1: DbError, e2: DbError)
    requires Message(e1) == Message(e2)
    ensures e1 == e2
  {
    MessageParses(e1);
    MessageParses(e2);
  }
}
