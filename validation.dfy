/** `validate_json`: the outcome of `jsonschema.validate` turned into an
    `(is_valid, error_message)` pair. The validator itself is a parameter:
    it returns normally when the document conforms and raises otherwise. */
module Validation {
  import opened PyRuntime

  /** Only a ValidationError is turned into a result; any other exception
      the validator raises (a SchemaError for a malformed schema, say)
      leaves `validate_json` unhandled. */
  function ValidateJson<J>(validate: (J, J) -> Py<()>, doc: J, schema: J): (r: Py<(bool, string)>)
    ensures validate(doc, schema).Ok? ==> r == Ok((true, ""))
    ensures validate(doc, schema).Raise? && IsInstance(validate(doc, schema).exc, ValidationError) ==>
      r == Ok((false, validate(doc, schema).exc.message))
    ensures r.Raise? <==> validate(doc, schema).Raise? && !IsInstance(validate(doc, schema).exc, ValidationError)
    ensures r.Raise? ==> r.exc == validate(doc, schema).exc
    ensures r.Ok? ==> (r.value.0 <==> validate(doc, schema).Ok?)
  {
    match validate(doc, schema)
    case Ok(_) => Ok((true, ""))
    case Raise(e) =>
      if IsInstance(e, ValidationError) then Ok((false, e.message)) else Raise(e)
  }

  /** When the validator's messages are never empty (a ValidationError's
      text always names the failed constraint), the flag is true exactly
      when the message is empty. */
  lemma ValidIffEmptyMessage<J>(validate: (J, J) -> Py<()>, doc: J, schema: J)
    requires validate(doc, schema).Raise? ==> validate(doc, schema).exc.message != ""
    requires ValidateJson(validate, doc, schema).Ok?
    ensures ValidateJson(validate, doc, schema).value.0 <==> ValidateJson(validate, doc, schema).value.1 == ""
  {
  }
}
