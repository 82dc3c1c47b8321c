/** The field form of the routed variant: its own guards (name and phone,
    then phone validity, then expiry; no password check, since the parent shows
    it only to unlocked visitors), then a hand-off to the parent. */
module ContactFormFields {
  import opened Common

  datatype FieldsResult = FieldsRejected(reason: Rejection) | Forwarded(data: FormInput)

  /** `handleSubmit`: calls the parent with the form data and phone exactly
      when the three checks pass, in this order. */
  function HandleSubmit(fields: FormInput, isExpired: bool, validPhone: string -> bool): (r: FieldsResult)
    ensures AllWhitespace(fields.name) || fields.phone == "" ==> r == FieldsRejected(MissingInformation)
    ensures !AllWhitespace(fields.name) && fields.phone != "" && !validPhone(fields.phone) ==>
      r == FieldsRejected(InvalidPhone)
    ensures !AllWhitespace(fields.name) && fields.phone != "" && validPhone(fields.phone) && isExpired ==>
      r == FieldsRejected(SessionExpired)
    ensures r.Forwarded? <==>
      !AllWhitespace(fields.name) && fields.phone != "" && validPhone(fields.phone) && !isExpired
    ensures r.Forwarded? ==> r.data == fields
  {
    match FieldRejection(fields, validPhone)
    case Some(reason) => FieldsRejected(reason)
    case None => if isExpired then FieldsRejected(SessionExpired) else Forwarded(fields)
  }

  /** The fields after a submit: cleared once the parent's promise resolves,
      which it does after a store error too, because the parent returns
      instead of throwing; kept as typed after a refusal. */
  function FieldsAfter(fields: FormInput, r: FieldsResult): (f: FormInput)
    ensures r.Forwarded? ==> f == EmptyForm
    ensures r.FieldsRejected? ==> f == fields
  {
    if r.Forwarded? then EmptyForm else fields
  }
}
