/** Adding a contact to the shared `global_contacts` table by hand: the two
    field guards, a record with a trimmed name and trimmed optional fields,
    and the mapping of the database's answer. */
module GlobalContacts {
  import opened Common
  import opened Records

  const FailedPrefix: string := "Failed to add contact. "

  datatype AddOutcome =
    | Rejected(reason: Rejection)
    | Added(contact: GlobalContact)
    | DuplicateContact
    | AddFailed(message: string)

  /** The outcome, the record that was sent (if any) and the form afterwards. */
  datatype Adding = Adding(outcome: AddOutcome, sent: Option<GlobalContact>, form: FormInput)

  /** The row `handleAddContact` inserts: the name trimmed, the phone as
      entered, email and company trimmed with "" becoming null. */
  function GlobalRecord(input: FormInput): (c: GlobalContact)
    ensures c.name == Trim(input.name)
    ensures c.phone == input.phone
    ensures c.email.None? <==> AllWhitespace(input.email)
    ensures c.email.Some? ==> c.email.value == Trim(input.email)
    ensures c.company.None? <==> AllWhitespace(input.company)
    ensures c.company.Some? ==> c.company.value == Trim(input.company)
  {
    GlobalContact(Trim(input.name), input.phone, TrimOrNull(input.email), TrimOrNull(input.company))
  }

  /** `handleAddContact`: a blank name or empty phone, then an invalid phone,
      are refused before anything is sent; otherwise one insert, where 23505
      reports a duplicate and another error is reported with its message after
      a fixed prefix. Only success clears the form. */
  function AddContact(input: FormInput, validPhone: string -> bool, insert: StoreResult): (r: Adding)
    ensures r.outcome == Rejected(MissingInformation) <==> AllWhitespace(input.name) || input.phone == ""
    ensures r.outcome == Rejected(InvalidPhone) <==>
      !AllWhitespace(input.name) && input.phone != "" && !validPhone(input.phone)
    ensures r.outcome.Rejected? <==> r.sent.None?
    ensures r.sent.Some? ==> r.sent.value == GlobalRecord(input)
    ensures r.sent.Some? ==>
      && (insert.Ok? <==> r.outcome == Added(GlobalRecord(input)))
      && (insert.Err? && insert.code == UniqueViolation <==> r.outcome == DuplicateContact)
      && (insert.Err? && insert.code != UniqueViolation ==> r.outcome == AddFailed(FailedPrefix + insert.message))
    ensures r.outcome.Added? <==> r.form == EmptyForm && r.sent.Some? && insert.Ok?
    ensures !r.outcome.Added? ==> r.form == input
  {
    match FieldRejection(input, validPhone)
    case Some(reason) => Adding(Rejected(reason), None, input)
    case None =>
      var record := GlobalRecord(input);
      match ClassifyInsert(insert)
      case Saved => Adding(Added(record), Some(record), EmptyForm)
      case Duplicate => Adding(DuplicateContact, Some(record), input)
      case Failed(message) => Adding(AddFailed(FailedPrefix + message), Some(record), input)
  }

  /** The stored name never carries surrounding blanks and is never empty: an
      accepted name has a non-blank character, and trimming keeps it. */
  lemma StoredNameIsTrimmedAndNonEmpty(input: FormInput, validPhone: string -> bool, insert: StoreResult)
    requires !AllWhitespace(input.name) && input.phone != "" && validPhone(input.phone)
    ensures AddContact(input, validPhone, insert).sent.Some?
    ensures var c := AddContact(input, validPhone, insert).sent.value;
      && c.name != ""
      && !IsWhitespace(c.name[0]) && !IsWhitespace(c.name[|c.name| - 1])
      && c.phone != ""
  {
    var r := AddContact(input, validPhone, insert);
    assert r.sent.value == GlobalRecord(input);
    assert !AllWhitespace(input.name) && input.phone != "";
    TrimEmptyIffBlank(input.name);
  }

  /** A refused or failed add can be retried as typed: the form keeps every
      field, and retrying after a fix of the store sends the same record. */
  lemma FailedAddKeepsForm(input: FormInput, validPhone: string -> bool, first: StoreResult, second: StoreResult)
    requires first.Err?
    requires !AllWhitespace(input.name) && input.phone != "" && validPhone(input.phone)
    ensures var retry := AddContact(AddContact(input, validPhone, first).form, validPhone, second);
      retry.sent == AddContact(input, validPhone, first).sent
  {
  }
}
