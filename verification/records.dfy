/** The records the application stores. Timestamps are milliseconds since the
    epoch; date strings of the database rows are read as those integers. */
module Records {
  import opened Common

  /** A contact kept inside a locally stored session: the form's text fields
      spread into the record, so email and company are strings, "" when blank. */
  datatype LocalContact = LocalContact(
    name: string,
    phone: string,
    email: string,
    company: string,
    submittedAt: int)

  /** A session kept in the browser's storage under `session_<id>`. */
  datatype LocalSession = LocalSession(
    id: string,
    name: string,
    duration: int,
    createdAt: int,
    expiresAt: int,
    contactNamePrefix: string,
    whatsAppLink: string,
    sessionPassword: string,
    contacts: seq<LocalContact>)

  /** A row of the `sessions` table. Nullable columns are options. */
  datatype RemoteSession = RemoteSession(
    id: string,
    name: string,
    createdAt: int,
    expiresAt: int,
    contactNamePrefix: Option<string>,
    whatsappLink: Option<string>,
    sessionPassword: Option<string>,
    userId: string)

  /** A row inserted into the `contacts` table. */
  datatype ContactRecord = ContactRecord(
    sessionId: string,
    name: string,
    phone: string,
    email: Option<string>,
    company: Option<string>,
    submittedAt: int)

  /** A row of the `global_contacts` table. */
  datatype GlobalContact = GlobalContact(
    name: string,
    phone: string,
    email: Option<string>,
    company: Option<string>)

  /** What a lookup of one session row returned. */
  datatype Fetched = FetchFailed(message: string) | NoRow | Row(row: RemoteSession)

  /** Phone numbers of a contact list are pairwise distinct. */
  predicate DistinctPhones(cs: seq<LocalContact>) {
    forall i, j :: 0 <= i < j < |cs| ==> cs[i].phone != cs[j].phone
  }

  /** Some contact of the list has exactly this phone string. */
  predicate HasPhone(cs: seq<LocalContact>, phone: string) {
    exists i :: 0 <= i < |cs| && cs[i].phone == phone
  }
}
