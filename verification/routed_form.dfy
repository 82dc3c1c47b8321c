/** The routed submission page: it loads the session row (with a loading
    state), re-derives expiry on every tick, shows the password form or the
    field form, and inserts an accepted contact with untrimmed optional
    fields. */
module RoutedContactForm {
  import opened Common
  import opened Records
  import Countdown
  import ContactFormFields
  import ContactFormPassword

  datatype RoutedState = RoutedState(
    loading: bool,
    session: Option<RemoteSession>,
    expired: bool,
    passwordRequired: bool,
    authenticated: bool,
    submitting: bool,
    submitted: bool)

  const Initial: RoutedState := RoutedState(true, None, false, false, false, false, false)

  /** `fetchSessionDetails` from the initial state: loading always ends; no
      session for a missing id, a fetch error or a missing row; otherwise
      locked exactly when the password column is non-empty, and authenticated
      at once when it is not. Expiry is left to the first tick. */
  function Load(sessionId: string, fetched: Fetched): (st: RoutedState)
    ensures !st.loading && !st.expired && !st.submitting && !st.submitted
    ensures st.session.Some? <==> sessionId != "" && fetched.Row?
    ensures st.session.Some? ==>
      && st.session.value == fetched.row
      && (st.passwordRequired <==> Truthy(fetched.row.sessionPassword))
      && (st.authenticated <==> !Truthy(fetched.row.sessionPassword))
    ensures st.session.None? ==> !st.passwordRequired && !st.authenticated
  {
    if sessionId == "" then Initial.(loading := false)
    else
      match fetched
      case Row(s) =>
        if Truthy(s.sessionPassword) then Initial.(loading := false, session := Some(s), passwordRequired := true)
        else Initial.(loading := false, session := Some(s), authenticated := true)
      case _ => Initial.(loading := false)
  }

  /** `calculateTimeRemaining`, run on every tick once loaded: expiry is
      recomputed as `isPast(expires_at)` each time, so it can also turn back
      to false. */
  function Tick(st: RoutedState, now: int): (st': RoutedState)
    ensures st.session.Some? && !st.loading ==>
      st' == st.(expired := Countdown.IsPast(st.session.value.expiresAt, now))
    ensures st.session.None? || st.loading ==> st' == st
  {
    if st.session.None? || st.loading then st
    else st.(expired := st.session.value.expiresAt < now)
  }

  /** Which screen the page shows. */
  datatype View = Loading | InvalidSession | Success | PasswordGate | Fields

  /** Screen precedence: loading, then a missing session, then the success
      screen, then the password form for a locked session, else the fields. */
  function ViewOf(st: RoutedState): (v: View)
    ensures v == Loading <==> st.loading
    ensures v == InvalidSession <==> !st.loading && st.session.None?
    ensures v == Success <==> !st.loading && st.session.Some? && st.submitted
    ensures v == PasswordGate <==>
      !st.loading && st.session.Some? && !st.submitted && st.passwordRequired && !st.authenticated
    ensures v == Fields ==> st.session.Some? && !(st.passwordRequired && !st.authenticated)
  {
    if st.loading then Loading
    else if st.session.None? then InvalidSession
    else if st.submitted then Success
    else if st.passwordRequired && !st.authenticated then PasswordGate
    else Fields
  }

  /** A page opened without a session id, or whose row cannot be fetched,
      shows the invalid-session screen and never the expired form. */
  lemma NoSessionShowsInvalid(sessionId: string, fetched: Fetched, now: int)
    requires sessionId == "" || !fetched.Row?
    ensures ViewOf(Load(sessionId, fetched)) == InvalidSession
    ensures ViewOf(Tick(Load(sessionId, fetched), now)) == InvalidSession
    ensures !Tick(Load(sessionId, fetched), now).expired
  {
  }

  /** The password form's unlock, reported to the page. */
  function SubmitPassword(st: RoutedState, entered: string): (st': RoutedState)
    requires st.session.Some?
    ensures st'.authenticated <==> st.authenticated || st.session.value.sessionPassword == Some(entered)
    ensures st' == st.(authenticated := st'.authenticated)
  {
    if ContactFormPassword.HandleSubmit(entered, st.session.value.sessionPassword).granted then
      st.(authenticated := true)
    else st
  }

  /** A run of password attempts, one after the other. */
  function Attempts(st: RoutedState, attempts: seq<string>): RoutedState
    requires st.session.Some?
    decreases |attempts|
  {
    if attempts == [] then st else Attempts(SubmitPassword(st, attempts[0]), attempts[1..])
  }

  /** There is no attempt counter: a run of attempts unlocks exactly when one
      of them is the password, however many wrong ones come first. */
  lemma {:induction false} AttemptsUnlockIffOneMatches(st: RoutedState, attempts: seq<string>)
    requires st.session.Some?
    ensures Attempts(st, attempts).session == st.session
    ensures Attempts(st, attempts).authenticated <==>
      st.authenticated || exists i :: 0 <= i < |attempts| && st.session.value.sessionPassword == Some(attempts[i])
    decreases |attempts|
  {
    if attempts != [] {
      var next := SubmitPassword(st, attempts[0]);
      AttemptsUnlockIffOneMatches(next, attempts[1..]);
      var pw := st.session.value.sessionPassword;
      if exists i :: 0 <= i < |attempts[1..]| && pw == Some(attempts[1..][i]) {
        var i :| 0 <= i < |attempts[1..]| && pw == Some(attempts[1..][i]);
        assert attempts[i + 1] == attempts[1..][i];
      }
      if exists i :: 0 <= i < |attempts| && pw == Some(attempts[i]) {
        var i :| 0 <= i < |attempts| && pw == Some(attempts[i]);
        if i > 0 {
          assert attempts[1..][i - 1] == attempts[i];
        }
      }
    }
  }

  datatype Outcome =
    | Rejected(reason: Rejection)
    | Inserted(record: ContactRecord)
    | ContactExists
    | SaveError(message: string)

  const DefaultSaveError: string := "Could not save contact to database."

  /** The row `handleContactSubmit` inserts: the prefix rule for the name, the
      phone as passed, email and company kept as typed with "" becoming null
      (no trimming here). */
  function BuildRecord(s: RemoteSession, data: FormInput, now: int): (c: ContactRecord)
    ensures c.sessionId == s.id
    ensures c.name == Text(s.contactNamePrefix) + data.name
    ensures c.phone == data.phone
    ensures c.email.None? <==> data.email == ""
    ensures c.email.Some? ==> c.email.value == data.email
    ensures c.company.None? <==> data.company == ""
    ensures c.company.Some? ==> c.company.value == data.company
    ensures c.submittedAt == now
  {
    ContactRecord(s.id, PrefixedName(s.contactNamePrefix, data.name), data.phone,
                  OrNull(data.email), OrNull(data.company), now)
  }

  /** `handleContactSubmit`: one insert; 23505 reports an existing contact,
      another error shows its message (or a fixed text when it has none), and
      only success marks the page submitted. Submitting ends either way. */
  function HandleContactSubmit(st: RoutedState, data: FormInput, now: int, insert: StoreResult)
    : (r: (RoutedState, Outcome))
    requires st.session.Some?
    ensures insert.Ok? <==> r.1 == Inserted(BuildRecord(st.session.value, data, now))
    ensures insert.Err? && insert.code == UniqueViolation <==> r.1 == ContactExists
    ensures insert.Err? && insert.code != UniqueViolation ==>
      r.1 == SaveError(if insert.message == "" then DefaultSaveError else insert.message)
    ensures r.0 == st.(submitting := false, submitted := st.submitted || insert.Ok?)
  {
    var record := BuildRecord(st.session.value, data, now);
    match ClassifyInsert(insert)
    case Saved => (st.(submitting := false, submitted := true), Inserted(record))
    case Duplicate => (st.(submitting := false), ContactExists)
    case Failed(message) =>
      (st.(submitting := false), SaveError(if message == "" then DefaultSaveError else message))
  }

  datatype Submission = Submission(outcome: Outcome, state: RoutedState, fields: FormInput)

  /** A submission from the field form, which is on screen only in the
      `Fields` view: the field form's three guards, then the page's insert.
      The fields clear whenever the insert was attempted, even when it
      failed. */
  function Submit(st: RoutedState, fields: FormInput, now: int, validPhone: string -> bool, insert: StoreResult)
    : (r: Submission)
    requires ViewOf(st) == Fields
    ensures r.outcome.Rejected? <==>
      AllWhitespace(fields.name) || fields.phone == "" || !validPhone(fields.phone) || st.expired
    ensures r.outcome.Rejected? ==> r.state == st && r.fields == fields
    ensures !r.outcome.Rejected? ==>
      && r.fields == EmptyForm
      && r == (var h := HandleContactSubmit(st, fields, now, insert); Submission(h.1, h.0, EmptyForm))
  {
    var handed := ContactFormFields.HandleSubmit(fields, st.expired, validPhone);
    match handed
    case FieldsRejected(reason) => Submission(Rejected(reason), st, fields)
    case Forwarded(data) =>
      var h := HandleContactSubmit(st, data, now, insert);
      Submission(h.1, h.0, ContactFormFields.FieldsAfter(fields, handed))
  }

  /** A stored contact leads to the success screen; a refused or failed one
      leaves the page on the field form. */
  lemma SuccessScreenOnlyAfterInsert(st: RoutedState, fields: FormInput, now: int, validPhone: string -> bool, insert: StoreResult)
    requires ViewOf(st) == Fields
    ensures var r := Submit(st, fields, now, validPhone, insert);
      (ViewOf(r.state) == Success <==> r.outcome.Inserted?)
      && (!r.outcome.Inserted? ==> ViewOf(r.state) == Fields)
  {
  }

  /** Expiry is not sticky here: a session found expired on one tick is shown
      as open again on a tick whose clock reads earlier. */
  lemma ExpiryIsRederived(st: RoutedState, now: int, earlier: int)
    requires st.session.Some? && !st.loading
    requires earlier <= st.session.value.expiresAt < now
    ensures Tick(st, now).expired
    ensures !Tick(Tick(st, now), earlier).expired
  {
  }
}
