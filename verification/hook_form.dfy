/** The database-backed form hook: the session row is fetched once, the
    entered password is cached in storage under `session_auth_<id>` so that a
    reload stays unlocked, the tick clears that cache at expiry, and an
    accepted contact becomes one insert whose failure is classified. */
module ContactFormHook {
  import opened Common
  import opened Records
  import Countdown

  datatype HookState = HookState(
    sessionId: string,
    session: Option<RemoteSession>,
    expired: bool,
    passwordRequired: bool,
    authenticated: bool,
    submitted: bool,
    fields: FormInput)

  function Initial(sessionId: string): HookState {
    HookState(sessionId, None, false, false, false, false, EmptyForm)
  }

  /** `fetchSessionData`: nothing without a session id; no session on a fetch
      error or a missing row; otherwise expired when `expires_at < now`,
      locked when the password column is truthy, and unlocked at once when the
      cache holds exactly that password. */
  function Fetch(sessionId: string, fetched: Fetched, now: int, cache: Storage): (st: HookState)
    ensures st.sessionId == sessionId && !st.submitted && st.fields == EmptyForm
    ensures st.session.Some? <==> sessionId != "" && fetched.Row?
    ensures st.session.None? ==> st == Initial(sessionId)
    ensures st.session.Some? ==>
      var s := fetched.row;
      && st.session == Some(s)
      && (st.expired <==> Countdown.IsPast(s.expiresAt, now))
      && (st.passwordRequired <==> Truthy(s.sessionPassword))
      && (st.authenticated <==> !Truthy(s.sessionPassword) || StoredEquals(cache, AuthKey(sessionId), s.sessionPassword.value))
  {
    if sessionId == "" then Initial(sessionId)
    else
      match fetched
      case FetchFailed(_) => Initial(sessionId)
      case NoRow => Initial(sessionId)
      case Row(s) =>
        var expired := s.expiresAt < now;
        if Truthy(s.sessionPassword) then
          var cached := AuthKey(sessionId) in cache && cache[AuthKey(sessionId)] == s.sessionPassword.value;
          Initial(sessionId).(session := Some(s), expired := expired, passwordRequired := true, authenticated := cached)
        else
          Initial(sessionId).(session := Some(s), expired := expired, authenticated := true)
  }

  /** One timer tick. While a session is shown and open it marks the session
      expired once `expiresAt - now <= 0`, removing the cached password of this
      session id whether or not the session has a password. */
  function Tick(st: HookState, now: int, cache: Storage): (r: (HookState, Storage))
    ensures r.0.expired <==> st.expired || (st.session.Some? && Countdown.TickExpired(st.session.value.expiresAt, now))
    ensures r.0 == st.(expired := r.0.expired)
    ensures r.0.expired && !st.expired ==> AuthKey(st.sessionId) !in r.1
    ensures forall k :: k != AuthKey(st.sessionId) ==> (k in r.1 <==> k in cache) && (k in r.1 ==> r.1[k] == cache[k])
    ensures r.0.expired == st.expired ==> r.1 == cache
  {
    if st.session.None? || st.expired then (st, cache)
    else if st.session.value.expiresAt - now <= 0 then
      (st.(expired := true), RemoveItem(cache, AuthKey(st.sessionId)))
    else (st, cache)
  }

  /** `handlePasswordSubmit`: an exact match unlocks and caches exactly the
      entered text; a mismatch changes nothing. */
  function SubmitPassword(st: HookState, entered: string, cache: Storage): (r: (HookState, Storage))
    ensures var ok := st.session.Some? && st.session.value.sessionPassword == Some(entered);
      && (ok ==> r.0 == st.(authenticated := true) && r.1 == cache[AuthKey(st.sessionId) := entered])
      && (!ok ==> r == (st, cache))
  {
    if st.session.Some? && st.session.value.sessionPassword == Some(entered) then
      (st.(authenticated := true), cache[AuthKey(st.sessionId) := entered])
    else (st, cache)
  }

  predicate Locked(st: HookState) {
    st.passwordRequired && !st.authenticated
  }

  predicate GuardsPass(st: HookState, validPhone: string -> bool) {
    && !AllWhitespace(st.fields.name)
    && st.fields.phone != ""
    && validPhone(st.fields.phone)
    && !st.expired
    && !Locked(st)
  }

  datatype Outcome =
    | Rejected(reason: Rejection)
      /** every guard passed but no session row is loaded: reading its prefix
          throws before anything is inserted */
    | NoSession
    | Inserted(record: ContactRecord)
    | ContactExists
    | SubmissionError(message: string)

  datatype Submission = Submission(outcome: Outcome, attempted: Option<ContactRecord>, state: HookState)

  /** The inserted row: the prefix rule for the name, the phone as entered,
      email and company trimmed with "" becoming null, the submission time. */
  function BuildRecord(st: HookState, now: int): (c: ContactRecord)
    requires st.session.Some?
    ensures c.sessionId == st.sessionId
    ensures c.name == Text(st.session.value.contactNamePrefix) + st.fields.name
    ensures c.phone == st.fields.phone
    ensures c.email.None? <==> AllWhitespace(st.fields.email)
    ensures c.email.Some? ==> c.email.value == Trim(st.fields.email)
    ensures c.company.None? <==> AllWhitespace(st.fields.company)
    ensures c.company.Some? ==> c.company.value == Trim(st.fields.company)
    ensures c.submittedAt == now
  {
    ContactRecord(st.sessionId, PrefixedName(st.session.value.contactNamePrefix, st.fields.name),
                  st.fields.phone, TrimOrNull(st.fields.email), TrimOrNull(st.fields.company), now)
  }

  /** The answer of the insert: 23505 reports an existing contact, any other
      error passes its message through, and only success marks the form
      submitted and clears it. */
  function Settle(st: HookState, record: ContactRecord, insert: StoreResult): (r: Submission)
    ensures r.attempted == Some(record)
    ensures insert.Ok? <==> r.outcome == Inserted(record)
    ensures insert.Err? && insert.code == UniqueViolation <==> r.outcome == ContactExists
    ensures insert.Err? && insert.code != UniqueViolation ==> r.outcome == SubmissionError(insert.message)
    ensures r.outcome.SubmissionError? ==> insert.Err? && insert.code != UniqueViolation
    ensures r.outcome.Inserted? ==> r.state == st.(submitted := true, fields := EmptyForm)
    ensures !r.outcome.Inserted? ==> r.state == st
  {
    match ClassifyInsert(insert)
    case Saved => Submission(Inserted(record), Some(record), st.(submitted := true, fields := EmptyForm))
    case Duplicate => Submission(ContactExists, Some(record), st)
    case Failed(message) => Submission(SubmissionError(message), Some(record), st)
  }

  /** `handleSubmit`: the four guards in order, all before any insert; then one
      insert of the built record, settled by `Settle`. */
  function Submit(st: HookState, now: int, validPhone: string -> bool, insert: StoreResult): (r: Submission)
    ensures AllWhitespace(st.fields.name) || st.fields.phone == "" ==> r.outcome == Rejected(MissingInformation)
    ensures !AllWhitespace(st.fields.name) && st.fields.phone != "" && !validPhone(st.fields.phone) ==>
      r.outcome == Rejected(InvalidPhone)
    ensures !AllWhitespace(st.fields.name) && st.fields.phone != "" && validPhone(st.fields.phone) && st.expired ==>
      r.outcome == Rejected(SessionExpired)
    ensures !AllWhitespace(st.fields.name) && st.fields.phone != "" && validPhone(st.fields.phone) && !st.expired && Locked(st) ==>
      r.outcome == Rejected(PasswordRequired)
    ensures r.outcome.Rejected? <==> !GuardsPass(st, validPhone)
    ensures r.outcome == NoSession <==> GuardsPass(st, validPhone) && st.session.None?
    ensures r.attempted.Some? <==> GuardsPass(st, validPhone) && st.session.Some?
    ensures r.attempted.None? ==> r.state == st
  {
    var rejection := SubmitRejection(st.fields, validPhone, st.expired, Locked(st));
    if rejection.Some? then
      Submission(Rejected(rejection.value), None, st)
    else
      assert GuardsPass(st, validPhone);
      if st.session.None? then Submission(NoSession, None, st)
      else Settle(st, BuildRecord(st, now), insert)
  }

  /** Once every guard passes on a loaded session, the submission is exactly
      the insert of the built record: the record reaches the store unchanged
      and the store's answer alone decides the outcome. */
  lemma AcceptedSubmitInsertsRecord(st: HookState, now: int, validPhone: string -> bool, insert: StoreResult)
    requires GuardsPass(st, validPhone) && st.session.Some?
    ensures var r := Submit(st, now, validPhone, insert);
      && r == Settle(st, BuildRecord(st, now), insert)
      && r.attempted == Some(BuildRecord(st, now))
  {
    TrimEmptyIffBlank(st.fields.name);
  }

  /** The cache makes an unlock survive a reload: after a successful unlock, a
      fresh fetch of the same row with the updated cache starts unlocked. */
  lemma UnlockSurvivesReload(sessionId: string, s: RemoteSession, now: int, later: int, cache: Storage, entered: string)
    requires sessionId != ""
    requires s.sessionPassword == Some(entered)
    ensures var st := Fetch(sessionId, Row(s), now, cache);
      var unlocked := SubmitPassword(st, entered, cache);
      && unlocked.0.authenticated
      && Fetch(sessionId, Row(s), later, unlocked.1).authenticated
  {
  }

  /** A wrong password leaves the session locked and the cache untouched, so a
      reload is locked too (unless the cache already held the password). */
  lemma WrongPasswordStaysLocked(sessionId: string, s: RemoteSession, now: int, cache: Storage, entered: string)
    requires sessionId != "" && Truthy(s.sessionPassword)
    requires entered != s.sessionPassword.value
    requires AuthKey(sessionId) !in cache
    ensures var st := Fetch(sessionId, Row(s), now, cache);
      var after := SubmitPassword(st, entered, cache);
      && !after.0.authenticated
      && after.1 == cache
      && !Fetch(sessionId, Row(s), now, after.1).authenticated
  {
  }

  /** Reaching expiry revokes the cached unlock: once the tick has expired
      the session, reloading the form finds it locked again. */
  lemma ExpiryRevokesCachedUnlock(st: HookState, now: int, cache: Storage, s: RemoteSession, later: int)
    requires st.session == Some(s) && !st.expired && st.sessionId != ""
    requires Truthy(s.sessionPassword)
    requires Countdown.TickExpired(s.expiresAt, now)
    ensures var ticked := Tick(st, now, cache);
      ticked.0.expired && !Fetch(st.sessionId, Row(s), later, ticked.1).authenticated
  {
  }
}
