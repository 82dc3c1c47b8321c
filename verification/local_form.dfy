/** The submission form of the browser-storage variant: the session is read
    from storage when the form mounts, a timer marks it expired, an optional
    password unlocks it, and an accepted contact is appended to the stored
    session's list unless its phone is already there. */
module LocalContactForm {
  import opened Common
  import opened Records
  import Countdown
  import SessionCreator

  datatype FormState = FormState(
    session: Option<LocalSession>,
    expired: bool,
    passwordRequired: bool,
    authenticated: bool,
    submitted: bool,
    fields: FormInput)

  const Initial: FormState := FormState(None, false, false, false, false, EmptyForm)

  /** The mount effect: the session found in storage (if any), expired when
      `now > expiresAt`, and locked when it has a non-empty password; a session
      without one is authenticated at once. */
  function Load(stored: Option<LocalSession>, now: int): (st: FormState)
    ensures st.session == stored
    ensures stored.None? ==> st == Initial
    ensures stored.Some? ==>
      && (st.expired <==> Countdown.LoadExpired(stored.value.expiresAt, now))
      && (st.passwordRequired <==> stored.value.sessionPassword != "")
      && (st.authenticated <==> stored.value.sessionPassword == "")
    ensures !st.submitted && st.fields == EmptyForm
  {
    match stored
    case None => Initial
    case Some(s) =>
      var required := s.sessionPassword != "";
      Initial.(session := stored, expired := now > s.expiresAt,
               passwordRequired := required, authenticated := !required)
  }

  /** One timer tick: it runs only while a session is shown and not yet
      expired, and marks the session expired once `expiresAt - now <= 0`.
      This variant never clears a cached password and never un-expires. */
  function Tick(st: FormState, now: int): (st': FormState)
    ensures st'.expired <==> st.expired || (st.session.Some? && Countdown.TickExpired(st.session.value.expiresAt, now))
    ensures st' == st.(expired := st'.expired)
  {
    if st.session.None? || st.expired then st
    else if st.session.value.expiresAt - now <= 0 then st.(expired := true)
    else st
  }

  /** The password form: the session unlocks exactly when the entered text
      equals the session password, character for character. */
  function SubmitPassword(st: FormState, entered: string): (st': FormState)
    ensures st'.authenticated <==> st.authenticated || (st.session.Some? && entered == st.session.value.sessionPassword)
    ensures st' == st.(authenticated := st'.authenticated)
  {
    if st.session.Some? && entered == st.session.value.sessionPassword then st.(authenticated := true)
    else st
  }

  predicate Locked(st: FormState) {
    st.passwordRequired && !st.authenticated
  }

  /** Every guard passes: a non-blank name, a valid phone, an open and
      unlocked session. */
  predicate GuardsPass(st: FormState, validPhone: string -> bool) {
    && !AllWhitespace(st.fields.name)
    && st.fields.phone != ""
    && validPhone(st.fields.phone)
    && !st.expired
    && !Locked(st)
  }

  datatype Outcome =
    | Rejected(reason: Rejection)
    | ContactExists
    | Added(contact: LocalContact)
      /** the session vanished from storage after the form loaded: nothing is
          stored, yet the form reports success */
    | SavedNowhere

  datatype Submission = Submission(outcome: Outcome, stored: Option<LocalSession>, state: FormState)

  /** The contact an accepted submission appends. */
  function NewContact(st: FormState, now: int): (c: LocalContact)
    requires st.session.Some?
    ensures c.name == st.session.value.contactNamePrefix + st.fields.name
    ensures c.phone == st.fields.phone && c.email == st.fields.email && c.company == st.fields.company
    ensures c.submittedAt == now
  {
    LocalContact(PrefixedName(Some(st.session.value.contactNamePrefix), st.fields.name),
                 st.fields.phone, st.fields.email, st.fields.company, now)
  }

  /** `handleSubmit`: the guards in order (missing name or phone, invalid
      phone, expired, locked), then a duplicate check against the session as
      stored now, then an append. The form is shown only once a session has
      loaded, hence the precondition. */
  function Submit(st: FormState, stored: Option<LocalSession>, now: int, validPhone: string -> bool): (r: Submission)
    requires st.session.Some?
    ensures AllWhitespace(st.fields.name) || st.fields.phone == "" ==> r.outcome == Rejected(MissingInformation)
    ensures !AllWhitespace(st.fields.name) && st.fields.phone != "" && !validPhone(st.fields.phone) ==>
      r.outcome == Rejected(InvalidPhone)
    ensures !AllWhitespace(st.fields.name) && st.fields.phone != "" && validPhone(st.fields.phone) && st.expired ==>
      r.outcome == Rejected(SessionExpired)
    ensures !AllWhitespace(st.fields.name) && st.fields.phone != "" && validPhone(st.fields.phone) && !st.expired && Locked(st) ==>
      r.outcome == Rejected(PasswordRequired)
    ensures r.outcome.Rejected? <==> !GuardsPass(st, validPhone)
    ensures r.outcome == ContactExists <==>
      GuardsPass(st, validPhone) && stored.Some? && HasPhone(stored.value.contacts, st.fields.phone)
    ensures r.outcome.Rejected? || r.outcome == ContactExists ==> r.stored == stored && r.state == st
    ensures r.outcome.Added? ==>
      && stored.Some?
      && r.stored == Some(stored.value.(contacts := stored.value.contacts + [r.outcome.contact]))
      && r.outcome.contact == NewContact(st, now)
    ensures r.outcome == SavedNowhere ==> stored.None? && r.stored == stored
    ensures r.outcome.Added? || r.outcome == SavedNowhere ==>
      r.state == st.(submitted := true, fields := EmptyForm)
  {
    var rejection := SubmitRejection(st.fields, validPhone, st.expired, Locked(st));
    if rejection.Some? then Submission(Rejected(rejection.value), stored, st)
    else
      match stored
      case None => Submission(SavedNowhere, stored, st.(submitted := true, fields := EmptyForm))
      case Some(s) =>
        if exists i :: 0 <= i < |s.contacts| && s.contacts[i].phone == st.fields.phone then
          Submission(ContactExists, stored, st)
        else
          var c := NewContact(st, now);
          Submission(Added(c), Some(s.(contacts := s.contacts + [c])), st.(submitted := true, fields := EmptyForm))
  }

  /** Phones of the stored list stay pairwise distinct across any submission. */
  lemma SubmitKeepsPhonesDistinct(st: FormState, stored: Option<LocalSession>, now: int, validPhone: string -> bool)
    requires st.session.Some?
    requires stored.Some? && DistinctPhones(stored.value.contacts)
    ensures Submit(st, stored, now, validPhone).stored.Some?
    ensures DistinctPhones(Submit(st, stored, now, validPhone).stored.value.contacts)
  {
    var r := Submit(st, stored, now, validPhone);
    if r.outcome.Added? {
      var old_ := stored.value.contacts;
      var new_ := r.stored.value.contacts;
      assert new_ == old_ + [r.outcome.contact];
      forall i, j | 0 <= i < j < |new_|
        ensures new_[i].phone != new_[j].phone
      {
        if j == |old_| {
          assert new_[i] == old_[i];
          assert !HasPhone(old_, st.fields.phone);
        } else {
          assert new_[i] == old_[i] && new_[j] == old_[j];
        }
      }
    }
  }

  /** Earlier contacts are never touched: the stored list after a submission
      starts with the list before it, and grows by at most one. */
  lemma SubmitOnlyAppends(st: FormState, stored: Option<LocalSession>, now: int, validPhone: string -> bool)
    requires st.session.Some?
    requires stored.Some?
    ensures var after := Submit(st, stored, now, validPhone).stored;
      && after.Some?
      && stored.value.contacts <= after.value.contacts
      && |after.value.contacts| <= |stored.value.contacts| + 1
      && after.value == stored.value.(contacts := after.value.contacts)
  {
  }

  /** Submitting the same phone twice stores exactly one contact with it, and
      the second attempt is reported as an existing contact. */
  lemma SubmitTwiceStoresOnce(st: FormState, stored: Option<LocalSession>, now: int, later: int, validPhone: string -> bool)
    requires st.session.Some? && stored.Some?
    requires GuardsPass(st, validPhone) && !HasPhone(stored.value.contacts, st.fields.phone)
    ensures Submit(st, stored, now, validPhone).outcome.Added?
    ensures var first := Submit(st, stored, now, validPhone);
      var second := Submit(first.state.(fields := st.fields, submitted := false), first.stored, later, validPhone);
      && second.outcome == ContactExists
      && second.stored == first.stored
      && HasPhone(first.stored.value.contacts, st.fields.phone)
      && !HasPhone(stored.value.contacts, st.fields.phone)
  {
    var first := Submit(st, stored, now, validPhone);
    var cs := first.stored.value.contacts;
    assert cs[|cs| - 1].phone == st.fields.phone;
  }

  /** A password of spaces only is trimmed away at creation, so the session is
      open to every submitter as soon as the form loads. */
  lemma BlankPasswordIsNoPassword(form: SessionCreator.CreateForm, id: string, t1: int, t2: int, now: int)
    requires AllWhitespace(form.sessionPassword)
    requires !AllWhitespace(form.sessionName) && form.duration.Entered?
    ensures var st := Load(Some(SessionCreator.Create(form, id, t1, t2).session), now);
      !st.passwordRequired && st.authenticated
  {
    TrimEmptyIffBlank(form.sessionPassword);
  }

  /** Load-time and tick-time expiry disagree only at the instant of expiry:
      a session loaded exactly at `expiresAt` is open, and its first tick
      expires it. */
  lemma LoadedAtExpiryThenTickExpires(s: LocalSession)
    ensures !Load(Some(s), s.expiresAt).expired
    ensures Tick(Load(Some(s), s.expiresAt), s.expiresAt).expired
  {
  }
}
