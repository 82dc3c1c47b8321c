/** Creating a session in the browser's storage. The random session id and
    the two clock reads are arguments. */
module SessionCreator {
  import opened Common
  import opened Records
  import Countdown

  /** The duration field: blank, or a string `parseInt` reads as `value`. */
  datatype DurationInput = Blank | Entered(value: int)

  /** The creation form as typed. */
  datatype CreateForm = CreateForm(
    sessionName: string,
    duration: DurationInput,
    durationUnit: string,
    contactNamePrefix: string,
    whatsAppLink: string,
    sessionPassword: string)

  datatype Creation = Created(session: LocalSession) | MissingNameOrDuration

  /** Milliseconds per unit: "minutes" selects minutes, any other unit hours. */
  function UnitMs(unit: string): (ms: int)
    ensures ms > 0
    ensures ms == Countdown.MsPerMinute <==> unit == "minutes"
    ensures ms == Countdown.MsPerHour <==> unit != "minutes"
  {
    if unit == "minutes" then 60000 else 3600000
  }

  /** `handleCreateSession`: refuses a blank name or a blank duration, then
      records the session with trimmed prefix, link and password, the name as
      typed, no contacts, `createdAt` from the first clock read and
      `expiresAt` from the second. */
  function Create(form: CreateForm, id: string, firstRead: int, secondRead: int): (r: Creation)
    ensures r.MissingNameOrDuration? <==> AllWhitespace(form.sessionName) || form.duration.Blank?
    ensures r.Created? ==>
      && r.session.id == id
      && r.session.name == form.sessionName
      && r.session.duration == form.duration.value * UnitMs(form.durationUnit)
      && r.session.createdAt == firstRead
      && r.session.expiresAt == secondRead + r.session.duration
      && r.session.contactNamePrefix == Trim(form.contactNamePrefix)
      && r.session.whatsAppLink == Trim(form.whatsAppLink)
      && r.session.sessionPassword == Trim(form.sessionPassword)
      && r.session.contacts == []
  {
    TrimEmptyIffBlank(form.sessionName);
    if Trim(form.sessionName) == "" || form.duration.Blank? then MissingNameOrDuration
    else
      var durationMs := form.duration.value * UnitMs(form.durationUnit);
      Created(LocalSession(
        id := id,
        name := form.sessionName,
        duration := durationMs,
        createdAt := firstRead,
        expiresAt := secondRead + durationMs,
        contactNamePrefix := Trim(form.contactNamePrefix),
        whatsAppLink := Trim(form.whatsAppLink),
        sessionPassword := Trim(form.sessionPassword),
        contacts := []))
  }

  /** With a clock that does not run backwards, a session lasts at least its
      duration: `expiresAt - createdAt >= durationMs`. */
  lemma LastsAtLeastItsDuration(form: CreateForm, id: string, firstRead: int, secondRead: int)
    requires firstRead <= secondRead
    requires !AllWhitespace(form.sessionName) && form.duration.Entered?
    ensures Create(form, id, firstRead, secondRead).Created?
    ensures var s := Create(form, id, firstRead, secondRead).session;
      s.expiresAt - s.createdAt >= s.duration
  {
  }

  /** Positivity of the duration is never checked: a zero or negative duration
      yields a session the tick already finds expired at its second clock read. */
  lemma NonPositiveDurationIsExpiredAtOnce(form: CreateForm, id: string, firstRead: int, secondRead: int, now: int)
    requires form.duration.Entered? && form.duration.value <= 0
    requires !AllWhitespace(form.sessionName)
    requires secondRead <= now
    ensures Create(form, id, firstRead, secondRead).Created?
    ensures Countdown.TickExpired(Create(form, id, firstRead, secondRead).session.expiresAt, now)
  {
    var d := form.duration.value * UnitMs(form.durationUnit);
    assert d <= 0 by {
      if form.durationUnit == "minutes" {
        assert d == form.duration.value * 60000;
      } else {
        assert d == form.duration.value * 3600000;
      }
    }
  }

  /** A duration of `n` minutes lasts `n * 60000` ms, of `n` hours (or any
      other unit) `n * 3600000` ms. */
  lemma DurationUnits(form: CreateForm, n: int, id: string, t: int)
    requires !AllWhitespace(form.sessionName) && form.duration == Entered(n)
    ensures form.durationUnit == "minutes" ==>
      Create(form, id, t, t).session.expiresAt == t + n * 60000
    ensures form.durationUnit != "minutes" ==>
      Create(form, id, t, t).session.expiresAt == t + n * 3600000
  {
  }
}
