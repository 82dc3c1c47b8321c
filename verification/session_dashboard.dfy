/** The organiser's view of one browser-storage session: a countdown that
    clears the cached password at expiry, the contact list re-read from
    storage, the two export buttons and the five most recent contacts. */
module SessionDashboard {
  import opened Common
  import opened Records
  import Countdown
  import CsvExport
  import VcfExport

  datatype DashboardState = DashboardState(
    display: Countdown.Display,
    expired: bool,
    contacts: seq<LocalContact>)

  const Initial: DashboardState := DashboardState(Countdown.ExpiredLabel, false, [])

  /** One timer tick. At `expiresAt - now <= 0` the session is shown expired
      and, only when it has a non-empty password, its cached password is
      removed; before that the remaining time is shown as hours, minutes and
      seconds. The timer keeps running after expiry and the flag never turns
      back. */
  function Tick(s: LocalSession, st: DashboardState, now: int, cache: Storage): (r: (DashboardState, Storage))
    ensures r.0.display == Countdown.Tick(s.expiresAt, now)
    ensures r.0.expired <==> st.expired || Countdown.TickExpired(s.expiresAt, now)
    ensures r.0.contacts == st.contacts
    ensures Countdown.TickExpired(s.expiresAt, now) && s.sessionPassword != "" ==>
      r.1 == RemoveItem(cache, AuthKey(s.id))
    ensures !Countdown.TickExpired(s.expiresAt, now) || s.sessionPassword == "" ==> r.1 == cache
  {
    var remaining := s.expiresAt - now;
    if remaining <= 0 then
      var cache' := if s.sessionPassword != "" then RemoveItem(cache, AuthKey(s.id)) else cache;
      (st.(display := Countdown.ExpiredLabel, expired := true), cache')
    else
      (st.(display := Countdown.Split(remaining)), cache)
  }

  /** An expired tick removes the key of this session's cached password and
      nothing else; a session without a password keeps its cache whole. */
  lemma ExpiryClearsOnlyThisSessionsCache(s: LocalSession, st: DashboardState, now: int, cache: Storage)
    requires Countdown.TickExpired(s.expiresAt, now)
    ensures var c' := Tick(s, st, now, cache).1;
      && (s.sessionPassword != "" ==> AuthKey(s.id) !in c')
      && (forall k :: k != AuthKey(s.id) ==> (k in c' <==> k in cache) && (k in c' ==> c'[k] == cache[k]))
      && (s.sessionPassword == "" ==> c' == cache)
  {
  }

  /** The two-second refresh: the contact list as now stored, or the list
      already shown when the session is gone from storage. */
  function Refresh(st: DashboardState, stored: Option<LocalSession>): (st': DashboardState)
    ensures stored.Some? ==> st'.contacts == stored.value.contacts
    ensures stored.None? ==> st'.contacts == st.contacts
    ensures st'.display == st.display && st'.expired == st.expired
  {
    match stored
    case None => st
    case Some(s) => st.(contacts := s.contacts)
  }

  /** Both export buttons are disabled only while the session is open and has
      no contacts. */
  predicate ExportEnabled(st: DashboardState) {
    !(|st.contacts| == 0 && !st.expired)
  }

  datatype Export = NoContacts | Download(fileName: string, text: string)

  /** The vCard download: refused for an empty list, else a file named after
      the session whose cards read back as the contacts. */
  function DownloadVcf(sessionName: string, contacts: seq<LocalContact>): (r: Export)
    ensures r.NoContacts? <==> contacts == []
    ensures r.Download? ==> r.fileName == sessionName + "_contacts.vcf"
    ensures r.Download? && VcfExport.SingleLineFields(contacts) ==>
      VcfExport.Decode(r.text) == Some(VcfExport.Cards(contacts))
  {
    if |contacts| == 0 then NoContacts
    else
      var file := Download(sessionName + "_contacts.vcf", VcfExport.VcfText(contacts));
      if VcfExport.SingleLineFields(contacts) then VcfExport.VcfRoundTrip(contacts); file else file
  }

  /** The CSV download: refused for an empty list, else a file named after the
      session whose records read back as the contacts' columns. */
  function DownloadCsv(sessionName: string, contacts: seq<LocalContact>): (r: Export)
    ensures r.NoContacts? <==> contacts == []
    ensures r.Download? ==> r.fileName == sessionName + "_contacts.csv"
    ensures r.Download? ==> CsvExport.Decode(r.text) == Some(CsvExport.Rows(contacts))
  {
    if |contacts| == 0 then NoContacts
    else
      var text := CsvExport.CsvText(contacts);
      CsvExport.CsvRoundTrip(contacts);
      Download(sessionName + "_contacts.csv", text)
  }

  /** Once the session has expired the buttons are enabled even for an empty
      list, and pressing them then only reports that there is nothing to
      export; with contacts they always produce a file. */
  lemma EnabledButtonsMayRefuse(sessionName: string, st: DashboardState)
    ensures st.expired && st.contacts == [] ==>
      ExportEnabled(st)
      && DownloadVcf(sessionName, st.contacts).NoContacts?
      && DownloadCsv(sessionName, st.contacts).NoContacts?
    ensures !ExportEnabled(st) ==>
      DownloadVcf(sessionName, st.contacts).NoContacts? && DownloadCsv(sessionName, st.contacts).NoContacts?
    ensures st.contacts != [] ==>
      ExportEnabled(st)
      && DownloadVcf(sessionName, st.contacts).Download?
      && DownloadCsv(sessionName, st.contacts).Download?
  {
  }

  function Min(a: int, b: int): int {
    if a <= b then a else b
  }

  /** The sequence backwards. */
  function Reverse<T>(s: seq<T>): (r: seq<T>)
    ensures |r| == |s|
    ensures forall i :: 0 <= i < |s| ==> r[i] == s[|s| - 1 - i]
    decreases |s|
  {
    if s == [] then [] else Reverse(s[1..]) + [s[0]]
  }

  /** `contacts.slice(-5).reverse()`: the last five contacts (or all of them,
      when there are fewer), newest first. */
  function RecentFive(cs: seq<LocalContact>): (r: seq<LocalContact>)
    ensures |r| == Min(5, |cs|)
    ensures forall i :: 0 <= i < |r| ==> r[i] == cs[|cs| - 1 - i]
  {
    Reverse(cs[|cs| - Min(5, |cs|)..])
  }

  /** A contact just added heads the recent list, and the recent list keeps at
      most the four that were newest before it. */
  lemma NewestHeadsRecent(cs: seq<LocalContact>, c: LocalContact)
    ensures var r := RecentFive(cs + [c]);
      && r[0] == c
      && r[1..] == RecentFive(cs)[..Min(4, |cs|)]
  {
    var r := RecentFive(cs + [c]);
    var old_ := RecentFive(cs);
    assert |r[1..]| == |old_[..Min(4, |cs|)]|;
    forall i | 0 <= i < |r[1..]|
      ensures r[1..][i] == old_[..Min(4, |cs|)][i]
    {
      assert r[1..][i] == r[i + 1] == (cs + [c])[|cs| - 1 - i];
    }
  }
}
