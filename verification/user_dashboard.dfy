/** The signed-in user's list of sessions: fetched rows are ordered open
    sessions first and, within each group, newest first; deleting a session
    drops it from the list only once the store confirms. */
module UserDashboard {
  import opened Common
  import opened Records
  import Countdown

  /** Expired at the time of sorting (`isPast(expires_at)`). */
  predicate Expired(s: RemoteSession, now: int) {
    Countdown.IsPast(s.expiresAt, now)
  }

  /** The comparator of the sort, as a "may come first" relation: an open
      session before an expired one, and within the same status the later
      `created_at` first. */
  predicate Le(a: RemoteSession, b: RemoteSession, now: int) {
    if Expired(a, now) == Expired(b, now) then a.createdAt >= b.createdAt
    else !Expired(a, now)
  }

  lemma LeTotal(a: RemoteSession, b: RemoteSession, now: int)
    ensures Le(a, b, now) || Le(b, a, now)
  {
  }

  lemma LeTransitive(a: RemoteSession, b: RemoteSession, c: RemoteSession, now: int)
    requires Le(a, b, now) && Le(b, c, now)
    ensures Le(a, c, now)
  {
  }

  predicate Sorted(s: seq<RemoteSession>, now: int) {
    forall i, j :: 0 <= i < j < |s| ==> Le(s[i], s[j], now)
  }

  /** Places `x` before the first element it may precede. */
  function Insert(x: RemoteSession, ys: seq<RemoteSession>, now: int): (r: seq<RemoteSession>)
    ensures |r| == |ys| + 1
    ensures multiset(r) == multiset(ys) + multiset{x}
    ensures forall e :: e in r <==> e == x || e in ys
    ensures Sorted(ys, now) ==> Sorted(r, now)
    decreases |ys|
  {
    if ys == [] then [x]
    else if Le(x, ys[0], now) then
      var r := [x] + ys;
      assert Sorted(ys, now) ==> Sorted(r, now) by {
        if Sorted(ys, now) {
          forall i, j | 0 <= i < j < |r|
            ensures Le(r[i], r[j], now)
          {
            if i == 0 && j > 1 { LeTransitive(x, ys[0], ys[j - 1], now); }
          }
        }
      }
      r
    else
      var rest := Insert(x, ys[1..], now);
      var r := [ys[0]] + rest;
      assert ys == [ys[0]] + ys[1..];
      assert Sorted(ys, now) ==> Sorted(r, now) by {
        if Sorted(ys, now) {
          LeTotal(x, ys[0], now);
          forall i, j | 0 <= i < j < |r|
            ensures Le(r[i], r[j], now)
          {
            if i == 0 {
              assert r[j] in rest;
              if r[j] != x {
                var k :| 0 <= k < |ys[1..]| && ys[1..][k] == r[j];
                assert ys[k + 1] == r[j];
              }
            }
          }
        }
      }
      r
  }

  /** `data.sort(...)` on the fetched rows. */
  function SortSessions(rows: seq<RemoteSession>, now: int): (r: seq<RemoteSession>)
    ensures multiset(r) == multiset(rows)
    ensures Sorted(r, now)
    decreases |rows|
  {
    if rows == [] then []
    else
      assert rows == [rows[0]] + rows[1..];
      Insert(rows[0], SortSessions(rows[1..], now), now)
  }

  /** After the sort every open session precedes every expired one, so the
      dimmed cards form one block at the end. */
  lemma ExpiredFormSuffix(rows: seq<RemoteSession>, now: int, i: int, j: int)
    requires 0 <= i < j < |rows|
    ensures var r := SortSessions(rows, now);
      (Expired(r[i], now) ==> Expired(r[j], now))
      && (Expired(r[i], now) == Expired(r[j], now) ==> r[i].createdAt >= r[j].createdAt)
  {
    var r := SortSessions(rows, now);
    assert Sorted(r, now);
    assert Le(r[i], r[j], now);
  }

  /** Sorting a sorted list changes nothing. */
  lemma {:induction false} SortKeepsSorted(rows: seq<RemoteSession>, now: int)
    requires Sorted(rows, now)
    ensures SortSessions(rows, now) == rows
    decreases |rows|
  {
    if rows != [] {
      assert Sorted(rows[1..], now) by {
        forall i, j | 0 <= i < j < |rows[1..]|
          ensures Le(rows[1..][i], rows[1..][j], now)
        {
          assert rows[1..][i] == rows[i + 1] && rows[1..][j] == rows[j + 1];
        }
      }
      SortKeepsSorted(rows[1..], now);
      var tail := rows[1..];
      if tail != [] {
        assert Le(rows[0], tail[0], now) by { assert tail[0] == rows[1]; }
      }
      assert [rows[0]] + tail == rows;
    }
  }

  /** The answer of the session query. */
  datatype Listing = NotSignedIn | ListFailed(message: string) | Listed(rows: seq<RemoteSession>)

  datatype ListView = ListView(loading: bool, sessions: seq<RemoteSession>)

  datatype FetchOutcome = SentToSignIn | FetchError(message: string) | Shown

  /** `fetchSessions`: no user sends the visitor to sign in; a failed query
      keeps the list already shown; a listing is shown sorted. Loading ends in
      every case. */
  function FetchSessions(view: ListView, listing: Listing, now: int): (r: (ListView, FetchOutcome))
    ensures !r.0.loading
    ensures listing.Listed? <==> r.1 == Shown
    ensures listing.Listed? ==>
      multiset(r.0.sessions) == multiset(listing.rows) && Sorted(r.0.sessions, now)
    ensures !listing.Listed? ==> r.0.sessions == view.sessions
    ensures listing.ListFailed? ==> r.1 == FetchError(listing.message)
  {
    match listing
    case NotSignedIn => (view.(loading := false), SentToSignIn)
    case ListFailed(message) => (view.(loading := false), FetchError(message))
    case Listed(rows) => (ListView(false, SortSessions(rows, now)), Shown)
  }

  /** `prevSessions.filter((s) => s.id !== sessionId)`. */
  function Without(sessions: seq<RemoteSession>, id: string): (r: seq<RemoteSession>)
    ensures |r| <= |sessions|
    ensures forall s :: s in r <==> s in sessions && s.id != id
    decreases |sessions|
  {
    if sessions == [] then []
    else if sessions[0].id == id then Without(sessions[1..], id)
    else [sessions[0]] + Without(sessions[1..], id)
  }

  /** The filter works element by element: a single session is dropped
      exactly when it has the id. */
  lemma WithoutSingle(x: RemoteSession, id: string)
    ensures Without([x], id) == if x.id == id then [] else [x]
  {
    assert [x][1..] == [];
  }

  /** The filter keeps the order: the filter of a concatenation is the
      concatenation of the filters. With `WithoutSingle`, the result is the
      input with the sessions of that id struck out, the others in their
      order and with their repetitions. */
  lemma {:induction false} WithoutConcat(a: seq<RemoteSession>, b: seq<RemoteSession>, id: string)
    ensures Without(a + b, id) == Without(a, id) + Without(b, id)
    decreases |a|
  {
    if a == [] {
      assert a + b == b;
    } else {
      assert (a + b)[0] == a[0];
      assert (a + b)[1..] == a[1..] + b;
      WithoutConcat(a[1..], b, id);
    }
  }

  /** Removing an id a second time changes nothing, and removing it from a
      list that does not hold it changes nothing either. */
  lemma {:induction false} WithoutIdempotent(sessions: seq<RemoteSession>, id: string)
    ensures Without(Without(sessions, id), id) == Without(sessions, id)
    ensures (forall i :: 0 <= i < |sessions| ==> sessions[i].id != id) ==> Without(sessions, id) == sessions
    decreases |sessions|
  {
    if sessions != [] {
      WithoutIdempotent(sessions[1..], id);
      if forall i :: 0 <= i < |sessions| ==> sessions[i].id != id {
        assert forall i :: 0 <= i < |sessions[1..]| ==> sessions[1..][i].id != id by {
          forall i | 0 <= i < |sessions[1..]| ensures sessions[1..][i].id != id {
            assert sessions[1..][i] == sessions[i + 1];
          }
        }
        assert [sessions[0]] + sessions[1..] == sessions;
      }
      if sessions[0].id != id {
        var w := Without(sessions, id);
        assert w[1..] == Without(sessions[1..], id);
      }
    }
  }

  const NotAuthenticatedMessage: string := "User not authenticated"
  const DeleteFailedMessage: string := "Failed to delete session."

  datatype DeleteOutcome = Deleted | DeleteError(message: string)

  /** `handleDeleteSession`: without a signed-in user nothing is sent; a store
      error keeps the list and shows the error text (or a fixed text when it
      has none); only a confirmed delete removes every session with that id
      from the list. */
  function DeleteSession(sessions: seq<RemoteSession>, id: string, signedIn: bool, delete: StoreResult)
    : (r: (seq<RemoteSession>, DeleteOutcome))
    ensures r.1 == Deleted <==> signedIn && delete.Ok?
    ensures r.1 == Deleted ==> r.0 == Without(sessions, id)
    ensures r.1 == Deleted ==> forall s :: s in r.0 <==> s in sessions && s.id != id
    ensures r.1 != Deleted ==> r.0 == sessions
    ensures !signedIn ==> r.1 == DeleteError(NotAuthenticatedMessage)
    ensures signedIn && delete.Err? ==>
      r.1 == DeleteError(if delete.message == "" then DeleteFailedMessage else delete.message)
  {
    if !signedIn then (sessions, DeleteError(NotAuthenticatedMessage))
    else
      match delete
      case Err(_, message) =>
        (sessions, DeleteError(if message == "" then DeleteFailedMessage else message))
      case Ok => (Without(sessions, id), Deleted)
  }
}
