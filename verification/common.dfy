/** Values shared by every variant of the contact-flow application: nullable
    strings and their JavaScript truthiness, `String.prototype.trim`, the name
    prefix rule, the `session_auth_<id>` cache key, the abstract result of a
    database call and the ordered field guards of every contact form. */
module Common {

  /** A nullable value (a database column or a JSON member that may be null). */
  datatype Option<+T> = None | Some(value: T) {
    function GetOr(default: T): T {
      match this
      case Some(v) => v
      case None => default
    }
  }

  /** The text a nullable string shows when used where a string is expected
      after a falsy check: null and "" both read as the empty string. */
  function Text(o: Option<string>): string {
    o.GetOr("")
  }

  /** JavaScript truthiness of a nullable string: null and "" are falsy. */
  predicate Truthy(o: Option<string>) {
    o.Some? && o.value != ""
  }

  /** `s || null` for a string `s`. */
  function OrNull(s: string): (r: Option<string>)
    ensures r.None? <==> s == ""
    ensures r.Some? ==> r.value == s
    ensures Truthy(r) <==> s != ""
    ensures Text(r) == s
  {
    if s == "" then None else Some(s)
  }

  /** `o || null` for a nullable string `o`. */
  function FalsyToNull(o: Option<string>): (r: Option<string>)
    ensures r.None? <==> !Truthy(o)
    ensures r.Some? ==> r == o
  {
    OrNull(Text(o))
  }

  lemma TruthyIsNonEmptyText(o: Option<string>)
    ensures Truthy(o) <==> Text(o) != ""
  {
  }

  // ---------------------------------------------------------------------------
  // String.prototype.trim
  // ---------------------------------------------------------------------------

  /** The characters ECMAScript's `trim` removes: WhiteSpace (tab, vertical tab,
      form feed, space, no-break space, byte order mark and the other Unicode
      space separators) and LineTerminator (LF, CR, LS, PS). */
  predicate IsWhitespace(c: char) {
    || c == '\t' || c == '\U{000B}' || c == '\U{000C}' || c == ' '
    || c == '\U{00A0}' || c == '\U{FEFF}'
    || c == '\U{1680}' || ('\U{2000}' <= c <= '\U{200A}')
    || c == '\U{202F}' || c == '\U{205F}' || c == '\U{3000}'
    || c == '\n' || c == '\r' || c == '\U{2028}' || c == '\U{2029}'
  }

  predicate AllWhitespace(s: string) {
    forall i :: 0 <= i < |s| ==> IsWhitespace(s[i])
  }

  lemma WhitespaceCons(c: char, t: string)
    requires IsWhitespace(c) && AllWhitespace(t)
    ensures AllWhitespace([c] + t)
  {
    var u := [c] + t;
    forall i | 0 <= i < |u|
      ensures IsWhitespace(u[i])
    {
      if i > 0 {
        assert u[i] == t[i - 1];
      }
    }
  }

  lemma WhitespaceSnoc(t: string, c: char)
    requires AllWhitespace(t) && IsWhitespace(c)
    ensures AllWhitespace(t + [c])
  {
    var u := t + [c];
    forall i | 0 <= i < |u|
      ensures IsWhitespace(u[i])
    {
      if i < |t| {
        assert u[i] == t[i];
      }
    }
  }

  /** Drops leading whitespace: the result is a suffix of `s`, what was
      dropped is whitespace, and the result does not start with whitespace. */
  function TrimStart(s: string): (r: string)
    ensures |r| <= |s| && r == s[|s| - |r|..]
    ensures AllWhitespace(s[..|s| - |r|])
    ensures r == [] || !IsWhitespace(r[0])
    decreases |s|
  {
    if |s| > 0 && IsWhitespace(s[0]) then
      var r := TrimStart(s[1..]);
      assert s[..|s| - |r|] == [s[0]] + s[1..][..|s| - 1 - |r|];
      WhitespaceCons(s[0], s[1..][..|s| - 1 - |r|]);
      r
    else
      s
  }

  /** Drops trailing whitespace: the result is a prefix of `s`, what was
      dropped is whitespace, and the result does not end with whitespace. */
  function TrimEnd(s: string): (r: string)
    ensures |r| <= |s| && r == s[..|r|]
    ensures AllWhitespace(s[|r|..])
    ensures r == [] || !IsWhitespace(r[|r| - 1])
    decreases |s|
  {
    if |s| > 0 && IsWhitespace(s[|s| - 1]) then
      var init := s[..|s| - 1];
      var r := TrimEnd(init);
      assert s[|r|..] == init[|r|..] + [s[|s| - 1]];
      WhitespaceSnoc(init[|r|..], s[|s| - 1]);
      r
    else
      s
  }

  /** `s.trim()`: the string with leading and trailing whitespace removed.
      The result is a contiguous piece of `s`, everything before and after it
      is whitespace, and it neither starts nor ends with whitespace. */
  function Trim(s: string): (r: string)
    ensures |r| <= |s|
    ensures exists a ::
              && 0 <= a <= |s| - |r| && r == s[a..a + |r|]
              && AllWhitespace(s[..a]) && AllWhitespace(s[a + |r|..])
    ensures r == [] || (!IsWhitespace(r[0]) && !IsWhitespace(r[|r| - 1]))
  {
    var t := TrimStart(s);
    var r := TrimEnd(t);
    assert r != [] ==> r[0] == t[0];
    var a := |s| - |t|;
    assert r == s[a..a + |r|];
    assert s[a + |r|..] == t[|r|..];
    r
  }

  lemma {:induction false} TrimStartEmptyIffBlank(s: string)
    ensures TrimStart(s) == [] <==> AllWhitespace(s)
    decreases |s|
  {
    if |s| > 0 && IsWhitespace(s[0]) {
      TrimStartEmptyIffBlank(s[1..]);
      assert AllWhitespace(s) <==> AllWhitespace(s[1..]) by {
        if AllWhitespace(s[1..]) {
          forall i | 0 <= i < |s|
            ensures IsWhitespace(s[i])
          {
            if i > 0 {
              assert s[i] == s[1..][i - 1];
            }
          }
        }
      }
    }
  }

  lemma {:induction false} TrimEndEmptyIffBlank(s: string)
    ensures TrimEnd(s) == [] <==> AllWhitespace(s)
    decreases |s|
  {
    if |s| > 0 && IsWhitespace(s[|s| - 1]) {
      var init := s[..|s| - 1];
      TrimEndEmptyIffBlank(init);
      assert AllWhitespace(s) <==> AllWhitespace(init) by {
        if AllWhitespace(init) {
          forall i | 0 <= i < |s|
            ensures IsWhitespace(s[i])
          {
            if i < |s| - 1 {
              assert s[i] == init[i];
            }
          }
        }
      }
    }
  }

  /** A string trims to "" exactly when it consists of whitespace only; this is
      the "blank" test every form applies to the name field. */
  lemma TrimEmptyIffBlank(s: string)
    ensures Trim(s) == [] <==> AllWhitespace(s)
  {
    var t := TrimStart(s);
    TrimStartEmptyIffBlank(s);
    TrimEndEmptyIffBlank(t);
    assert AllWhitespace(t) ==> t == [];
  }

  /** A whitespace-free, non-empty string is not blank. */
  lemma TrimOfWordIsNonEmpty(s: string)
    requires s != [] && !IsWhitespace(s[0])
    ensures Trim(s) != []
  {
    TrimEmptyIffBlank(s);
  }

  /** `s.trim() || null`. */
  function TrimOrNull(s: string): (r: Option<string>)
    ensures r.None? <==> AllWhitespace(s)
    ensures r.Some? ==> r.value == Trim(s) && r.value != []
  {
    TrimEmptyIffBlank(s);
    OrNull(Trim(s))
  }

  // ---------------------------------------------------------------------------
  // The name prefix rule
  // ---------------------------------------------------------------------------

  /** `prefix ? prefix + name : name`. Because the empty prefix is the falsy
      one, the rule is plain concatenation of the prefix's text; the name itself
      is never trimmed. */
  function PrefixedName(prefix: Option<string>, name: string): (r: string)
    ensures r == Text(prefix) + name
    ensures |r| == |Text(prefix)| + |name|
    ensures r[|r| - |name|..] == name
  {
    if Truthy(prefix) then prefix.value + name else name
  }

  // ---------------------------------------------------------------------------
  // The cached password of a session (a localStorage entry)
  // ---------------------------------------------------------------------------

  type Storage = map<string, string>

  const AuthKeyPrefix: string := "session_auth_"

  /** `session_auth_<id>`. */
  function AuthKey(id: string): string {
    AuthKeyPrefix + id
  }

  /** Distinct sessions never share a cache entry. */
  lemma AuthKeyInjective(a: string, b: string)
    requires AuthKey(a) == AuthKey(b)
    ensures a == b
  {
    assert a == AuthKey(a)[|AuthKeyPrefix|..];
    assert b == AuthKey(b)[|AuthKeyPrefix|..];
  }

  /** `localStorage.removeItem(key)`: only that key disappears. */
  function RemoveItem(m: Storage, key: string): (r: Storage)
    ensures key !in r
    ensures forall k :: k != key ==> (k in r <==> k in m)
    ensures forall k :: k in r ==> r[k] == m[k]
  {
    m - {key}
  }

  /** `localStorage.getItem(key) === value` (a missing key reads as null). */
  predicate StoredEquals(m: Storage, key: string, value: string) {
    key in m && m[key] == value
  }

  // ---------------------------------------------------------------------------
  // Database calls
  // ---------------------------------------------------------------------------

  /** The result of a database call: success, or an error code and message. */
  datatype StoreResult = Ok | Err(code: string, message: string)

  /** The PostgreSQL code for a unique-constraint violation. */
  const UniqueViolation: string := "23505"

  /** How every insert maps the database's answer. */
  datatype InsertOutcome = Saved | Duplicate | Failed(message: string)

  function ClassifyInsert(r: StoreResult): (o: InsertOutcome)
    ensures o.Saved? <==> r.Ok?
    ensures o.Duplicate? <==> r.Err? && r.code == UniqueViolation
    ensures o.Failed? ==> r.Err? && o.message == r.message
  {
    match r
    case Ok => Saved
    case Err(code, message) => if code == UniqueViolation then Duplicate else Failed(message)
  }

  // ---------------------------------------------------------------------------
  // Contact forms
  // ---------------------------------------------------------------------------

  /** The text fields of a contact form; the phone is the value of the phone
      input, "" when it is empty. */
  datatype FormInput = FormInput(name: string, email: string, company: string, phone: string)

  const EmptyForm: FormInput := FormInput("", "", "", "")

  /** Why a submission was refused, in the order the guards are tried. */
  datatype Rejection =
    | MissingInformation
    | InvalidPhone
    | SessionExpired
    | PasswordRequired

  /** The first two guards of every form: a blank name or an empty phone, then
      a phone the validator refuses. */
  function FieldRejection(input: FormInput, validPhone: string -> bool): (r: Option<Rejection>)
    ensures r == Some(MissingInformation) <==> AllWhitespace(input.name) || input.phone == ""
    ensures r == Some(InvalidPhone) <==>
      !AllWhitespace(input.name) && input.phone != "" && !validPhone(input.phone)
    ensures r.None? <==>
      !AllWhitespace(input.name) && input.phone != "" && validPhone(input.phone)
  {
    TrimEmptyIffBlank(input.name);
    if Trim(input.name) == "" || input.phone == "" then Some(MissingInformation)
    else if !validPhone(input.phone) then Some(InvalidPhone)
    else None
  }

  /** The four guards of the submitting forms, in order: fields, expiry, lock. */
  function SubmitRejection(input: FormInput, validPhone: string -> bool, expired: bool, locked: bool)
    : (r: Option<Rejection>)
    ensures FieldRejection(input, validPhone).Some? ==> r == FieldRejection(input, validPhone)
    ensures FieldRejection(input, validPhone).None? && expired ==> r == Some(SessionExpired)
    ensures FieldRejection(input, validPhone).None? && !expired && locked ==> r == Some(PasswordRequired)
    ensures r.None? <==> FieldRejection(input, validPhone).None? && !expired && !locked
  {
    var f := FieldRejection(input, validPhone);
    if f.Some? then f
    else if expired then Some(SessionExpired)
    else if locked then Some(PasswordRequired)
    else None
  }
}
