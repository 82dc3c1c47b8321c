/** The CSV export of a local session's contacts: a header, then one record
    per contact in list order, lines joined by "\n". Every field is wrapped in
    double quotes with inner quotes doubled (the quoting of RFC 4180, section
    2, rule 7; lines end in LF, not the CRLF of its rule 2). The decoder here
    is the reference reading of that format; the round trip below shows the
    export loses nothing. */
module CsvExport {
  import opened Common
  import opened Records

  const Header: string := "Name,Email,Phone,Company"

  /** The columns of one contact, in header order. A local contact's company
      is a string, so `company || ''` is the company itself. */
  function Columns(c: LocalContact): seq<string> {
    [c.name, c.email, c.phone, c.company]
  }

  /** Every double quote doubled. */
  function Escape(f: string): (e: string)
    ensures |e| >= |f|
    decreases |f|
  {
    if f == [] then []
    else if f[0] == '"' then "\"\"" + Escape(f[1..])
    else [f[0]] + Escape(f[1..])
  }

  /** `"` + field with quotes doubled + `"`. */
  function Quote(f: string): (q: string)
    ensures |q| >= 2 && q[0] == '"' && q[|q| - 1] == '"'
  {
    "\"" + Escape(f) + "\""
  }

  /** Quoted fields joined by commas. */
  function Record(fs: seq<string>): string
    decreases |fs|
  {
    if fs == [] then ""
    else if |fs| == 1 then Quote(fs[0])
    else Quote(fs[0]) + "," + Record(fs[1..])
  }

  /** "\n" before each record. */
  function Body(cs: seq<LocalContact>): string
    decreases |cs|
  {
    if cs == [] then "" else "\n" + Record(Columns(cs[0])) + Body(cs[1..])
  }

  /** The whole file. */
  function CsvText(cs: seq<LocalContact>): (text: string)
    ensures |text| >= |Header| && text[..|Header|] == Header
    ensures cs == [] ==> text == Header
  {
    Header + Body(cs)
  }

  // ---------------------------------------------------------------------------
  // Reading the format back
  // ---------------------------------------------------------------------------

  /** The rest of a quoted field after its opening quote: `""` stands for one
      quote, a lone quote closes the field. Yields the field and what follows
      the closing quote. */
  function Unescape(s: string): (r: Option<(string, string)>)
    ensures r.Some? ==> |r.value.1| < |s|
    decreases |s|
  {
    if s == [] then None
    else if s[0] == '"' then
      if |s| >= 2 && s[1] == '"' then
        match Unescape(s[2..])
        case None => None
        case Some(p) => Some(("\"" + p.0, p.1))
      else Some(("", s[1..]))
    else
      match Unescape(s[1..])
      case None => None
      case Some(p) => Some(([s[0]] + p.0, p.1))
  }

  function ParseField(s: string): (r: Option<(string, string)>)
    ensures r.Some? ==> |r.value.1| < |s|
  {
    if s != [] && s[0] == '"' then Unescape(s[1..]) else None
  }

  /** Quoted fields separated by commas, up to the first character after a
      closing quote that is not a comma. */
  function ParseRecord(s: string): (r: Option<(seq<string>, string)>)
    ensures r.Some? ==> |r.value.1| < |s|
    decreases |s|
  {
    match ParseField(s)
    case None => None
    case Some(p) =>
      if p.1 != [] && p.1[0] == ',' then
        match ParseRecord(p.1[1..])
        case None => None
        case Some(q) => Some(([p.0] + q.0, q.1))
      else Some(([p.0], p.1))
  }

  /** Records, each introduced by "\n". */
  function ParseBody(s: string): Option<seq<seq<string>>>
    decreases |s|
  {
    if s == [] then Some([])
    else if s[0] != '\n' then None
    else
      match ParseRecord(s[1..])
      case None => None
      case Some(p) =>
        match ParseBody(p.1)
        case None => None
        case Some(rows) => Some([p.0] + rows)
  }

  /** The header, then the records. */
  function Decode(text: string): Option<seq<seq<string>>> {
    if |text| >= |Header| && text[..|Header|] == Header then ParseBody(text[|Header|..]) else None
  }

  /** The columns of every contact, in list order. */
  function Rows(cs: seq<LocalContact>): (rows: seq<seq<string>>)
    ensures |rows| == |cs|
    ensures forall i :: 0 <= i < |cs| ==> rows[i] == Columns(cs[i])
    decreases |cs|
  {
    if cs == [] then [] else [Columns(cs[0])] + Rows(cs[1..])
  }

  // ---------------------------------------------------------------------------
  // Round trip
  // ---------------------------------------------------------------------------

  /** Un-quoting a quoted field returns the field, whatever it contains. */
  lemma {:induction false} UnescapeEscape(f: string, rest: string)
    requires rest == [] || rest[0] != '"'
    ensures Unescape(Escape(f) + "\"" + rest) == Some((f, rest))
    decreases |f|
  {
    var s := Escape(f) + "\"" + rest;
    if f == [] {
      assert s == "\"" + rest;
      assert s[1..] == rest;
    } else {
      var tail := Escape(f[1..]) + "\"" + rest;
      UnescapeEscape(f[1..], rest);
      if f[0] == '"' {
        assert s == "\"\"" + tail;
        assert s[2..] == tail;
        assert Unescape(s) == Some(("\"" + f[1..], rest));
      } else {
        assert s == [f[0]] + tail;
        assert s[1..] == tail;
        assert Unescape(s) == Some(([f[0]] + f[1..], rest));
      }
      assert [f[0]] + f[1..] == f;
    }
  }

  lemma QuoteRoundTrip(f: string, rest: string)
    requires rest == [] || rest[0] != '"'
    ensures ParseField(Quote(f) + rest) == Some((f, rest))
  {
    UnescapeEscape(f, rest);
    assert (Quote(f) + rest)[1..] == Escape(f) + "\"" + rest;
  }

  /** A record reads back as its fields, provided what follows it is the end
      of the text or a line break. */
  lemma {:induction false} RecordRoundTrip(fs: seq<string>, rest: string)
    requires |fs| >= 1
    requires rest == [] || rest[0] == '\n'
    ensures ParseRecord(Record(fs) + rest) == Some((fs, rest))
    decreases |fs|
  {
    if |fs| == 1 {
      QuoteRoundTrip(fs[0], rest);
      assert Record(fs) == Quote(fs[0]);
      assert [fs[0]] == fs;
    } else {
      var tail := "," + Record(fs[1..]) + rest;
      QuoteRoundTrip(fs[0], tail);
      assert Record(fs) + rest == Quote(fs[0]) + tail;
      RecordRoundTrip(fs[1..], rest);
      assert tail[1..] == Record(fs[1..]) + rest;
      assert [fs[0]] + fs[1..] == fs;
    }
  }

  lemma {:induction false} BodyRoundTrip(cs: seq<LocalContact>)
    ensures ParseBody(Body(cs)) == Some(Rows(cs))
    decreases |cs|
  {
    if cs != [] {
      var rest := Body(cs[1..]);
      var fs := Columns(cs[0]);
      assert rest == [] || rest[0] == '\n';
      RecordRoundTrip(fs, rest);
      BodyRoundTrip(cs[1..]);
      var b := Body(cs);
      assert b == "\n" + (Record(fs) + rest);
      assert b[1..] == Record(fs) + rest;
      assert ParseRecord(b[1..]) == Some((fs, rest));
      assert Rows(cs) == [fs] + Rows(cs[1..]);
    }
  }

  /** The export round trip: reading the CSV text back, field by field and
      respecting the quoting, yields every contact's name, email, phone and
      company in list order, even when they hold commas, quotes or line
      breaks. */
  lemma CsvRoundTrip(cs: seq<LocalContact>)
    ensures Decode(CsvText(cs)) == Some(Rows(cs))
  {
    BodyRoundTrip(cs);
    assert CsvText(cs)[|Header|..] == Body(cs);
  }

  /** A field holding a quote is written with that quote doubled. */
  lemma QuoteExample()
    ensures Quote("say \"hi\"") == "\"say \"\"hi\"\"\""
  {
    assert Escape("\"") == "\"\"";
    assert Escape("hi\"") == "hi\"\"";
  }
}
