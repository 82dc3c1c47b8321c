/** The vCard export of a local session's contacts: one card per contact, in
    list order, each a fixed run of lines ending in an empty line. The card
    carries FN, TEL and EMAIL always and ORG only for a non-empty company.
    A line-level reader is the reference reading; the round trip shows that
    every contact comes back, field by field, as long as no field holds a
    line break. */
module VcfExport {
  import opened Common
  import opened Records

  const Begin: string := "BEGIN:VCARD"
  const Version: string := "VERSION:3.0"
  const End: string := "END:VCARD"

  predicate StartsWith(line: string, tag: string) {
    |tag| <= |line| && line[..|tag|] == tag
  }

  /** The lines of one card; the last, empty, line makes the blank line after
      `END:VCARD`. */
  function CardLines(c: LocalContact): seq<string> {
    [Begin, Version, "FN:" + c.name, "TEL:" + c.phone, "EMAIL:" + c.email]
    + (if c.company != "" then ["ORG:" + c.company] else [])
    + [End, ""]
  }

  /** The lines of all cards, in contact order. */
  function AllLines(cs: seq<LocalContact>): seq<string>
    decreases |cs|
  {
    if cs == [] then [] else CardLines(cs[0]) + AllLines(cs[1..])
  }

  /** Each line followed by "\n". */
  function Join(ls: seq<string>): string
    decreases |ls|
  {
    if ls == [] then "" else ls[0] + "\n" + Join(ls[1..])
  }

  /** The file: the cards of all contacts, one after the other. */
  function VcfText(cs: seq<LocalContact>): string
    decreases |cs|
  {
    if cs == [] then "" else Join(CardLines(cs[0])) + VcfText(cs[1..])
  }

  /** What a card tells about a contact. */
  datatype Card = Card(name: string, phone: string, email: string, company: string)

  function CardOf(c: LocalContact): Card {
    Card(c.name, c.phone, c.email, c.company)
  }

  function Cards(cs: seq<LocalContact>): (r: seq<Card>)
    ensures |r| == |cs|
    ensures forall i :: 0 <= i < |cs| ==> r[i] == CardOf(cs[i])
    decreases |cs|
  {
    if cs == [] then [] else [CardOf(cs[0])] + Cards(cs[1..])
  }

  // ---------------------------------------------------------------------------
  // Reading cards back
  // ---------------------------------------------------------------------------

  /** The text up to the first line break, and what follows that break; a
      text without a break is one final line. */
  function TakeLine(s: string): (r: (string, string))
    ensures s != [] ==> |r.1| < |s|
    decreases |s|
  {
    if s == [] then ("", [])
    else if s[0] == '\n' then ("", s[1..])
    else var p := TakeLine(s[1..]); ([s[0]] + p.0, p.1)
  }

  function SplitLines(s: string): seq<string>
    decreases |s|
  {
    if s == [] then [] else var p := TakeLine(s); [p.0] + SplitLines(p.1)
  }

  /** Cards line by line: the fixed opening lines, the name, phone and email
      lines, an optional ORG line, the closing line and the empty line. */
  function ParseCards(ls: seq<string>): Option<seq<Card>>
    decreases |ls|
  {
    if ls == [] then Some([])
    else if |ls| < 7 then None
    else if !(ls[0] == Begin && ls[1] == Version && StartsWith(ls[2], "FN:")
              && StartsWith(ls[3], "TEL:") && StartsWith(ls[4], "EMAIL:")) then None
    else
      var name, phone, email := ls[2][3..], ls[3][4..], ls[4][6..];
      if StartsWith(ls[5], "ORG:") then
        if |ls| >= 8 && ls[6] == End && ls[7] == "" then
          match ParseCards(ls[8..])
          case None => None
          case Some(rest) => Some([Card(name, phone, email, ls[5][4..])] + rest)
        else None
      else if ls[5] == End && ls[6] == "" then
        match ParseCards(ls[7..])
        case None => None
        case Some(rest) => Some([Card(name, phone, email, "")] + rest)
      else None
  }

  function Decode(text: string): Option<seq<Card>> {
    ParseCards(SplitLines(text))
  }

  predicate NoBreak(s: string) {
    forall i :: 0 <= i < |s| ==> s[i] != '\n'
  }

  /** No field of any contact holds a line break. */
  predicate SingleLineFields(cs: seq<LocalContact>) {
    forall i :: 0 <= i < |cs| ==>
      NoBreak(cs[i].name) && NoBreak(cs[i].phone) && NoBreak(cs[i].email) && NoBreak(cs[i].company)
  }

  // ---------------------------------------------------------------------------
  // Card shape
  // ---------------------------------------------------------------------------

  /** A card has eight lines with a company and seven without; its EMAIL line
      is always there, even for an empty email, and it holds an ORG line
      exactly when the company is non-empty. */
  lemma CardShape(c: LocalContact)
    ensures var ls := CardLines(c);
      && |ls| == (if c.company != "" then 8 else 7)
      && ls[4] == "EMAIL:" + c.email
      && ((exists i :: 0 <= i < |ls| && StartsWith(ls[i], "ORG:")) <==> c.company != "")
  {
    var ls := CardLines(c);
    if c.company != "" {
      assert StartsWith(ls[5], "ORG:");
    } else {
      forall i | 0 <= i < |ls|
        ensures !StartsWith(ls[i], "ORG:")
      {
        assert |ls[i]| < 4 || ls[i][0] != 'O';
      }
    }
  }

  // ---------------------------------------------------------------------------
  // Round trip
  // ---------------------------------------------------------------------------

  lemma {:induction false} CardsRoundTrip(cs: seq<LocalContact>)
    ensures ParseCards(AllLines(cs)) == Some(Cards(cs))
    decreases |cs|
  {
    if cs != [] {
      var c := cs[0];
      var card := CardLines(c);
      var rest := AllLines(cs[1..]);
      var ls := card + rest;
      assert AllLines(cs) == ls;
      CardsRoundTrip(cs[1..]);
      assert ls[0] == Begin && ls[1] == Version;
      assert ls[2] == "FN:" + c.name && ls[2][..3] == "FN:" && ls[2][3..] == c.name;
      assert ls[3] == "TEL:" + c.phone && ls[3][..4] == "TEL:" && ls[3][4..] == c.phone;
      assert ls[4] == "EMAIL:" + c.email && ls[4][..6] == "EMAIL:" && ls[4][6..] == c.email;
      var parsedRest := Cards(cs[1..]);
      if c.company != "" {
        assert |card| == 8;
        assert ls[5] == "ORG:" + c.company && ls[5][..4] == "ORG:" && ls[5][4..] == c.company;
        assert ls[6] == End && ls[7] == "";
        assert ls[8..] == rest;
      } else {
        assert |card| == 7;
        assert ls[5] == End && ls[5][..4][0] == 'E';
        assert ls[6] == "";
        assert ls[7..] == rest;
      }
      assert ParseCards(ls) == Some([CardOf(c)] + parsedRest);
      assert Cards(cs) == [CardOf(c)] + parsedRest;
    }
  }

  lemma JoinAppend(a: seq<string>, b: seq<string>)
    ensures Join(a + b) == Join(a) + Join(b)
    decreases |a|
  {
    if a == [] {
      assert a + b == b;
    } else {
      JoinAppend(a[1..], b);
      assert (a + b)[0] == a[0];
      assert (a + b)[1..] == a[1..] + b;
      calc {
        Join(a + b);
        a[0] + "\n" + Join(a[1..] + b);
        a[0] + "\n" + (Join(a[1..]) + Join(b));
        Join(a) + Join(b);
      }
    }
  }

  /** The file is the lines of all cards, each followed by "\n". */
  lemma {:induction false} TextIsJoinedLines(cs: seq<LocalContact>)
    ensures VcfText(cs) == Join(AllLines(cs))
    decreases |cs|
  {
    if cs != [] {
      TextIsJoinedLines(cs[1..]);
      JoinAppend(CardLines(cs[0]), AllLines(cs[1..]));
    }
  }

  lemma {:induction false} TakeLineOf(l: string, rest: string)
    requires NoBreak(l)
    ensures TakeLine(l + "\n" + rest) == (l, rest)
    decreases |l|
  {
    var s := l + "\n" + rest;
    if l == [] {
      assert s[1..] == rest;
    } else {
      TakeLineOf(l[1..], rest);
      assert s[1..] == l[1..] + "\n" + rest;
      assert [l[0]] + l[1..] == l;
    }
  }

  /** Splitting joined lines gives the lines back, when none holds a break. */
  lemma {:induction false} SplitJoin(ls: seq<string>)
    requires forall i :: 0 <= i < |ls| ==> NoBreak(ls[i])
    ensures SplitLines(Join(ls)) == ls
    decreases |ls|
  {
    if ls != [] {
      TakeLineOf(ls[0], Join(ls[1..]));
      SplitJoin(ls[1..]);
      assert [ls[0]] + ls[1..] == ls;
    }
  }

  lemma {:induction false} AllLinesSingle(cs: seq<LocalContact>)
    requires SingleLineFields(cs)
    ensures forall i :: 0 <= i < |AllLines(cs)| ==> NoBreak(AllLines(cs)[i])
    decreases |cs|
  {
    if cs != [] {
      var c := cs[0];
      var card := CardLines(c);
      assert SingleLineFields(cs[1..]) by {
        forall i | 0 <= i < |cs[1..]|
          ensures NoBreak(cs[1..][i].name) && NoBreak(cs[1..][i].phone)
               && NoBreak(cs[1..][i].email) && NoBreak(cs[1..][i].company)
        {
          assert cs[1..][i] == cs[i + 1];
        }
      }
      AllLinesSingle(cs[1..]);
      assert NoBreak(c.name) && NoBreak(c.phone) && NoBreak(c.email) && NoBreak(c.company);
      forall i | 0 <= i < |card|
        ensures NoBreak(card[i])
      {
        if i == 2 { NoBreakConcat("FN:", c.name); }
        else if i == 3 { NoBreakConcat("TEL:", c.phone); }
        else if i == 4 { NoBreakConcat("EMAIL:", c.email); }
        else if i == 5 && c.company != "" { NoBreakConcat("ORG:", c.company); }
      }
      forall i | 0 <= i < |card + AllLines(cs[1..])|
        ensures NoBreak((card + AllLines(cs[1..]))[i])
      {
        if i >= |card| {
          assert (card + AllLines(cs[1..]))[i] == AllLines(cs[1..])[i - |card|];
        }
      }
    }
  }

  lemma NoBreakConcat(a: string, b: string)
    requires NoBreak(a) && NoBreak(b)
    ensures NoBreak(a + b)
  {
    forall k | 0 <= k < |a + b|
      ensures (a + b)[k] != '\n'
    {
      if k >= |a| { assert (a + b)[k] == b[k - |a|]; }
    }
  }

  /** The export round trip: reading the vCard text back yields every
      contact's name, phone, email and company, in list order, whenever no
      field holds a line break. */
  lemma VcfRoundTrip(cs: seq<LocalContact>)
    requires SingleLineFields(cs)
    ensures Decode(VcfText(cs)) == Some(Cards(cs))
  {
    TextIsJoinedLines(cs);
    AllLinesSingle(cs);
    SplitJoin(AllLines(cs));
    CardsRoundTrip(cs);
  }

  /** The text of one card, as the export writes it: the fixed lines, FN, TEL
      and EMAIL, ORG only for a non-empty company, and `END:VCARD` followed by
      a blank line. */
  lemma CardText(c: LocalContact)
    ensures Join(CardLines(c))
      == Begin + "\n" + (Version + "\n" + ("FN:" + c.name + "\n" + ("TEL:" + c.phone + "\n" + ("EMAIL:" + c.email + "\n"))))
         + ((if c.company != "" then "ORG:" + c.company + "\n" else "") + (End + "\n" + "\n"))
  {
    var head: seq<string> := [Begin, Version, "FN:" + c.name, "TEL:" + c.phone, "EMAIL:" + c.email];
    var org: seq<string> := if c.company != "" then ["ORG:" + c.company] else [];
    var tail: seq<string> := [End, ""];
    assert CardLines(c) == head + (org + tail);
    JoinAppend(head, org + tail);
    JoinAppend(org, tail);
    HeadText(c.name, c.phone, c.email);
    assert Join(tail) == End + "\n" + "\n" by {
      assert tail[1..] == [""];
      assert Join([""]) == "\n";
    }
    assert Join(org) == (if c.company != "" then "ORG:" + c.company + "\n" else "") by {
      if c.company != "" { assert org[1..] == []; }
    }
  }

  lemma HeadText(name: string, phone: string, email: string)
    ensures Join([Begin, Version, "FN:" + name, "TEL:" + phone, "EMAIL:" + email])
      == Begin + "\n" + (Version + "\n" + ("FN:" + name + "\n" + ("TEL:" + phone + "\n" + ("EMAIL:" + email + "\n"))))
  {
    var e := "EMAIL:" + email;
    var t := "TEL:" + phone;
    var f := "FN:" + name;
    var ls := [Begin, Version, f, t, e];
    assert Join([e]) == e + "\n" by { assert [e][1..] == []; }
    assert Join([t, e]) == t + "\n" + Join([e]) by { assert [t, e][1..] == [e]; }
    assert Join([f, t, e]) == f + "\n" + Join([t, e]) by { assert [f, t, e][1..] == [t, e]; }
    assert Join(ls[1..]) == Version + "\n" + Join([f, t, e]) by { assert ls[1..][1..] == [f, t, e]; }
  }
}
