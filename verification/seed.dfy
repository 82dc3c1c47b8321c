/** The start-up seeding of the shared `global_contacts` table from a JSON
    list in the build environment: each complete entry whose phone is not in
    the table yet is inserted, entry by entry. The table is a sequence of
    rows; the database's answers that cannot be derived from it (a failed
    lookup, a failed insert) are given per entry. */
module Seeding {
  import opened Common
  import opened Records

  /** The seed configuration as the loop sees it: unset variables, text that
      is not JSON, JSON that is not a list, or a list of entries. */
  datatype SeedSource = Unconfigured | Unparsable | NotAList | List(items: seq<SeedItem>)

  /** A list element: `null` (reading its fields throws and ends the loop), or
      an object whose string members may be missing. Any other non-object
      value behaves like an object without members. */
  datatype SeedItem = NullItem | Item(name: Option<string>, phone: Option<string>, email: Option<string>, company: Option<string>)

  /** The one lookup error code the loop tolerates: it treats the lookup as
      having found nothing and goes on to insert. */
  const NoRowsCode: string := "PGRST116"

  /** What the database does, beyond what the table implies, for one entry. */
  datatype Fault = NoFault | LookupFails(code: string) | InsertFails(message: string)

  predicate Complete(item: SeedItem) {
    item.Item? && Truthy(item.name) && Truthy(item.phone)
  }

  /** The row inserted for a complete entry: name and phone as given, falsy
      email and company as null. */
  function RowOf(item: SeedItem): (c: GlobalContact)
    requires Complete(item)
    ensures c.name == item.name.value && c.phone == item.phone.value
    ensures c.name != "" && c.phone != ""
    ensures c.email.None? <==> !Truthy(item.email)
    ensures c.email.Some? ==> c.email == item.email
    ensures c.company.None? <==> !Truthy(item.company)
    ensures c.company.Some? ==> c.company == item.company
  {
    GlobalContact(item.name.value, item.phone.value, FalsyToNull(item.email), FalsyToNull(item.company))
  }

  predicate HasGlobalPhone(table: seq<GlobalContact>, phone: string) {
    exists i :: 0 <= i < |table| && table[i].phone == phone
  }

  function Head(faults: seq<Fault>): Fault {
    if faults == [] then NoFault else faults[0]
  }

  function Rest(faults: seq<Fault>): seq<Fault> {
    if faults == [] then [] else faults[1..]
  }

  /** What one complete entry does to the table: a lookup failing with a code
      other than the tolerated one skips the entry; otherwise a row with the
      phone already present skips it (a tolerated failure hides every row); a
      missing phone is inserted unless the insert fails. */
  function Step(table: seq<GlobalContact>, item: SeedItem, fault: Fault): (t: seq<GlobalContact>)
    requires Complete(item)
    ensures t == table || t == table + [RowOf(item)]
    ensures t != table <==>
      && !(fault.LookupFails? && fault.code != NoRowsCode)
      && (fault == LookupFails(NoRowsCode) || !HasGlobalPhone(table, item.phone.value))
      && !fault.InsertFails?
  {
    if fault.LookupFails? && fault.code != NoRowsCode then table
    else
      var existing := fault != LookupFails(NoRowsCode) && HasGlobalPhone(table, item.phone.value);
      if existing || fault.InsertFails? then table else table + [RowOf(item)]
  }

  /** The `for … of` loop: incomplete entries are skipped, a null entry ends
      the loop, every other entry takes one step. */
  function Run(table: seq<GlobalContact>, items: seq<SeedItem>, faults: seq<Fault>): seq<GlobalContact>
    decreases |items|
  {
    if items == [] then table
    else if items[0].NullItem? then table
    else if !Complete(items[0]) then Run(table, items[1..], Rest(faults))
    else Run(Step(table, items[0], Head(faults)), items[1..], Rest(faults))
  }

  /** `setupGlobalContacts`. */
  function Seed(table: seq<GlobalContact>, source: SeedSource, faults: seq<Fault>): (t: seq<GlobalContact>)
    ensures !source.List? || source.items == [] ==> t == table
  {
    match source
    case List(items) => if items == [] then table else Run(table, items, faults)
    case _ => table
  }

  // ---------------------------------------------------------------------------
  // What a run does
  // ---------------------------------------------------------------------------

  /** Seeding only appends: every row already in the table stays, in place. */
  lemma {:induction false} RunOnlyAppends(table: seq<GlobalContact>, items: seq<SeedItem>, faults: seq<Fault>)
    ensures table <= Run(table, items, faults)
    decreases |items|
  {
    if items != [] && !items[0].NullItem? {
      if Complete(items[0]) {
        RunOnlyAppends(Step(table, items[0], Head(faults)), items[1..], Rest(faults));
      } else {
        RunOnlyAppends(table, items[1..], Rest(faults));
      }
    }
  }

  /** The row of some complete entry of the list. */
  predicate FromEntry(row: GlobalContact, items: seq<SeedItem>) {
    exists i :: 0 <= i < |items| && Complete(items[i]) && row == RowOf(items[i])
  }

  /** Every appended row is the row of a complete entry of the list: an entry
      without a name or a phone never reaches the table. */
  lemma {:induction false} AppendedRowsComeFromCompleteEntries(table: seq<GlobalContact>, items: seq<SeedItem>, faults: seq<Fault>)
    ensures |table| <= |Run(table, items, faults)|
    ensures forall k :: |table| <= k < |Run(table, items, faults)| ==> FromEntry(Run(table, items, faults)[k], items)
    decreases |items|
  {
    RunOnlyAppends(table, items, faults);
    if items != [] && !items[0].NullItem? {
      var t := Run(table, items, faults);
      var next := if Complete(items[0]) then Step(table, items[0], Head(faults)) else table;
      assert t == Run(next, items[1..], Rest(faults));
      AppendedRowsComeFromCompleteEntries(next, items[1..], Rest(faults));
      RunOnlyAppends(next, items[1..], Rest(faults));
      forall k | |table| <= k < |t|
        ensures FromEntry(t[k], items)
      {
        if k < |next| {
          assert next != table && next == table + [RowOf(items[0])];
          assert t[k] == next[k] == RowOf(items[0]);
        } else {
          assert FromEntry(t[k], items[1..]);
          var i :| 0 <= i < |items[1..]| && Complete(items[1..][i]) && t[k] == RowOf(items[1..][i]);
          assert items[1..][i] == items[i + 1];
        }
      }
    }
  }

  /** No step in these answers is a tolerated lookup failure, the one answer
      that lets an entry be inserted without looking at the table. */
  predicate NoBlindInserts(faults: seq<Fault>) {
    forall i :: 0 <= i < |faults| ==> faults[i] != LookupFails(NoRowsCode)
  }

  /** No step in these answers skips an entry: no lookup fails with another
      code, no insert fails. */
  predicate NoSkips(faults: seq<Fault>) {
    forall i :: 0 <= i < |faults| ==>
      !(faults[i].LookupFails? && faults[i].code != NoRowsCode) && !faults[i].InsertFails?
  }

  predicate DistinctGlobalPhones(table: seq<GlobalContact>) {
    forall i, j :: 0 <= i < j < |table| ==> table[i].phone != table[j].phone
  }

  lemma RestKeeps(faults: seq<Fault>)
    ensures NoBlindInserts(faults) ==> NoBlindInserts(Rest(faults)) && Head(faults) != LookupFails(NoRowsCode)
    ensures NoSkips(faults) ==> NoSkips(Rest(faults))
    ensures NoSkips(faults) ==> !(Head(faults).LookupFails? && Head(faults).code != NoRowsCode) && !Head(faults).InsertFails?
  {
    if faults != [] {
      if NoBlindInserts(faults) {
        forall i | 0 <= i < |Rest(faults)| ensures Rest(faults)[i] != LookupFails(NoRowsCode) {
          assert Rest(faults)[i] == faults[i + 1];
        }
      }
      if NoSkips(faults) {
        forall i | 0 <= i < |Rest(faults)|
          ensures !(Rest(faults)[i].LookupFails? && Rest(faults)[i].code != NoRowsCode) && !Rest(faults)[i].InsertFails?
        {
          assert Rest(faults)[i] == faults[i + 1];
        }
      }
    }
  }

  /** When every lookup consults the table, no phone gets a second row: the
      phones of the table stay pairwise distinct, including across repeated
      phones within one seed list. */
  lemma {:induction false} RunKeepsPhonesDistinct(table: seq<GlobalContact>, items: seq<SeedItem>, faults: seq<Fault>)
    requires DistinctGlobalPhones(table) && NoBlindInserts(faults)
    ensures DistinctGlobalPhones(Run(table, items, faults))
    decreases |items|
  {
    if items != [] && !items[0].NullItem? {
      RestKeeps(faults);
      if Complete(items[0]) {
        var next := Step(table, items[0], Head(faults));
        if next != table {
          assert !HasGlobalPhone(table, items[0].phone.value);
          forall i, j | 0 <= i < j < |next|
            ensures next[i].phone != next[j].phone
          {
            if j == |table| {
              assert next[i] == table[i];
            } else {
              assert next[i] == table[i] && next[j] == table[j];
            }
          }
        }
        RunKeepsPhonesDistinct(next, items[1..], Rest(faults));
      } else {
        RunKeepsPhonesDistinct(table, items[1..], Rest(faults));
      }
    }
  }

  /** Every complete entry up to the first null entry has its phone in the
      table. */
  predicate Covered(table: seq<GlobalContact>, items: seq<SeedItem>)
    decreases |items|
  {
    if items == [] || items[0].NullItem? then true
    else (Complete(items[0]) ==> HasGlobalPhone(table, items[0].phone.value)) && Covered(table, items[1..])
  }

  lemma {:induction false} CoveredGrows(table: seq<GlobalContact>, bigger: seq<GlobalContact>, items: seq<SeedItem>)
    requires table <= bigger && Covered(table, items)
    ensures Covered(bigger, items)
    decreases |items|
  {
    if items != [] && !items[0].NullItem? {
      if Complete(items[0]) {
        var i :| 0 <= i < |table| && table[i].phone == items[0].phone.value;
        assert bigger[i] == table[i];
      }
      CoveredGrows(table, bigger, items[1..]);
    }
  }

  /** After a run whose lookups and inserts all succeed, every complete entry
      before the first null entry has its phone in the table. */
  lemma {:induction false} RunCovers(table: seq<GlobalContact>, items: seq<SeedItem>, faults: seq<Fault>)
    requires NoSkips(faults)
    ensures Covered(Run(table, items, faults), items)
    decreases |items|
  {
    if items != [] && !items[0].NullItem? {
      RestKeeps(faults);
      var next := if Complete(items[0]) then Step(table, items[0], Head(faults)) else table;
      var t := Run(next, items[1..], Rest(faults));
      RunCovers(next, items[1..], Rest(faults));
      RunOnlyAppends(next, items[1..], Rest(faults));
      if Complete(items[0]) {
        var p := items[0].phone.value;
        if next == table {
          assert HasGlobalPhone(next, p);
        } else {
          assert next[|table|].phone == p;
        }
        var i :| 0 <= i < |next| && next[i].phone == p;
        assert t[i] == next[i];
      }
    }
  }

  /** A run over entries whose phones are all present adds nothing, as long as
      every lookup consults the table. */
  lemma {:induction false} CoveredRunIsNoOp(table: seq<GlobalContact>, items: seq<SeedItem>, faults: seq<Fault>)
    requires Covered(table, items) && NoBlindInserts(faults)
    ensures Run(table, items, faults) == table
    decreases |items|
  {
    if items != [] && !items[0].NullItem? {
      RestKeeps(faults);
      CoveredRunIsNoOp(table, items[1..], Rest(faults));
    }
  }

  /** Seeding is idempotent: a second start-up with the same seed list adds
      nothing, provided the first run skipped no entry for a database error
      and the second run's lookups consult the table. */
  lemma SeedIdempotent(table: seq<GlobalContact>, source: SeedSource, first: seq<Fault>, second: seq<Fault>)
    requires NoSkips(first) && NoBlindInserts(second)
    ensures Seed(Seed(table, source, first), source, second) == Seed(table, source, first)
  {
    if source.List? && source.items != [] {
      RunCovers(table, source.items, first);
      CoveredRunIsNoOp(Seed(table, source, first), source.items, second);
    }
  }

  /** A database error on one entry skips only that entry: the loop goes on
      with the next one. */
  lemma FailureSkipsOnlyThatEntry(table: seq<GlobalContact>, items: seq<SeedItem>, faults: seq<Fault>)
    requires items != [] && Complete(items[0]) && faults != []
    requires (faults[0].LookupFails? && faults[0].code != NoRowsCode) || faults[0].InsertFails?
    ensures Run(table, items, faults) == Run(table, items[1..], faults[1..])
  {
  }

  /** Within one list, a later entry repeating the phone of an inserted entry
      is skipped. */
  lemma RepeatedPhoneInsertedOnce(table: seq<GlobalContact>, a: SeedItem, b: SeedItem)
    requires Complete(a) && Complete(b) && a.phone == b.phone
    requires !HasGlobalPhone(table, a.phone.value)
    ensures Run(table, [a, b], []) == table + [RowOf(a)]
  {
    var t := table + [RowOf(a)];
    assert Step(table, a, NoFault) == t;
    assert t[|table|].phone == b.phone.value;
    assert Step(t, b, NoFault) == t;
    assert [a, b][1..] == [b];
    assert [b][1..] == [];
    assert Run(t, [b], []) == Run(t, [], []);
  }
}
