/** The inventory of the staging directory as `find -printf "%P\0%y\0%u\0%m\0%n\0"` prints it and
    `_validate_remote_bundle` of scripts/deploy_release_remote.py reads it. */
module InventoryText {
  import opened Text

  datatype Meta = Meta(kind: string, owner: string, mode: string, links: string)

  datatype Row = Row(name: string, meta: Meta)

  const NUL := '\0'

  function RowFields(row: Row): seq<string> {
    [row.name, row.meta.kind, row.meta.owner, row.meta.mode, row.meta.links]
  }

  function Fields(rows: seq<Row>): seq<string> {
    if rows == [] then [] else Fields(rows[..|rows|-1]) + RowFields(rows[|rows|-1])
  }

  function RenderInventory(rows: seq<Row>): string {
    Terminate(Fields(rows), NUL)
  }

  // ----- reading -----

  /** The entries among the first `n` groups of five fields; nothing if a name comes twice. */
  function Entries(fields: seq<string>, n: nat): Option<map<string, Meta>>
    requires 5 * n <= |fields|
  {
    if n == 0 then Some(map[])
    else
      var before := Entries(fields, n - 1);
      var at := 5 * (n - 1);
      if before.None? || fields[at] in before.value then None
      else Some(before.value[fields[at] := Meta(fields[at+1], fields[at+2], fields[at+3], fields[at+4])])
  }

  function ReadInventory(stdout: string): Option<map<string, Meta>> {
    var fields := Split(stdout, NUL);
    var n := |fields| - 1;
    if fields[n] != "" || n % 5 != 0 then None else Entries(fields[..n], n / 5)
  }

  lemma {:induction false} EntriesStop(fields: seq<string>, i: nat, n: nat)
    requires i <= n && 5 * n <= |fields| && Entries(fields, i).None?
    ensures Entries(fields, n).None?
  {
    if i < n { EntriesStop(fields, i, n - 1); }
  }

  /** The loop that fills the dict of entries. */
  method ParseInventory(stdout: string) returns (r: Option<map<string, Meta>>)
    ensures r == ReadInventory(stdout)
  {
    var fields := Split(stdout, NUL);
    var n := |fields| - 1;
    if fields[n] != "" {
      return None;
    }
    fields := fields[..n];
    if |fields| % 5 != 0 {
      return None;
    }
    var entries: map<string, Meta> := map[];
    for i := 0 to n / 5
      invariant Entries(fields, i) == Some(entries)
    {
      var offset := 5 * i;
      if fields[offset] in entries {
        EntriesStop(fields, i + 1, n / 5);
        return None;
      }
      entries := entries[fields[offset] := Meta(fields[offset+1], fields[offset+2], fields[offset+3], fields[offset+4])];
    }
    return Some(entries);
  }

  // ----- reading what was printed -----

  ghost predicate Plain(fields: seq<string>) {
    forall i :: 0 <= i < |fields| ==> NUL !in fields[i]
  }

  ghost predicate DistinctNames(rows: seq<Row>) {
    forall i, j :: 0 <= i < j < |rows| ==> rows[i].name != rows[j].name
  }

  function Listing(rows: seq<Row>): map<string, Meta> {
    if rows == [] then map[] else Listing(rows[..|rows|-1])[rows[|rows|-1].name := rows[|rows|-1].meta]
  }

  lemma {:induction false} FieldsCount(rows: seq<Row>)
    ensures |Fields(rows)| == 5 * |rows|
  {
    if rows != [] { FieldsCount(rows[..|rows|-1]); }
  }

  lemma {:induction false} EntriesOfPrefix(fields: seq<string>, more: seq<string>, n: nat)
    requires 5 * n <= |fields|
    ensures Entries(fields + more, n) == Entries(fields, n)
  {
    if n > 0 { EntriesOfPrefix(fields, more, n - 1); }
  }

  lemma {:induction false} ListingFrom(rows: seq<Row>, s: string) returns (i: nat)
    requires s in Listing(rows)
    ensures i < |rows| && rows[i].name == s
  {
    i := |rows| - 1;
    if rows[i].name != s {
      i := ListingFrom(rows[..i], s);
    }
  }

  lemma {:induction false} ListingHas(rows: seq<Row>, i: nat)
    requires DistinctNames(rows) && i < |rows|
    ensures rows[i].name in Listing(rows) && Listing(rows)[rows[i].name] == rows[i].meta
  {
    var n := |rows| - 1;
    if i < n {
      ListingHas(rows[..n], i);
    }
  }

  lemma {:induction false} EntriesOfRows(rows: seq<Row>)
    requires DistinctNames(rows)
    ensures |Fields(rows)| == 5 * |rows| && Entries(Fields(rows), |rows|) == Some(Listing(rows))
  {
    FieldsCount(rows);
    if rows != [] {
      var n := |rows| - 1;
      var before, row := rows[..n], rows[n];
      EntriesOfRows(before);
      if row.name in Listing(before) {
        var i := ListingFrom(before, row.name);
      }
      EntriesOfPrefix(Fields(before), RowFields(row), n);
      assert Fields(rows) == Fields(before) + RowFields(row);
      assert Entries(Fields(rows), n) == Some(Listing(before));
      var at := 5 * n;
      assert Fields(rows)[at..] == RowFields(row);
      assert Fields(rows)[at] == row.name;
    }
  }

  /** Reading a printed inventory, in whatever order it lists the entries, gives the entries. */
  lemma InventoryRoundTrip(rows: seq<Row>)
    requires DistinctNames(rows) && Plain(Fields(rows))
    ensures ReadInventory(RenderInventory(rows)) == Some(Listing(rows))
  {
    hide Fields, Split, Entries, Listing;
    SplitTerminated(Fields(rows), NUL);
    EntriesOfRows(rows);
    var fields := Fields(rows);
    assert (fields + [""])[..|fields|] == fields;
  }
}
