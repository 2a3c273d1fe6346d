/**
 * `app/api/process/route.js`: the export pipeline. Rows of the first sheet
 * are filtered (`applyFilter`), projected onto the export columns
 * (`pickColumns`) or turned into vCard text (`buildVcf`), and `POST` runs
 * these steps behind a fixed sequence of validation guards, ending in a JSON
 * error, a preview, or a file to download.
 */
module ProcessRoute {
  import opened Wrappers
  import opened Strings
  import opened Seqs
  import opened Tabular

  // ============================================================ applyFilter

  /** Both sides of a comparison are lower-cased unless the match is case sensitive. */
  function Fold(s: string, caseSensitive: bool): string
  {
    if caseSensitive then s else AsciiLower(s)
  }

  /** One filter column's test: `a === b` for match type `exact`, `a.includes(b)` for any other. */
  predicate CellMatches(cell: string, filterValue: string, matchType: string, caseSensitive: bool)
  {
    var a := Fold(cell, caseSensitive);
    var b := Fold(filterValue, caseSensitive);
    if matchType == "exact" then a == b else Contains(a, b)
  }

  /** `filterColumns.some(...)`: at least one filter column's cell matches. */
  predicate RowMatches(row: Row, filterColumns: seq<string>, filterValue: string, matchType: string, caseSensitive: bool)
  {
    exists c | c in filterColumns :: CellMatches(Cell(row, c), filterValue, matchType, caseSensitive)
  }

  function KeepRow(filterColumns: seq<string>, filterValue: string, matchType: string, caseSensitive: bool): Row -> bool
  {
    row => RowMatches(row, filterColumns, filterValue, matchType, caseSensitive)
  }

  /** Filtering is opt-in: it is off when no column is chosen or the query is empty. */
  predicate FilterActive(filterColumns: seq<string>, filterValue: string)
  {
    |filterColumns| > 0 && filterValue != ""
  }

  /** `applyFilter`: the rows that pass, in input order; all rows when the filter is off. */
  function ApplyFilter(rows: seq<Row>, filterColumns: seq<string>, filterValue: string, matchType: string, caseSensitive: bool): (r: seq<Row>)
    ensures !FilterActive(filterColumns, filterValue) ==> r == rows
    ensures FilterActive(filterColumns, filterValue) ==>
      forall i :: 0 <= i < |r| ==> RowMatches(r[i], filterColumns, filterValue, matchType, caseSensitive)
    ensures |r| <= |rows|
  {
    if !FilterActive(filterColumns, filterValue) then rows
    else Filter(rows, KeepRow(filterColumns, filterValue, matchType, caseSensitive))
  }

  /** With the filter on, a row is in the result exactly when it is an input row that some filter column matches. */
  lemma ApplyFilterMember(rows: seq<Row>, filterColumns: seq<string>, filterValue: string, matchType: string, caseSensitive: bool, row: Row)
    requires FilterActive(filterColumns, filterValue)
    ensures row in ApplyFilter(rows, filterColumns, filterValue, matchType, caseSensitive) <==>
      row in rows && RowMatches(row, filterColumns, filterValue, matchType, caseSensitive)
  {
    FilterMember(rows, KeepRow(filterColumns, filterValue, matchType, caseSensitive), row);
  }

  lemma {:induction false} SubsequenceOfItself<T>(s: seq<T>)
    ensures IsSubsequence(s, s)
  {
    if |s| > 0 {
      SubsequenceOfItself(s[1..]);
    }
  }

  /** The result is the input with some rows left out and the rest in their original order. */
  lemma ApplyFilterSubsequence(rows: seq<Row>, filterColumns: seq<string>, filterValue: string, matchType: string, caseSensitive: bool)
    ensures IsSubsequence(ApplyFilter(rows, filterColumns, filterValue, matchType, caseSensitive), rows)
  {
    if !FilterActive(filterColumns, filterValue) {
      SubsequenceOfItself(rows);
    }
  }

  /** The filter is stable: filtering a concatenation filters each part and keeps them in order. */
  lemma ApplyFilterAppend(a: seq<Row>, b: seq<Row>, filterColumns: seq<string>, filterValue: string, matchType: string, caseSensitive: bool)
    ensures ApplyFilter(a + b, filterColumns, filterValue, matchType, caseSensitive) ==
      ApplyFilter(a, filterColumns, filterValue, matchType, caseSensitive) + ApplyFilter(b, filterColumns, filterValue, matchType, caseSensitive)
  {
    if FilterActive(filterColumns, filterValue) {
      FilterAppend(a, b, KeepRow(filterColumns, filterValue, matchType, caseSensitive));
    }
  }

  /** Filtering twice with the same settings is the same as filtering once. */
  lemma ApplyFilterIdempotent(rows: seq<Row>, filterColumns: seq<string>, filterValue: string, matchType: string, caseSensitive: bool)
    ensures ApplyFilter(ApplyFilter(rows, filterColumns, filterValue, matchType, caseSensitive), filterColumns, filterValue, matchType, caseSensitive) ==
      ApplyFilter(rows, filterColumns, filterValue, matchType, caseSensitive)
  {
    if FilterActive(filterColumns, filterValue) {
      FilterIdempotent(rows, KeepRow(filterColumns, filterValue, matchType, caseSensitive));
    }
  }

  /** Without case sensitivity, only the lower-case forms of the cell and of the query matter. */
  lemma CaseInsensitiveMatchIgnoresCase(cell: string, cell': string, filterValue: string, filterValue': string, matchType: string)
    requires AsciiLower(cell) == AsciiLower(cell') && AsciiLower(filterValue) == AsciiLower(filterValue')
    ensures CellMatches(cell, filterValue, matchType, false) == CellMatches(cell', filterValue', matchType, false)
  {
  }

  /** A cell the row does not have compares as the empty string, so it never matches a non-empty query. */
  lemma MissingCellsNeverMatch(row: Row, filterColumns: seq<string>, filterValue: string, matchType: string, caseSensitive: bool)
    requires filterValue != ""
    requires forall c :: c in filterColumns ==> c !in row.cells
    ensures !RowMatches(row, filterColumns, filterValue, matchType, caseSensitive)
  {
    forall c | c in filterColumns
      ensures !CellMatches(Cell(row, c), filterValue, matchType, caseSensitive)
    {
      assert Cell(row, c) == "";
      assert |Fold(filterValue, caseSensitive)| > 0;
      assert Fold("", caseSensitive) == "";
    }
  }

  // ============================================================ pickColumns

  /** The position of the first occurrence of `c` in `cols`. */
  function FirstIndex(cols: seq<string>, c: string): (k: nat)
    requires c in cols
    ensures k < |cols| && cols[k] == c
    ensures forall i :: 0 <= i < k ==> cols[i] != c
  {
    if cols[0] == c then 0 else 1 + FirstIndex(cols[1..], c)
  }

  /** Appending an element leaves the first positions of the earlier elements where they were. */
  lemma FirstIndexAppend(init: seq<string>, c: string, x: string)
    requires x in init
    ensures FirstIndex(init + [c], x) == FirstIndex(init, x)
  {
    var k := FirstIndex(init, x);
    var k' := FirstIndex(init + [c], x);
    assert (init + [c])[k] == x;
  }

  /**
   * The keys of an object filled by assigning `cols` in order: every column
   * once, ordered by its first assignment.
   */
  function FirstOccurrences(cols: seq<string>): (r: seq<string>)
    ensures forall c :: c in r <==> c in cols
    ensures forall i, j :: 0 <= i < j < |r| ==> r[i] != r[j]
    ensures forall i, j :: 0 <= i < j < |r| ==> FirstIndex(cols, r[i]) < FirstIndex(cols, r[j])
  {
    if |cols| == 0 then []
    else
      var init := cols[..|cols| - 1];
      var d := FirstOccurrences(init);
      var c := cols[|cols| - 1];
      assert init + [c] == cols;
      assert forall x :: x in d ==> FirstIndex(cols, x) == FirstIndex(init, x) by {
        forall x | x in d ensures FirstIndex(cols, x) == FirstIndex(init, x) {
          FirstIndexAppend(init, c, x);
        }
      }
      if c in d then d
      else
        assert FirstIndex(cols, c) == |cols| - 1;
        d + [c]
  }

  /** One more assigned column is a new last key, unless it is already a key. */
  lemma FirstOccurrencesStep(cols: seq<string>)
    requires |cols| > 0
    ensures var init, c := cols[..|cols| - 1], cols[|cols| - 1];
      FirstOccurrences(cols) == if c in FirstOccurrences(init) then FirstOccurrences(init) else FirstOccurrences(init) + [c]
  {
  }

  /** A list without repetitions is its own list of first occurrences. */
  lemma {:induction false} FirstOccurrencesOfDistinct(cols: seq<string>)
    requires forall i, j :: 0 <= i < j < |cols| ==> cols[i] != cols[j]
    ensures FirstOccurrences(cols) == cols
  {
    if |cols| > 0 {
      var n := |cols| - 1;
      var init, c := cols[..n], cols[n];
      assert forall i, j :: 0 <= i < j < |init| ==> init[i] != init[j] by {
        forall i, j | 0 <= i < j < |init| ensures init[i] != init[j] {
          assert init[i] == cols[i] && init[j] == cols[j];
        }
      }
      FirstOccurrencesOfDistinct(init);
      var d := FirstOccurrences(init);
      assert c !in d by {
        forall i | 0 <= i < n ensures init[i] != c {
          assert init[i] == cols[i];
        }
      }
      FirstOccurrencesStep(cols);
      assert FirstOccurrences(cols) == d + [c];
      assert d + [c] == cols;
    }
  }

  /** The object one row becomes in `pickColumns`. */
  function PickRow(row: Row, exportColumns: seq<string>): Row
  {
    Row(FirstOccurrences(exportColumns), PickedCells(row, exportColumns))
  }

  /** The values of a picked row: every export column, with the row's cell or `''`. */
  function PickedCells(row: Row, exportColumns: seq<string>): map<string, string>
  {
    map c | c in exportColumns :: Cell(row, c)
  }

  /** What `pickColumns` returns: one picked row per input row, in order. */
  function Projection(rows: seq<Row>, exportColumns: seq<string>): seq<Row>
  {
    seq(|rows|, i requires 0 <= i < |rows| => PickRow(rows[i], exportColumns))
  }

  /**
   * The projection keeps the row count and order; each row has exactly the
   * export columns as keys, in the order they were listed, and each value is
   * the source cell or `''` when the source row lacks that column.
   */
  lemma ProjectionShape(rows: seq<Row>, exportColumns: seq<string>)
    ensures |Projection(rows, exportColumns)| == |rows|
    ensures forall i :: 0 <= i < |rows| ==>
      var p := Projection(rows, exportColumns)[i];
      && p.cells.Keys == (set c | c in exportColumns)
      && (forall c :: c in exportColumns && c in rows[i].cells ==> p.cells[c] == rows[i].cells[c])
      && (forall c :: c in exportColumns && c !in rows[i].cells ==> p.cells[c] == "")
      && (forall c :: c in p.keys <==> c in exportColumns)
    ensures (forall i, j :: 0 <= i < j < |exportColumns| ==> exportColumns[i] != exportColumns[j]) ==>
      forall i :: 0 <= i < |rows| ==> Projection(rows, exportColumns)[i].keys == exportColumns
  {
    if forall i, j :: 0 <= i < j < |exportColumns| ==> exportColumns[i] != exportColumns[j] {
      FirstOccurrencesOfDistinct(exportColumns);
    }
  }

  /** Projecting the first `k` rows gives the first `k` projected rows. */
  lemma ProjectionPrefix(rows: seq<Row>, exportColumns: seq<string>, k: nat)
    requires k <= |rows|
    ensures Projection(rows[..k], exportColumns) == Projection(rows, exportColumns)[..k]
  {
  }

  /** Projecting one more row appends its picked row. */
  lemma ProjectionStep(rows: seq<Row>, exportColumns: seq<string>, i: nat)
    requires i < |rows|
    ensures Projection(rows[..i + 1], exportColumns) == Projection(rows[..i], exportColumns) + [PickRow(rows[i], exportColumns)]
  {
    SliceStep(rows, i);
  }

  /** Assigning one more column extends the key list only when the column is new. */
  lemma KeysStep(cols: seq<string>, j: nat)
    requires j < |cols|
    ensures FirstOccurrences(cols[..j + 1]) ==
      if cols[j] in cols[..j] then FirstOccurrences(cols[..j]) else FirstOccurrences(cols[..j]) + [cols[j]]
  {
    assert cols[..j + 1][..j] == cols[..j];
  }

  /** Assigning one more column sets its value and keeps the others. */
  lemma CellsStep(row: Row, cols: seq<string>, j: nat)
    requires j < |cols|
    ensures PickedCells(row, cols[..j + 1]) == PickedCells(row, cols[..j])[cols[j] := Cell(row, cols[j])]
  {
    SliceStep(cols, j);
  }

  /** One turn of the inner loop of `pickColumns` keeps its invariants. */
  lemma PickStep(row: Row, cols: seq<string>, j: nat, keys: seq<string>, cells: map<string, string>)
    requires j < |cols|
    requires keys == FirstOccurrences(cols[..j]) && cells == PickedCells(row, cols[..j])
    ensures (if cols[j] !in cells then keys + [cols[j]] else keys) == FirstOccurrences(cols[..j + 1])
    ensures cells[cols[j] := Cell(row, cols[j])] == PickedCells(row, cols[..j + 1])
  {
    KeysStep(cols, j);
    CellsStep(row, cols, j);
  }

  /** `pickColumns`: the loops over rows and over export columns, filling `picked` one key at a time. */
  method PickColumns(rows: seq<Row>, exportColumns: seq<string>) returns (picked: seq<Row>)
    ensures picked == Projection(rows, exportColumns)
  {
    picked := [];
    for i := 0 to |rows|
      invariant picked == Projection(rows[..i], exportColumns)
    {
      var row := rows[i];
      var keys: seq<string> := [];
      var cells: map<string, string> := map[];
      for j := 0 to |exportColumns|
        invariant keys == FirstOccurrences(exportColumns[..j])
        invariant cells == PickedCells(row, exportColumns[..j])
      {
        var col := exportColumns[j];
        PickStep(row, exportColumns, j, keys, cells);
        if col !in cells {
          keys := keys + [col];
        }
        cells := cells[col := Cell(row, col)];
      }
      assert exportColumns[..|exportColumns|] == exportColumns;
      assert Row(keys, cells) == PickRow(row, exportColumns);
      ProjectionStep(rows, exportColumns, i);
      picked := picked + [Row(keys, cells)];
    }
    assert rows[..|rows|] == rows;
  }

  // =============================================================== buildVcf

  /** `/name|full.?name|contact/i`: a header that names a person. */
  predicate IsNameHeader(key: string)
  {
    var k := AsciiLower(key);
    Contains(k, "name") || OptionalGap(k, "full", "name") || Contains(k, "contact")
  }

  /** The `full.?name` alternative adds nothing: the pattern accepts exactly the headers containing `name` or `contact`, in any ASCII case. */
  lemma NameHeaderTokens(key: string)
    ensures IsNameHeader(key) <==> Contains(AsciiLower(key), "name") || Contains(AsciiLower(key), "contact")
  {
    if OptionalGap(AsciiLower(key), "full", "name") {
      OptionalGapContainsSecond(AsciiLower(key), "full", "name");
    }
  }

  /** `Object.keys(row).filter(...)`: the row's name-like keys, in key order. */
  function NameKeys(row: Row): seq<string>
  {
    Filter(row.keys, IsNameHeader)
  }

  /** The base name: the trimmed value under the first name-like key when that is not blank, else `Contact{index + 1}`. */
  function BaseName(row: Row, index: nat): string
  {
    var nameKeys := NameKeys(row);
    if |nameKeys| > 0 && Trim(Cell(row, nameKeys[0])) != "" then Trim(Cell(row, nameKeys[0]))
    else "Contact" + NatToDecimal(index + 1)
  }

  /** `pre`: the trimmed prefix and a space, only when the prefix is not empty before trimming. */
  function NamePrefix(prefix: string): string
  {
    if prefix != "" then Trim(prefix) + " " else ""
  }

  /** `suf`: a space and the trimmed suffix, only when the suffix is not empty before trimming. */
  function NameSuffix(suffix: string): string
  {
    if suffix != "" then " " + Trim(suffix) else ""
  }

  /** `nameValue` of the row at position `index` of the rows being exported. */
  function DisplayName(row: Row, index: nat, prefix: string, suffix: string): string
  {
    NamePrefix(prefix) + BaseName(row, index) + NameSuffix(suffix)
  }

  /**
   * Only the first name-like key in key order counts: its trimmed value when
   * that is not blank, and otherwise `Contact{index + 1}`, whatever later
   * name-like keys hold; the same when the row has no name-like key.
   */
  lemma BaseNameUsesFirstNameKey(row: Row, index: nat)
    ensures forall j :: IsFirstPassing(row.keys, IsNameHeader, j) && Trim(Cell(row, row.keys[j])) != "" ==>
      BaseName(row, index) == Trim(Cell(row, row.keys[j]))
    ensures (forall j :: IsFirstPassing(row.keys, IsNameHeader, j) ==> Trim(Cell(row, row.keys[j])) == "") ==>
      BaseName(row, index) == "Contact" + NatToDecimal(index + 1)
    ensures BaseName(row, index) != "" && Trim(BaseName(row, index)) == BaseName(row, index)
  {
    FilterHead(row.keys, IsNameHeader);
    var b := BaseName(row, index);
    TrimUnchanged(b);
  }

  /** The two rows of the worked example: `Name` is a name-like key, and a blank name falls back to the row's 1-based position. */
  lemma NameHeaderExamples()
    ensures IsNameHeader("Name")
    ensures !IsNameHeader("Phone")
  {
    assert AsciiLower("Name") == "name";
    assert OccursAt("name", "name", 0);
    var k := AsciiLower("Phone");
    assert k == "phone";
    NotContainsChar(k, "name", 1);
    NotContainsChar(k, "contact", 0);
    NotContainsChar(k, "full", 0);
    if OptionalGap(k, "full", "name") {
      OptionalGapContainsFirst(k, "full", "name");
    }
  }

  lemma NameKeysExample(cells: map<string, string>)
    ensures NameKeys(Row(["Name", "Phone"], cells)) == ["Name"]
  {
    NameHeaderExamples();
    var keys := ["Name", "Phone"];
    assert keys[1..] == ["Phone"];
    assert Filter(["Phone"], IsNameHeader) == [];
  }

  lemma NamesOfWorkedExample()
    ensures BaseName(Row(["Name", "Phone"], map["Name" := "Ann", "Phone" := "555-1"]), 0) == "Ann"
    ensures BaseName(Row(["Name", "Phone"], map["Name" := "", "Phone" := "555-2"]), 1) == "Contact2"
  {
    var r0 := Row(["Name", "Phone"], map["Name" := "Ann", "Phone" := "555-1"]);
    var r1 := Row(["Name", "Phone"], map["Name" := "", "Phone" := "555-2"]);
    NameKeysExample(r0.cells);
    NameKeysExample(r1.cells);
    assert Cell(r0, "Name") == "Ann";
    assert Cell(r1, "Name") == "";
    TrimUnchanged("Ann");
    assert Trim("") == "";
    assert NatToDecimal(1 + 1) == "2";
  }

  /** A whitespace-only prefix trims to nothing but still contributes its separating space; an empty one contributes nothing. */
  lemma AffixesDependOnUntrimmedText(prefix: string, suffix: string)
    ensures prefix == "" ==> NamePrefix(prefix) == ""
    ensures suffix == "" ==> NameSuffix(suffix) == ""
    ensures prefix != "" && (forall i :: 0 <= i < |prefix| ==> IsJsWhitespace(prefix[i])) ==> NamePrefix(prefix) == " "
    ensures suffix != "" && (forall i :: 0 <= i < |suffix| ==> IsJsWhitespace(suffix[i])) ==> NameSuffix(suffix) == " "
  {
  }

  /** One vCard's worth of data: the formatted name and the phone number. */
  datatype Contact = Contact(name: string, phone: string)

  /** The trimmed values of a row's phone columns, in phone-column order. */
  function Phones(row: Row, phoneColumns: seq<string>): (r: seq<string>)
    ensures |r| == |phoneColumns|
  {
    seq(|phoneColumns|, j requires 0 <= j < |phoneColumns| => Trim(Cell(row, phoneColumns[j])))
  }

  /** The cards of one row: one per non-blank phone value, in order, all under the row's name. */
  function RowContacts(name: string, phones: seq<string>): seq<Contact>
  {
    if |phones| == 0 then []
    else
      var phone := phones[|phones| - 1];
      RowContacts(name, phones[..|phones| - 1]) + (if phone != "" then [Contact(name, phone)] else [])
  }

  /** The display name of every row, each named by its position among `rows`. */
  function Names(rows: seq<Row>, prefix: string, suffix: string): (r: seq<string>)
    ensures |r| == |rows|
  {
    seq(|rows|, i requires 0 <= i < |rows| => DisplayName(rows[i], i, prefix, suffix))
  }

  /** The cards of each row, under that row's name. */
  function RowGroups(rows: seq<Row>, names: seq<string>, phoneColumns: seq<string>): (r: seq<seq<Contact>>)
    requires |names| == |rows|
    ensures |r| == |rows|
  {
    seq(|rows|, i requires 0 <= i < |rows| => RowContacts(names[i], Phones(rows[i], phoneColumns)))
  }

  /** The cards of all rows, row by row. */
  function Contacts(rows: seq<Row>, names: seq<string>, phoneColumns: seq<string>): seq<Contact>
    requires |names| == |rows|
  {
    Flatten(RowGroups(rows, names, phoneColumns))
  }

  /** Phone value `j` is not blank and `c` is the card made from it. */
  predicate RowCardAt(name: string, phones: seq<string>, j: int, c: Contact)
  {
    0 <= j < |phones| && phones[j] != "" && c == Contact(name, phones[j])
  }

  /** The card for row `i` and phone column `j` exists and is `c`. */
  predicate CardFor(rows: seq<Row>, names: seq<string>, phoneColumns: seq<string>, i: int, j: int, c: Contact)
  {
    0 <= i < |rows| && i < |names| && RowCardAt(names[i], Phones(rows[i], phoneColumns), j, c)
  }

  lemma RowContactsAppend(name: string, phones: seq<string>, phone: string)
    ensures RowContacts(name, phones + [phone]) ==
      RowContacts(name, phones) + (if phone != "" then [Contact(name, phone)] else [])
  {
    assert (phones + [phone])[..|phones|] == phones;
  }

  /** The groups of one more row are the earlier groups and that row's group. */
  lemma RowGroupsStep(rows: seq<Row>, names: seq<string>, phoneColumns: seq<string>, i: nat)
    requires |names| == |rows| && i < |rows|
    ensures RowGroups(rows[..i + 1], names[..i + 1], phoneColumns) ==
      RowGroups(rows[..i], names[..i], phoneColumns) + [RowContacts(names[i], Phones(rows[i], phoneColumns))]
  {
    var longer := RowGroups(rows[..i + 1], names[..i + 1], phoneColumns);
    var shorter := RowGroups(rows[..i], names[..i], phoneColumns);
    var last := RowContacts(names[i], Phones(rows[i], phoneColumns));
    forall k | 0 <= k < i + 1 ensures longer[k] == (shorter + [last])[k] {
      if k < i {
        assert rows[..i + 1][k] == rows[..i][k];
        assert names[..i + 1][k] == names[..i][k];
      }
    }
    assert longer == shorter + [last];
  }

  /** Adding one more row adds that row's cards at the end. */
  lemma ContactsStep(rows: seq<Row>, names: seq<string>, phoneColumns: seq<string>, i: nat)
    requires |names| == |rows| && i < |rows|
    ensures Contacts(rows[..i + 1], names[..i + 1], phoneColumns) ==
      Contacts(rows[..i], names[..i], phoneColumns) + RowContacts(names[i], Phones(rows[i], phoneColumns))
  {
    RowGroupsStep(rows, names, phoneColumns, i);
    FlattenAppend(RowGroups(rows[..i], names[..i], phoneColumns), RowContacts(names[i], Phones(rows[i], phoneColumns)));
  }

  lemma {:induction false} RowContactsMember(name: string, phones: seq<string>, c: Contact)
    ensures c in RowContacts(name, phones) <==> exists j :: RowCardAt(name, phones, j, c)
    decreases |phones|
  {
    if |phones| > 0 {
      var n := |phones| - 1;
      var init := phones[..n];
      RowContactsMember(name, init, c);
      assert forall j :: RowCardAt(name, init, j, c) ==> RowCardAt(name, phones, j, c);
      if exists j :: RowCardAt(name, phones, j, c) {
        var j :| RowCardAt(name, phones, j, c);
        if j < n {
          assert RowCardAt(name, init, j, c);
        }
      }
      if phones[n] != "" && c == Contact(name, phones[n]) {
        assert RowCardAt(name, phones, n, c);
      }
    }
  }

  /** A phone value that yields a card. */
  predicate NonBlank(s: string)
  {
    s != ""
  }

  /** The cards of one row are the non-blank phone values in phone-column order, one card each, under the row's name. */
  lemma {:induction false} RowContactsInOrder(name: string, phones: seq<string>)
    ensures var kept := Filter(phones, NonBlank);
      RowContacts(name, phones) == seq(|kept|, k requires 0 <= k < |kept| => Contact(name, kept[k]))
  {
    if |phones| > 0 {
      var n := |phones| - 1;
      var init := phones[..n];
      RowContactsInOrder(name, init);
      assert phones == init + [phones[n]];
      FilterAppend(init, [phones[n]], NonBlank);
      assert [phones[n]][1..] == [];
    }
  }

  /** A contact is emitted exactly when some (row, phone column) pair yields it: the row's name with that column's non-blank trimmed phone. */
  lemma ContactsMember(rows: seq<Row>, names: seq<string>, phoneColumns: seq<string>, c: Contact)
    requires |names| == |rows|
    ensures c in Contacts(rows, names, phoneColumns) <==> exists i, j :: CardFor(rows, names, phoneColumns, i, j, c)
  {
    var groups := RowGroups(rows, names, phoneColumns);
    FlattenMember(groups, c);
    if c in Contacts(rows, names, phoneColumns) {
      var i :| 0 <= i < |groups| && c in groups[i];
      RowContactsMember(names[i], Phones(rows[i], phoneColumns), c);
      var j :| RowCardAt(names[i], Phones(rows[i], phoneColumns), j, c);
      assert CardFor(rows, names, phoneColumns, i, j, c);
    }
    if exists i, j :: CardFor(rows, names, phoneColumns, i, j, c) {
      var i, j :| CardFor(rows, names, phoneColumns, i, j, c);
      RowContactsMember(names[i], Phones(rows[i], phoneColumns), c);
      assert c in groups[i];
    }
  }

  /** The five lines of one card. */
  function CardLines(c: Contact): seq<string>
  {
    ["BEGIN:VCARD", "VERSION:3.0", "FN:" + c.name, "TEL;TYPE=CELL:" + c.phone, "END:VCARD"]
  }

  function CardText(c: Contact): string
  {
    Join(CardLines(c), CRLF)
  }

  function Cards(contacts: seq<Contact>): seq<string>
  {
    seq(|contacts|, i requires 0 <= i < |contacts| => CardText(contacts[i]))
  }

  lemma CardsAppend(a: seq<Contact>, b: seq<Contact>)
    ensures Cards(a + b) == Cards(a) + Cards(b)
  {
  }

  /** The cards `buildVcf` emits: those of every row under its display name. */
  function VcfContacts(rows: seq<Row>, phoneColumns: seq<string>, prefix: string, suffix: string): seq<Contact>
  {
    Contacts(rows, Names(rows, prefix, suffix), phoneColumns)
  }

  /** What `buildVcf` returns: the cards joined by CRLF. */
  function VcfText(rows: seq<Row>, phoneColumns: seq<string>, prefix: string, suffix: string): string
  {
    Join(Cards(VcfContacts(rows, phoneColumns, prefix, suffix)), CRLF)
  }

  lemma {:induction false} JoinOfNonEmpty(xs: seq<string>, sep: string)
    requires forall i :: 0 <= i < |xs| ==> xs[i] != ""
    ensures Join(xs, sep) == "" <==> xs == []
  {
    if |xs| > 1 {
      JoinOfNonEmpty(xs[1..], sep);
    }
  }

  /** The text is empty exactly when no (row, phone column) pair has a non-blank phone. */
  lemma VcfTextEmpty(rows: seq<Row>, phoneColumns: seq<string>, prefix: string, suffix: string)
    ensures VcfText(rows, phoneColumns, prefix, suffix) == "" <==>
      forall i, j :: 0 <= i < |rows| && 0 <= j < |phoneColumns| ==> Trim(Cell(rows[i], phoneColumns[j])) == ""
  {
    var names := Names(rows, prefix, suffix);
    var cs := Contacts(rows, names, phoneColumns);
    JoinOfNonEmpty(Cards(cs), CRLF);
    if cs != [] {
      ContactsMember(rows, names, phoneColumns, cs[0]);
      var i, j :| CardFor(rows, names, phoneColumns, i, j, cs[0]);
      assert Phones(rows[i], phoneColumns)[j] == Trim(Cell(rows[i], phoneColumns[j]));
    }
    forall i, j | 0 <= i < |rows| && 0 <= j < |phoneColumns| && Trim(Cell(rows[i], phoneColumns[j])) != ""
      ensures cs != []
    {
      var c := Contact(names[i], Trim(Cell(rows[i], phoneColumns[j])));
      assert CardFor(rows, names, phoneColumns, i, j, c);
      ContactsMember(rows, names, phoneColumns, c);
    }
  }

  /** A row whose single phone column holds `phone` (already trimmed) gives one card under its name. */
  lemma SinglePhoneRow(row: Row, name: string, phone: string)
    requires Cell(row, "Phone") == phone && phone != ""
    requires !IsJsWhitespace(phone[0]) && !IsJsWhitespace(phone[|phone| - 1])
    ensures RowContacts(name, Phones(row, ["Phone"])) == [Contact(name, phone)]
  {
    TrimUnchanged(phone);
    assert Phones(row, ["Phone"]) == [] + [phone];
    RowContactsAppend(name, [], phone);
  }

  lemma TwoRowContacts(r0: Row, r1: Row, n0: string, n1: string, phoneColumns: seq<string>)
    ensures Contacts([r0, r1], [n0, n1], phoneColumns) ==
      RowContacts(n0, Phones(r0, phoneColumns)) + RowContacts(n1, Phones(r1, phoneColumns))
  {
    var g0 := RowContacts(n0, Phones(r0, phoneColumns));
    var g1 := RowContacts(n1, Phones(r1, phoneColumns));
    var groups := RowGroups([r0, r1], [n0, n1], phoneColumns);
    assert groups == [g0, g1] by {
      assert groups[0] == g0 && groups[1] == g1;
    }
    assert Flatten([g0]) == g0 by {
      assert [g0] == [] + [g0];
      FlattenAppend([], g0);
    }
    assert [g0, g1] == [g0] + [g1];
    FlattenAppend([g0], g1);
  }

  /** Without affixes the display name is the base name. */
  lemma DisplayNameWithoutAffixes(row: Row, index: nat)
    ensures DisplayName(row, index, "", "") == BaseName(row, index)
  {
    assert NamePrefix("") == "" && NameSuffix("") == "";
    var b := BaseName(row, index);
    assert "" + b + "" == b;
  }

  /** The names of a two-row sheet. */
  lemma NamesOfTwoRows(r0: Row, r1: Row, prefix: string, suffix: string)
    ensures Names([r0, r1], prefix, suffix) == [DisplayName(r0, 0, prefix, suffix), DisplayName(r1, 1, prefix, suffix)]
  {
  }

  lemma WorkedExampleNames()
    ensures Names([Row(["Name", "Phone"], map["Name" := "Ann", "Phone" := "555-1"]),
                   Row(["Name", "Phone"], map["Name" := "", "Phone" := "555-2"])], "", "") == ["Ann", "Contact2"]
  {
    var r0 := Row(["Name", "Phone"], map["Name" := "Ann", "Phone" := "555-1"]);
    var r1 := Row(["Name", "Phone"], map["Name" := "", "Phone" := "555-2"]);
    NamesOfTwoRows(r0, r1, "", "");
    DisplayNameWithoutAffixes(r0, 0);
    DisplayNameWithoutAffixes(r1, 1);
    NamesOfWorkedExample();
  }

  /** With `Phone` as the phone column, the rows Ann/555-1 and blank/555-2 give the cards Ann/555-1 and Contact2/555-2. */
  lemma WorkedExampleContacts()
    ensures VcfContacts([Row(["Name", "Phone"], map["Name" := "Ann", "Phone" := "555-1"]),
                         Row(["Name", "Phone"], map["Name" := "", "Phone" := "555-2"])], ["Phone"], "", "") ==
            [Contact("Ann", "555-1"), Contact("Contact2", "555-2")]
  {
    var r0 := Row(["Name", "Phone"], map["Name" := "Ann", "Phone" := "555-1"]);
    var r1 := Row(["Name", "Phone"], map["Name" := "", "Phone" := "555-2"]);
    WorkedExampleNames();
    SinglePhoneRow(r0, "Ann", "555-1");
    SinglePhoneRow(r1, "Contact2", "555-2");
    TwoRowContacts(r0, r1, "Ann", "Contact2", ["Phone"]);
  }

  lemma SliceStep<T>(s: seq<T>, j: nat)
    requires j < |s|
    ensures s[..j + 1] == s[..j] + [s[j]]
  {
  }

  /** One more phone column adds its card, when its trimmed value is not blank. */
  lemma RowCardsStep(name: string, phones: seq<string>, j: nat)
    requires j < |phones|
    ensures Cards(RowContacts(name, phones[..j + 1])) ==
      Cards(RowContacts(name, phones[..j])) + (if phones[j] != "" then [CardText(Contact(name, phones[j]))] else [])
  {
    SliceStep(phones, j);
    RowContactsAppend(name, phones[..j], phones[j]);
    CardsAppend(RowContacts(name, phones[..j]), if phones[j] != "" then [Contact(name, phones[j])] else []);
  }

  /** One turn of the inner loop of `buildVcf` keeps its invariant. */
  lemma PushStep(entries: seq<string>, pushed: seq<string>, name: string, phones: seq<string>, j: nat)
    requires j < |phones|
    requires pushed == entries + Cards(RowContacts(name, phones[..j]))
    ensures phones[j] == "" ==> pushed == entries + Cards(RowContacts(name, phones[..j + 1]))
    ensures phones[j] != "" ==>
      pushed + [Join(["BEGIN:VCARD", "VERSION:3.0", "FN:" + name, "TEL;TYPE=CELL:" + phones[j], "END:VCARD"], CRLF)] ==
      entries + Cards(RowContacts(name, phones[..j + 1]))
  {
    RowCardsStep(name, phones, j);
  }

  /** The inner loop of `buildVcf`: one card per phone column of `row` whose trimmed value is not blank. */
  method PushRowCards(entries: seq<string>, nameValue: string, row: Row, phoneColumns: seq<string>) returns (pushed: seq<string>)
    ensures pushed == entries + Cards(RowContacts(nameValue, Phones(row, phoneColumns)))
  {
    pushed := entries;
    ghost var phones := Phones(row, phoneColumns);
    for j := 0 to |phoneColumns|
      invariant pushed == entries + Cards(RowContacts(nameValue, phones[..j]))
    {
      var phone := Trim(Cell(row, phoneColumns[j]));
      assert phone == phones[j];
      PushStep(entries, pushed, nameValue, phones, j);
      if phone != "" {
        var lines := ["BEGIN:VCARD", "VERSION:3.0", "FN:" + nameValue, "TEL;TYPE=CELL:" + phone, "END:VCARD"];
        pushed := pushed + [Join(lines, CRLF)];
      }
    }
    assert phones[..|phoneColumns|] == phones;
  }

  /** One turn of the outer loop of `buildVcf` appends that row's cards. */
  lemma RowStep(rows: seq<Row>, names: seq<string>, phoneColumns: seq<string>, i: nat)
    requires |names| == |rows| && i < |rows|
    ensures Cards(Contacts(rows[..i + 1], names[..i + 1], phoneColumns)) ==
      Cards(Contacts(rows[..i], names[..i], phoneColumns)) + Cards(RowContacts(names[i], Phones(rows[i], phoneColumns)))
  {
    ContactsStep(rows, names, phoneColumns, i);
    CardsAppend(Contacts(rows[..i], names[..i], phoneColumns), RowContacts(names[i], Phones(rows[i], phoneColumns)));
  }

  /** `buildVcf`: for each row its display name, then its cards; finally the cards joined by CRLF. */
  method BuildVcf(rows: seq<Row>, phoneColumns: seq<string>, prefix: string, suffix: string) returns (vcf: string)
    ensures vcf == VcfText(rows, phoneColumns, prefix, suffix)
  {
    var entries: seq<string> := [];
    var pre := NamePrefix(prefix);
    var suf := NameSuffix(suffix);
    ghost var names := Names(rows, prefix, suffix);
    for index := 0 to |rows|
      invariant entries == Cards(Contacts(rows[..index], names[..index], phoneColumns))
    {
      var row := rows[index];
      var nameValue := pre + BaseName(row, index) + suf;
      assert nameValue == names[index];
      RowStep(rows, names, phoneColumns, index);
      entries := PushRowCards(entries, nameValue, row, phoneColumns);
    }
    assert rows[..|rows|] == rows && names[..|rows|] == names;
    vcf := Join(entries, CRLF);
  }

  // =================================================================== POST

  /**
   * A column-list form field: absent (or empty), not valid JSON, valid JSON
   * that is not an array (a string, a number, `null`, an object), or a
   * parsed list of names.
   */
  datatype ColumnsField = Absent | Unparsable | NonList | ColumnList(columns: seq<string>)

  /** The form fields `POST` reads; a text field that is absent is the empty string. */
  datatype ProcessRequest = ProcessRequest(
    file: Option<Upload>,
    filterColumns: ColumnsField,
    exportColumns: ColumnsField,
    filterValue: string,
    matchType: string,
    caseSensitive: string,
    format: string,
    vcfPrefix: string,
    vcfSuffix: string,
    previewOnly: string)

  datatype ExportFormat = Csv | Xlsx | Vcf

  /** json2csv's `parse` with the given field list: the CSV text, or `None` when it throws. */
  type CsvEncoder = (seq<string>, seq<Row>) -> Option<string>

  const MaxPreviewRows: nat := 10

  const InvalidColumnsMessage: string := "Invalid column selection data."
  const NoExportColumnsMessage: string := "No export columns selected."
  const InvalidFormatMessage: string := "Invalid export format."
  const UnparsableMessage: string := "Could not parse the file. The file may be corrupted."
  const EmptyFileMessage: string := "The file is empty."
  const UnknownFilterPrefix: string := "Filter column(s) not found in file: "
  const UnknownExportPrefix: string := "Export column(s) not found in file: "
  const NoMatchMessage: string := "No rows matched the filter criteria."
  const CsvFailureMessage: string := "Failed to generate CSV output."
  const UnexpectedMessage: string := "An unexpected error occurred during processing."
  const VcardContentType: string := "text/vcard; charset=utf-8"
  const CsvContentType: string := "text/csv; charset=utf-8"
  const XlsxContentType: string := "application/vnd.openxmlformats-officedocument.spreadsheetml.sheet"

  /** `JSON.parse(formData.get(...) || '[]')` does not throw. */
  predicate Parses(field: ColumnsField)
  {
    !field.Unparsable?
  }

  /** The parsed value when it is an array (`Array.isArray`); an absent field parses as `[]`. */
  function ListOf(field: ColumnsField): Option<seq<string>>
  {
    match field
    case Absent => Some([])
    case ColumnList(cs) => Some(cs)
    case _ => None
  }

  /** `formData.get('format') || 'csv'`, then the membership test in `['csv', 'xlsx', 'vcf']`. */
  function ParseFormat(raw: string): Option<ExportFormat>
  {
    var format := if raw == "" then "csv" else raw;
    if format == "csv" then Some(Csv)
    else if format == "xlsx" then Some(Xlsx)
    else if format == "vcf" then Some(Vcf)
    else None
  }

  function IsPreview(req: ProcessRequest): bool
  {
    req.previewOnly == "true"
  }

  /** The checks made before the workbook is looked at: file, extension, column JSON, export columns, format. */
  predicate RequestChecksPass(req: ProcessRequest)
  {
    && req.file.Some?
    && AcceptedUploadName(req.file.value.name)
    && Parses(req.filterColumns)
    && Parses(req.exportColumns)
    && (IsPreview(req) || (ListOf(req.exportColumns).Some? && |ListOf(req.exportColumns).value| > 0))
    && ParseFormat(req.format).Some?
  }

  function UnknownIn(headers: seq<string>): string -> bool
  {
    c => c !in headers
  }

  /** `filteredRows.slice(0, 10)`. */
  function PreviewSlice(rows: seq<Row>): seq<Row>
  {
    if |rows| <= MaxPreviewRows then rows else rows[..MaxPreviewRows]
  }

  /** The suffix each format adds to the upload's base name. */
  function ExportSuffix(format: ExportFormat): string
  {
    match format
    case Csv => "_export.csv"
    case Xlsx => "_export.xlsx"
    case Vcf => "_export.vcf"
  }

  function ContentTypeOf(format: ExportFormat): string
  {
    match format
    case Csv => CsvContentType
    case Xlsx => XlsxContentType
    case Vcf => VcardContentType
  }

  /**
   * The export after filtering: the vCard text of the filtered rows, or their
   * projection as CSV or workbook. Only the CSV encoder can fail; every
   * download is named after the upload with its extension replaced.
   */
  function Export(filteredRows: seq<Row>, filename: string, exportColumns: seq<string>, format: ExportFormat,
                  vcfPrefix: string, vcfSuffix: string, csv: CsvEncoder): (r: Response)
    ensures r.status == 200 <==> r.body.FileBody?
    ensures r.status != 200 ==> format == Csv && r == JsonError(500, CsvFailureMessage)
    ensures r.body.FileBody? ==>
      && r.body.filename == StripExtension(filename) + ExportSuffix(format)
      && r.body.contentType == ContentTypeOf(format)
  {
    var baseFileName := StripExtension(filename);
    match format
    case Vcf =>
      Response(200, FileBody(Text(VcfText(filteredRows, exportColumns, vcfPrefix, vcfSuffix)), VcardContentType, baseFileName + "_export.vcf"))
    case Csv =>
      var exportRows := Projection(filteredRows, exportColumns);
      (match csv(exportColumns, exportRows)
       case None => JsonError(500, CsvFailureMessage)
       case Some(text) => Response(200, FileBody(Text(text), CsvContentType, baseFileName + "_export.csv")))
    case Xlsx =>
      var exportRows := Projection(filteredRows, exportColumns);
      Response(200, FileBody(XlsxWorkbook("Export", exportColumns, exportRows), XlsxContentType, baseFileName + "_export.xlsx"))
  }

  /** Everything from `sheet_to_json` on: the empty-sheet test, the column checks, filtering, then preview or export. */
  function ProcessRows(allRows: seq<Row>, filename: string, filterColumns: seq<string>, exportColumns: seq<string>,
                       filterValue: string, matchType: string, caseSensitive: bool, format: ExportFormat,
                       vcfPrefix: string, vcfSuffix: string, previewOnly: bool, csv: CsvEncoder): (r: Response)
    ensures r.status in {200, 400, 422, 500}
    ensures r.status == 200 <==> !r.body.ErrorBody?
    ensures r.body.PreviewBody? ==> previewOnly && |r.body.rows| <= MaxPreviewRows && |r.body.rows| <= r.body.total
    ensures r.body.FileBody? ==> !previewOnly && r.body.filename == StripExtension(filename) + ExportSuffix(format)
    ensures previewOnly ==> r.status in {200, 400}
    ensures !r.body.HeadersBody?
  {
    if |allRows| == 0 then
      EmptySheet(previewOnly)
    else
      var sheetHeaders := allRows[0].keys;
      var invalidFilterCols := Filter(filterColumns, UnknownIn(sheetHeaders));
      var invalidExportCols := Filter(exportColumns, UnknownIn(sheetHeaders));
      if |invalidFilterCols| > 0 then
        JsonError(400, UnknownFilterPrefix + Join(invalidFilterCols, ", "))
      else if |invalidExportCols| > 0 then
        JsonError(400, UnknownExportPrefix + Join(invalidExportCols, ", "))
      else
        var filteredRows := ApplyFilter(allRows, filterColumns, filterValue, matchType, caseSensitive);
        if previewOnly then
          var previewCols := if |exportColumns| > 0 then exportColumns else sheetHeaders;
          Response(200, PreviewBody(Projection(PreviewSlice(filteredRows), previewCols), |filteredRows|))
        else if |filteredRows| == 0 then
          JsonError(422, NoMatchMessage)
        else
          Export(filteredRows, filename, exportColumns, format, vcfPrefix, vcfSuffix, csv)
  }

  /** The answer for a sheet without data rows: an empty preview, or a 422 for an export. */
  function EmptySheet(previewOnly: bool): Response
  {
    if previewOnly then Response(200, PreviewBody([], 0)) else JsonError(422, EmptyFileMessage)
  }

  /** The first failing request check, in source order, as its 400 response. */
  function RequestError(req: ProcessRequest): (r: Response)
    requires !RequestChecksPass(req)
    ensures r.status == 400 && r.body.ErrorBody?
  {
    if req.file.None? then JsonError(400, NoFileMessage)
    else if !AcceptedUploadName(req.file.value.name) then JsonError(400, InvalidTypeMessage)
    else if !Parses(req.filterColumns) || !Parses(req.exportColumns) then
      JsonError(400, InvalidColumnsMessage)
    else if !IsPreview(req) && (ListOf(req.exportColumns).None? || |ListOf(req.exportColumns).value| == 0) then
      JsonError(400, NoExportColumnsMessage)
    else JsonError(400, InvalidFormatMessage)
  }

  /**
   * From `XLSX.read` on: an unreadable workbook, one without sheets, or the
   * rows of its first sheet. A column field that is not an array (`None`)
   * passes the empty-sheet test and then makes `.filter` throw, which the
   * outer catch turns into a 500.
   */
  function ProcessBook(book: Workbook, filename: string, filterColumns: Option<seq<string>>, exportColumns: Option<seq<string>>,
                       filterValue: string, matchType: string, caseSensitive: bool, format: ExportFormat,
                       vcfPrefix: string, vcfSuffix: string, previewOnly: bool, csv: CsvEncoder): (r: Response)
    ensures r.status in {200, 400, 422, 500}
    ensures r.status == 200 <==> !r.body.ErrorBody?
    ensures r.body.PreviewBody? ==> previewOnly && |r.body.rows| <= MaxPreviewRows && |r.body.rows| <= r.body.total
    ensures r.body.FileBody? ==> !previewOnly && r.body.filename == StripExtension(filename) + ExportSuffix(format)
    ensures !r.body.HeadersBody?
  {
    match book
    case Corrupt => JsonError(422, UnparsableMessage)
    case Book(sheets) =>
      if |sheets| == 0 then JsonError(422, NoSheetsMessage)
      else
        var allRows := sheets[0];
        if filterColumns.Some? && exportColumns.Some? then
          ProcessRows(allRows, filename, filterColumns.value, exportColumns.value, filterValue, matchType, caseSensitive,
                      format, vcfPrefix, vcfSuffix, previewOnly, csv)
        else if |allRows| == 0 then EmptySheet(previewOnly)
        else JsonError(500, UnexpectedMessage)
  }

  /** `POST /api/process`, without the transport; the catch-all 500 only where a column field is not an array. */
  function Process(req: ProcessRequest, csv: CsvEncoder): (r: Response)
    ensures r.status in {200, 400, 422, 500}
    ensures r.status == 200 <==> !r.body.ErrorBody?
    ensures !r.body.ErrorBody? ==> RequestChecksPass(req)
    ensures r.body.PreviewBody? ==> IsPreview(req) && |r.body.rows| <= MaxPreviewRows && |r.body.rows| <= r.body.total
    ensures r.body.FileBody? ==>
      && !IsPreview(req) && req.file.Some? && ParseFormat(req.format).Some?
      && r.body.filename == StripExtension(req.file.value.name) + ExportSuffix(ParseFormat(req.format).value)
    ensures !r.body.HeadersBody?
  {
    if !RequestChecksPass(req) then RequestError(req)
    else
      ProcessBook(req.file.value.book, req.file.value.name, ListOf(req.filterColumns),
                  ListOf(req.exportColumns), req.filterValue, req.matchType, req.caseSensitive == "true",
                  ParseFormat(req.format).value, req.vcfPrefix, req.vcfSuffix, IsPreview(req), csv)
  }

  /** The request with its upload's workbook replaced. */
  function WithBook(req: ProcessRequest, book: Workbook): ProcessRequest
    requires req.file.Some?
  {
    req.(file := Some(Upload(req.file.value.name, book)))
  }

  /** The five request checks come first, in source order, each with its 400 message. */
  lemma RequestGuards(req: ProcessRequest, csv: CsvEncoder)
    ensures req.file.None? ==> Process(req, csv) == JsonError(400, NoFileMessage)
    ensures req.file.Some? && !AcceptedUploadName(req.file.value.name) ==> Process(req, csv) == JsonError(400, InvalidTypeMessage)
    ensures (&& req.file.Some? && AcceptedUploadName(req.file.value.name)
             && (!Parses(req.filterColumns) || !Parses(req.exportColumns))) ==>
      Process(req, csv) == JsonError(400, InvalidColumnsMessage)
    ensures (&& req.file.Some? && AcceptedUploadName(req.file.value.name)
             && Parses(req.filterColumns) && Parses(req.exportColumns)
             && !IsPreview(req) && (ListOf(req.exportColumns).None? || ListOf(req.exportColumns).value == [])) ==>
      Process(req, csv) == JsonError(400, NoExportColumnsMessage)
    ensures (&& req.file.Some? && AcceptedUploadName(req.file.value.name)
             && Parses(req.filterColumns) && Parses(req.exportColumns)
             && (IsPreview(req) || (ListOf(req.exportColumns).Some? && ListOf(req.exportColumns).value != []))
             && ParseFormat(req.format).None?) ==>
      Process(req, csv) == JsonError(400, InvalidFormatMessage)
  {
    if !RequestChecksPass(req) {
      assert Process(req, csv) == RequestError(req);
    }
  }

  /** While a request check fails the answer is a 400, and the workbook is never looked at. */
  lemma RequestFailureIgnoresBook(req: ProcessRequest, csv: CsvEncoder, book: Workbook)
    requires req.file.Some? && !RequestChecksPass(req)
    ensures Process(req, csv).status == 400
    ensures Process(WithBook(req, book), csv) == Process(req, csv)
  {
    assert !RequestChecksPass(WithBook(req, book));
  }

  /** Once the request checks pass, an unreadable workbook and a workbook without sheets are 422, in that order. */
  lemma WorkbookGuards(req: ProcessRequest, csv: CsvEncoder)
    requires RequestChecksPass(req)
    ensures req.file.value.book.Corrupt? ==> Process(req, csv) == JsonError(422, UnparsableMessage)
    ensures req.file.value.book == Book([]) ==> Process(req, csv) == JsonError(422, NoSheetsMessage)
  {
  }

  /**
   * Once the request checks pass, the workbook has a sheet and both column
   * fields are arrays, the response is that of the rows of its first sheet.
   */
  lemma ProcessReadsFirstSheet(req: ProcessRequest, csv: CsvEncoder)
    requires RequestChecksPass(req) && req.file.value.book.Book? && |req.file.value.book.sheets| > 0
    requires ListOf(req.filterColumns).Some? && ListOf(req.exportColumns).Some?
    ensures Process(req, csv) ==
      ProcessRows(req.file.value.book.sheets[0], req.file.value.name, ListOf(req.filterColumns).value,
                  ListOf(req.exportColumns).value, req.filterValue, req.matchType, req.caseSensitive == "true",
                  ParseFormat(req.format).value, req.vcfPrefix, req.vcfSuffix, IsPreview(req), csv)
  {
  }

  /**
   * A column field that parses to something other than an array gets past
   * the request checks only in a preview, or as the filter field. It is
   * then answered for an empty sheet as any empty sheet is, and otherwise
   * with the catch-all 500 raised by `.filter` on a non-array.
   */
  lemma NonListColumns(req: ProcessRequest, csv: CsvEncoder)
    requires RequestChecksPass(req) && req.file.value.book.Book? && |req.file.value.book.sheets| > 0
    requires ListOf(req.filterColumns).None? || ListOf(req.exportColumns).None?
    ensures ListOf(req.exportColumns).None? ==> IsPreview(req)
    ensures Process(req, csv) ==
      if req.file.value.book.sheets[0] == [] then EmptySheet(IsPreview(req)) else JsonError(500, UnexpectedMessage)
  {
    var f := req.file.value;
    assert Process(req, csv) ==
      ProcessBook(f.book, f.name, ListOf(req.filterColumns), ListOf(req.exportColumns), req.filterValue, req.matchType,
                  req.caseSensitive == "true", ParseFormat(req.format).value, req.vcfPrefix, req.vcfSuffix, IsPreview(req), csv);
  }

  /** Only the first sheet is read: workbooks that agree on it give the same response. */
  lemma FirstSheetOnly(req: ProcessRequest, csv: CsvEncoder, sheets: seq<Sheet>, sheets': seq<Sheet>)
    requires req.file.Some?
    requires |sheets| > 0 && |sheets'| > 0 && sheets[0] == sheets'[0]
    ensures Process(WithBook(req, Book(sheets)), csv) == Process(WithBook(req, Book(sheets')), csv)
  {
  }

  /**
   * The column check against the first row's keys: every unknown filter
   * column is reported, `, `-joined in the order given, before any unknown
   * export column; a non-empty sheet with an unknown column never reaches
   * filtering.
   */
  lemma UnknownColumns(allRows: seq<Row>, filename: string, filterColumns: seq<string>, exportColumns: seq<string>,
                       filterValue: string, matchType: string, caseSensitive: bool, format: ExportFormat,
                       vcfPrefix: string, vcfSuffix: string, previewOnly: bool, csv: CsvEncoder)
    requires |allRows| > 0
    ensures var r := ProcessRows(allRows, filename, filterColumns, exportColumns, filterValue, matchType, caseSensitive,
                                 format, vcfPrefix, vcfSuffix, previewOnly, csv);
      && ((exists c :: c in filterColumns && c !in allRows[0].keys) ==>
            r == JsonError(400, UnknownFilterPrefix + Join(Filter(filterColumns, UnknownIn(allRows[0].keys)), ", ")))
      && ((&& (forall c :: c in filterColumns ==> c in allRows[0].keys)
           && (exists c :: c in exportColumns && c !in allRows[0].keys)) ==>
            r == JsonError(400, UnknownExportPrefix + Join(Filter(exportColumns, UnknownIn(allRows[0].keys)), ", ")))
      && (r.status != 400 <==> forall c :: c in filterColumns + exportColumns ==> c in allRows[0].keys)
    ensures forall c :: c in Filter(filterColumns, UnknownIn(allRows[0].keys)) <==> c in filterColumns && c !in allRows[0].keys
  {
    var headers := allRows[0].keys;
    forall c ensures c in Filter(filterColumns, UnknownIn(headers)) <==> c in filterColumns && c !in headers {
      FilterMember(filterColumns, UnknownIn(headers), c);
    }
    forall c ensures c in Filter(exportColumns, UnknownIn(headers)) <==> c in exportColumns && c !in headers {
      FilterMember(exportColumns, UnknownIn(headers), c);
    }
    var bad := Filter(filterColumns, UnknownIn(headers));
    var badExport := Filter(exportColumns, UnknownIn(headers));
    if (exists c :: c in filterColumns && c !in headers) {
      var c :| c in filterColumns && c !in headers;
      assert c in bad;
    }
    if (exists c :: c in exportColumns && c !in headers) {
      var c :| c in exportColumns && c !in headers;
      assert c in badExport;
    }
    if |bad| > 0 {
      assert bad[0] in bad;
    }
    if |badExport| > 0 {
      assert badExport[0] in badExport;
    }
  }

  /**
   * The preview: an empty sheet gives no rows and total 0 before any column
   * check; otherwise the first ten filtered rows projected onto the export
   * columns (the sheet's headers when none are chosen) together with the full
   * filtered count, and the previewed rows are the start of the full projection.
   */
  lemma PreviewResult(allRows: seq<Row>, filename: string, filterColumns: seq<string>, exportColumns: seq<string>,
                      filterValue: string, matchType: string, caseSensitive: bool, format: ExportFormat,
                      vcfPrefix: string, vcfSuffix: string, csv: CsvEncoder)
    ensures allRows == [] ==>
      ProcessRows(allRows, filename, filterColumns, exportColumns, filterValue, matchType, caseSensitive,
                  format, vcfPrefix, vcfSuffix, true, csv) == Response(200, PreviewBody([], 0))
    ensures allRows != [] && (forall c :: c in filterColumns + exportColumns ==> c in allRows[0].keys) ==>
      var filtered := ApplyFilter(allRows, filterColumns, filterValue, matchType, caseSensitive);
      var cols := if exportColumns != [] then exportColumns else allRows[0].keys;
      var r := ProcessRows(allRows, filename, filterColumns, exportColumns, filterValue, matchType, caseSensitive,
                           format, vcfPrefix, vcfSuffix, true, csv);
      && r.status == 200
      && r.body == PreviewBody(Projection(PreviewSlice(filtered), cols), |filtered|)
      && |r.body.rows| == (if |filtered| < MaxPreviewRows then |filtered| else MaxPreviewRows)
      && r.body.rows == Projection(filtered, cols)[..|r.body.rows|]
  {
    if allRows != [] && (forall c :: c in filterColumns + exportColumns ==> c in allRows[0].keys) {
      UnknownColumns(allRows, filename, filterColumns, exportColumns, filterValue, matchType, caseSensitive,
                     format, vcfPrefix, vcfSuffix, true, csv);
      var filtered := ApplyFilter(allRows, filterColumns, filterValue, matchType, caseSensitive);
      var cols := if exportColumns != [] then exportColumns else allRows[0].keys;
      var k := if |filtered| < MaxPreviewRows then |filtered| else MaxPreviewRows;
      assert PreviewSlice(filtered) == filtered[..k];
      ProjectionPrefix(filtered, cols, k);
    }
  }

  /**
   * A real export: an empty sheet is 422, no matching row is 422, and
   * otherwise the download is built from all filtered rows: the vCard text of
   * the unprojected rows, or their projection handed to the CSV encoder or
   * the workbook writer.
   */
  lemma ExportResult(allRows: seq<Row>, filename: string, filterColumns: seq<string>, exportColumns: seq<string>,
                     filterValue: string, matchType: string, caseSensitive: bool, format: ExportFormat,
                     vcfPrefix: string, vcfSuffix: string, csv: CsvEncoder)
    ensures allRows == [] ==>
      ProcessRows(allRows, filename, filterColumns, exportColumns, filterValue, matchType, caseSensitive,
                  format, vcfPrefix, vcfSuffix, false, csv) == JsonError(422, EmptyFileMessage)
    ensures allRows != [] && (forall c :: c in filterColumns + exportColumns ==> c in allRows[0].keys) ==>
      var filtered := ApplyFilter(allRows, filterColumns, filterValue, matchType, caseSensitive);
      var r := ProcessRows(allRows, filename, filterColumns, exportColumns, filterValue, matchType, caseSensitive,
                           format, vcfPrefix, vcfSuffix, false, csv);
      && (filtered == [] ==> r == JsonError(422, NoMatchMessage))
      && (filtered != [] && format == Vcf ==>
            r == Response(200, FileBody(Text(VcfText(filtered, exportColumns, vcfPrefix, vcfSuffix)), VcardContentType,
                                        StripExtension(filename) + "_export.vcf")))
      && (filtered != [] && format == Xlsx ==>
            r == Response(200, FileBody(XlsxWorkbook("Export", exportColumns, Projection(filtered, exportColumns)), XlsxContentType,
                                        StripExtension(filename) + "_export.xlsx")))
      && (filtered != [] && format == Csv ==>
            r == match csv(exportColumns, Projection(filtered, exportColumns))
                 case None => JsonError(500, CsvFailureMessage)
                 case Some(text) => Response(200, FileBody(Text(text), CsvContentType, StripExtension(filename) + "_export.csv")))
  {
    if allRows != [] && (forall c :: c in filterColumns + exportColumns ==> c in allRows[0].keys) {
      UnknownColumns(allRows, filename, filterColumns, exportColumns, filterValue, matchType, caseSensitive,
                     format, vcfPrefix, vcfSuffix, false, csv);
    }
  }

  /**
   * A preview never reports "no rows matched": once the workbook is read, a
   * preview is 200 or an unknown-column 400, or the catch-all 500 when a
   * column field is not an array.
   */
  lemma PreviewNeverRejectsNoMatch(req: ProcessRequest, csv: CsvEncoder)
    requires IsPreview(req) && req.file.Some? && req.file.value.book.Book? && |req.file.value.book.sheets| > 0
    ensures Process(req, csv).status in {200, 400, 500}
    ensures Process(req, csv).status == 500 ==>
      Process(req, csv) == JsonError(500, UnexpectedMessage) && (ListOf(req.filterColumns).None? || ListOf(req.exportColumns).None?)
    ensures Process(req, csv) != JsonError(422, NoMatchMessage)
  {
    if RequestChecksPass(req) {
      if ListOf(req.filterColumns).Some? && ListOf(req.exportColumns).Some? {
        ProcessReadsFirstSheet(req, csv);
      } else {
        NonListColumns(req, csv);
      }
    }
  }

  /** The format field defaults to `csv` and accepts only the three names. */
  lemma ParseFormatCases(raw: string)
    ensures ParseFormat(raw).Some? <==> raw in ["", "csv", "xlsx", "vcf"]
    ensures ParseFormat("") == Some(Csv) && ParseFormat("csv") == Some(Csv)
    ensures ParseFormat("xlsx") == Some(Xlsx) && ParseFormat("vcf") == Some(Vcf)
  {
  }
}
