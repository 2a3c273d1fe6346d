/**
 * The list operations of the column picker in
 * `app/components/HeaderSelector.jsx`: the search over the header names,
 * toggling and removing a column of the selection, and the select-all and
 * clear buttons. Each returns the new selection the component hands to
 * its `onChange` callback.
 */
module HeaderSelector {
  import opened Strings
  import opened Seqs

  // ----------------------------------------------------------------- search

  /** The search test: the lower-cased header contains the lower-cased search text. */
  function MatchesSearch(search: string): string -> bool
  {
    h => Contains(AsciiLower(h), AsciiLower(search))
  }

  /** `filtered`: the headers the dropdown lists for the current search text, in header order. */
  function Filtered(headers: seq<string>, search: string): (r: seq<string>)
    ensures IsSubsequence(r, headers)
    ensures forall i :: 0 <= i < |r| ==> Contains(AsciiLower(r[i]), AsciiLower(search))
  {
    Filter(headers, MatchesSearch(search))
  }

  /** A header is listed exactly when it is one of the headers and matches the search, ignoring ASCII case. */
  lemma FilteredMember(headers: seq<string>, search: string, h: string)
    ensures h in Filtered(headers, search) <==> h in headers && Contains(AsciiLower(h), AsciiLower(search))
  {
    FilterMember(headers, MatchesSearch(search), h);
  }

  /** With nothing typed, every header is listed, in order. */
  lemma EmptySearchListsAll(headers: seq<string>)
    ensures Filtered(headers, "") == headers
  {
    forall i | 0 <= i < |headers| ensures MatchesSearch("")(headers[i]) {
      ContainsEmpty(AsciiLower(headers[i]));
    }
    FilterKeepsAll(headers, MatchesSearch(""));
  }

  /** The search ignores the case of what is typed. */
  lemma SearchIgnoresCase(headers: seq<string>, search: string, search': string)
    requires AsciiLower(search) == AsciiLower(search')
    ensures Filtered(headers, search) == Filtered(headers, search')
  {
    assert MatchesSearch(search) == MatchesSearch(search');
  }

  /** Typing more narrows the list: a hit for a longer text is a hit for any piece of it. */
  lemma LongerSearchNarrows(headers: seq<string>, search: string, piece: string, h: string)
    requires Contains(AsciiLower(search), AsciiLower(piece))
    requires h in Filtered(headers, search)
    ensures h in Filtered(headers, piece)
  {
    FilteredMember(headers, search, h);
    ContainsTransitive(AsciiLower(h), AsciiLower(search), AsciiLower(piece));
    FilteredMember(headers, piece, h);
  }

  // -------------------------------------------------------------- selection

  /** No column appears twice. */
  predicate NoDuplicates(s: seq<string>)
  {
    forall i, j :: 0 <= i < j < |s| ==> s[i] != s[j]
  }

  /** `selected.filter((c) => c !== col)`. */
  function Without(selected: seq<string>, col: string): seq<string>
  {
    Filter(selected, c => c != col)
  }

  /** Leaving out `col` keeps every other column, in order, and no copy of `col`. */
  lemma WithoutMember(selected: seq<string>, col: string, x: string)
    ensures x in Without(selected, col) <==> x in selected && x != col
  {
    FilterMember(selected, c => c != col, x);
  }

  /** `removeColumn`: the selection without any copy of `col`, the other columns in their order. */
  function RemoveColumn(selected: seq<string>, col: string): (r: seq<string>)
    ensures col !in r
    ensures IsSubsequence(r, selected)
    ensures forall x :: x in r <==> x in selected && x != col
    ensures forall x :: x != col ==> multiset(r)[x] == multiset(selected)[x]
    ensures col !in selected ==> r == selected
  {
    var r := Without(selected, col);
    assert forall x :: x != col ==> multiset(r)[x] == multiset(selected)[x] by {
      forall x | x != col ensures multiset(r)[x] == multiset(selected)[x] {
        FilterMultiplicity(selected, c => c != col, x);
      }
    }
    assert forall x :: x in r <==> x in selected && x != col by {
      forall x ensures x in r <==> x in selected && x != col {
        WithoutMember(selected, col, x);
      }
    }
    assert col !in selected ==> r == selected by {
      if col !in selected {
        FilterKeepsAll(selected, c => c != col);
      }
    }
    r
  }

  /** `toggleColumn`: removes `col` when it is selected, otherwise appends it at the end. */
  function ToggleColumn(selected: seq<string>, col: string): (r: seq<string>)
    ensures col in r <==> col !in selected
    ensures forall x :: x != col ==> (x in r <==> x in selected)
    ensures forall x :: x != col ==> multiset(r)[x] == multiset(selected)[x]
    ensures col !in selected ==> |r| == |selected| + 1 && r[..|selected|] == selected && r[|selected|] == col
    ensures col in selected ==> IsSubsequence(r, selected) && |r| < |selected|
  {
    if col in selected then
      var r := RemoveColumn(selected, col);
      ShorterWithout(selected, col);
      r
    else
      var r := selected + [col];
      assert r[..|selected|] == selected;
      r
  }

  /** Leaving out a column that is present makes the list shorter. */
  lemma {:induction false} ShorterWithout(selected: seq<string>, col: string)
    requires col in selected
    ensures |Without(selected, col)| < |selected|
  {
    if selected[0] == col {
      assert |Filter(selected[1..], c => c != col)| <= |selected[1..]|;
    } else {
      assert col in selected[1..];
      ShorterWithout(selected[1..], col);
    }
  }

  /** Select all: the whole header list, in header order. */
  function SelectAll(headers: seq<string>): seq<string>
  {
    headers[..]
  }

  /** Clear: nothing selected. */
  function Clear(): seq<string>
  {
    []
  }

  // ---------------------------------------------------------------- lemmas

  /** Toggling a column on and then off gives back the selection it started from. */
  lemma ToggleTwiceRestores(selected: seq<string>, col: string)
    requires col !in selected
    ensures ToggleColumn(ToggleColumn(selected, col), col) == selected
  {
    var on := selected + [col];
    assert ToggleColumn(selected, col) == on;
    FilterAppend(selected, [col], c => c != col);
    FilterKeepsAll(selected, c => c != col);
    assert Filter([col], c => c != col) == [];
  }

  /** Toggling a selected column off and on again does not restore the order: it moves to the end, once. */
  lemma ToggleTwiceMovesToEnd(selected: seq<string>, col: string)
    requires col in selected
    ensures ToggleColumn(ToggleColumn(selected, col), col) == Without(selected, col) + [col]
  {
  }

  /** A concrete case of the above: toggling `a` twice in `[a, b]` gives `[b, a]`. */
  lemma ToggleTwiceExample()
    ensures ToggleColumn(ToggleColumn(["a", "b"], "a"), "a") == ["b", "a"]
  {
    assert "a" in ["a", "b"];
    ToggleTwiceMovesToEnd(["a", "b"], "a");
    assert Without(["a", "b"], "a") == ["b"] by {
      assert ["a", "b"][1..] == ["b"];
    }
  }

  /** Toggling keeps a selection free of repetitions. */
  lemma ToggleKeepsNoDuplicates(selected: seq<string>, col: string)
    requires NoDuplicates(selected)
    ensures NoDuplicates(ToggleColumn(selected, col))
  {
    if col in selected {
      SubsequenceKeepsNoDuplicates(ToggleColumn(selected, col), selected);
    }
  }

  /** Removing keeps a selection free of repetitions. */
  lemma RemoveKeepsNoDuplicates(selected: seq<string>, col: string)
    requires NoDuplicates(selected)
    ensures NoDuplicates(RemoveColumn(selected, col))
  {
    SubsequenceKeepsNoDuplicates(RemoveColumn(selected, col), selected);
  }

  /** Leaving elements out of a list without repetitions cannot create one. */
  lemma {:induction false} SubsequenceKeepsNoDuplicates(a: seq<string>, b: seq<string>)
    requires IsSubsequence(a, b) && NoDuplicates(b)
    ensures NoDuplicates(a)
    decreases |b|
  {
    if a != [] {
      if a[0] == b[0] && IsSubsequence(a[1..], b[1..]) {
        SubsequenceKeepsNoDuplicates(a[1..], b[1..]);
        SubsequenceMember(a[1..], b[1..]);
        assert a[0] !in b[1..];
        forall i, j | 0 <= i < j < |a| ensures a[i] != a[j] {
          if i == 0 {
            assert a[j] == a[1..][j - 1];
          } else {
            assert a[i] == a[1..][i - 1] && a[j] == a[1..][j - 1];
          }
        }
      } else {
        SubsequenceKeepsNoDuplicates(a, b[1..]);
      }
    }
  }

  /** Every element of a subsequence is an element of the list. */
  lemma {:induction false} SubsequenceMember(a: seq<string>, b: seq<string>)
    requires IsSubsequence(a, b)
    ensures forall x :: x in a ==> x in b
    decreases |b|
  {
    if a != [] {
      if a[0] == b[0] && IsSubsequence(a[1..], b[1..]) {
        SubsequenceMember(a[1..], b[1..]);
        assert a == [a[0]] + a[1..];
        assert b == [b[0]] + b[1..];
      } else {
        SubsequenceMember(a, b[1..]);
        assert b == [b[0]] + b[1..];
      }
    }
  }

  /** After select all, every header the search lists is selected, and toggling any of them deselects it. */
  lemma SelectAllCoversSearch(headers: seq<string>, search: string, h: string)
    requires h in Filtered(headers, search)
    ensures h in SelectAll(headers)
    ensures h !in ToggleColumn(SelectAll(headers), h)
  {
    FilteredMember(headers, search, h);
  }

  /** Select all is a copy of the header list: exactly the headers, in their order, without repetitions when they have none. */
  lemma SelectAllContents(headers: seq<string>)
    ensures SelectAll(headers) == headers
    ensures NoDuplicates(headers) ==> NoDuplicates(SelectAll(headers))
    ensures forall h :: h in SelectAll(headers) <==> h in headers
  {
  }

  /** After clear nothing is selected, so toggling a column makes it the only one. */
  lemma ClearThenToggle(col: string)
    ensures forall x :: x !in Clear()
    ensures ToggleColumn(Clear(), col) == [col]
  {
  }
}
