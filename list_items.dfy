/** The list-item bookkeeping shared by both versions of the shopping-list intent: `titleCase`,
    the split of requested names into items already on the list and items to create, and the
    rule that unchecks an item found on the list. */
module ListItems {
  import opened Text

  /** `\b(\w)`: a word character with no word character just before it. */
  predicate WordStart(s: string, i: nat)
    requires i < |s|
  {
    IsWordChar(s[i]) && (i == 0 || !IsWordChar(s[i - 1]))
  }

  /** The left-to-right replacement scan over `s`, told whether the character just before `s`
      was a word character. */
  function TitleCaseFrom(s: string, afterWord: bool): (r: string)
    ensures |r| == |s|
  {
    if s == [] then []
    else [if IsWordChar(s[0]) && !afterWord then Upper(s[0]) else s[0]] + TitleCaseFrom(s[1..], IsWordChar(s[0]))
  }

  /** `titleCase(name)`. */
  function TitleCase(name: string): (r: string)
    ensures |r| == |name|
  {
    TitleCaseFrom(name, false)
  }

  /** The character the scan writes at position `i` of `s`. */
  function ScanChar(s: string, afterWord: bool, i: nat): char
    requires i < |s|
  {
    if IsWordChar(s[i]) && !(if i == 0 then afterWord else IsWordChar(s[i - 1])) then Upper(s[i]) else s[i]
  }

  lemma {:induction false} TitleCaseFromChars(s: string, afterWord: bool)
    ensures forall i :: 0 <= i < |s| ==> TitleCaseFrom(s, afterWord)[i] == ScanChar(s, afterWord, i)
  {
    if s != [] {
      var r := TitleCaseFrom(s, afterWord);
      var t := s[1..];
      var rest := TitleCaseFrom(t, IsWordChar(s[0]));
      TitleCaseFromChars(t, IsWordChar(s[0]));
      assert r == [ScanChar(s, afterWord, 0)] + rest;
      forall i | 1 <= i < |s| ensures r[i] == ScanChar(s, afterWord, i) {
        assert r[i] == rest[i - 1] == ScanChar(t, IsWordChar(s[0]), i - 1);
        assert t[i - 1] == s[i];
        if i > 1 {
          assert t[i - 2] == s[i - 1];
        }
      }
    }
  }

  /** What `titleCase` does: the first word character of every word is upper-cased, every other
      character is kept. */
  lemma TitleCaseChars(name: string)
    ensures forall i :: 0 <= i < |name| ==>
      TitleCase(name)[i] == (if WordStart(name, i) then Upper(name[i]) else name[i])
  {
    TitleCaseFromChars(name, false);
    forall i | 0 <= i < |name| ensures TitleCase(name)[i] == (if WordStart(name, i) then Upper(name[i]) else name[i]) {
      assert TitleCase(name)[i] == ScanChar(name, false, i);
    }
  }

  lemma UpperKeepsWordChar(c: char)
    ensures IsWordChar(Upper(c)) == IsWordChar(c)
    ensures Upper(Upper(c)) == Upper(c)
    ensures Lower(Upper(c)) == Lower(c)
  {
  }

  /** Title-casing keeps every word boundary where it was. */
  lemma TitleCaseKeepsWordStarts(name: string)
    ensures forall i :: 0 <= i < |name| ==> (WordStart(TitleCase(name), i) <==> WordStart(name, i))
  {
    var r := TitleCase(name);
    TitleCaseChars(name);
    forall i | 0 <= i < |name| ensures WordStart(r, i) <==> WordStart(name, i) {
      UpperKeepsWordChar(name[i]);
      if i > 0 {
        UpperKeepsWordChar(name[i - 1]);
      }
    }
  }

  /** Title-casing a title-cased name changes nothing. */
  lemma TitleCaseIdempotent(name: string)
    ensures TitleCase(TitleCase(name)) == TitleCase(name)
  {
    var r := TitleCase(name);
    TitleCaseChars(name);
    TitleCaseChars(r);
    TitleCaseKeepsWordStarts(name);
    forall i | 0 <= i < |name| ensures TitleCase(r)[i] == r[i] {
      UpperKeepsWordChar(name[i]);
    }
  }

  /** Title-casing changes only the case of letters. */
  lemma TitleCaseOnlyChangesCase(name: string)
    ensures LowerStr(TitleCase(name)) == LowerStr(name)
  {
    var r := TitleCase(name);
    TitleCaseChars(name);
    forall i | 0 <= i < |name| ensures LowerStr(r)[i] == LowerStr(name)[i] {
      UpperKeepsWordChar(name[i]);
    }
  }

  /** An item already on a list, as the AnyList client holds it; `checked` is updated in place. */
  class ListItem {
    var name: string
    var checked: bool

    constructor(name: string, checked: bool)
      ensures this.name == name && this.checked == checked
    {
      this.name := name;
      this.checked := checked;
    }
  }

  /** The fields handed to `any.createItem` for a name not yet on the list. */
  datatype NewItem = NewItem(name: string, categoryMatchId: string)

  /** The new item for `name`: the title-cased trimmed name, and the category of the name as
      spoken. */
  function Draft(name: string, getCategory: string -> string): NewItem {
    NewItem(TitleCase(Trim(name)), getCategory(name))
  }

  /** A name is on the list when `getItemByName(titleCase(name))` finds an item. */
  predicate Known(byName: map<string, ListItem>, name: string) {
    TitleCase(name) in byName
  }

  /** The items found for `names`, in the order of the names. */
  function Existing(byName: map<string, ListItem>, names: seq<string>): seq<ListItem> {
    if names == [] then []
    else
      var last := names[|names| - 1];
      Existing(byName, names[..|names| - 1]) + (if Known(byName, last) then [byName[TitleCase(last)]] else [])
  }

  /** The new items for `names`, in the order of the names, each made by `draft`. */
  function Created(byName: map<string, ListItem>, draft: string -> NewItem, names: seq<string>): seq<NewItem> {
    if names == [] then []
    else
      var last := names[|names| - 1];
      Created(byName, draft, names[..|names| - 1]) + (if Known(byName, last) then [] else [draft(last)])
  }

  /** The loop of `getItemsToAddOrUncheck`, for any way `draft` of making the new item for a
      name: each name either finds its item under its title-cased form, which is pushed onto the
      existing items, or has a new item pushed onto the new items. */
  method SplitNames(byName: map<string, ListItem>, draft: string -> NewItem, itemNames: seq<string>)
    returns (existingItems: seq<ListItem>, newItems: seq<NewItem>)
    ensures existingItems == Existing(byName, itemNames)
    ensures newItems == Created(byName, draft, itemNames)
  {
    existingItems := [];
    newItems := [];
    for k := 0 to |itemNames|
      invariant existingItems == Existing(byName, itemNames[..k])
      invariant newItems == Created(byName, draft, itemNames[..k])
    {
      var name := itemNames[k];
      var existing := TitleCase(name);
      if existing in byName {
        existingItems := existingItems + [byName[existing]];
      } else {
        newItems := newItems + [draft(name)];
      }
      assert itemNames[..k + 1][..k] == itemNames[..k];
    }
    assert itemNames[..|itemNames|] == itemNames;
  }

  /** `getItemsToAddOrUncheck`: the list lookup `groceries.getItemByName` is the map `byName`,
      and `getCategory` is a parameter. */
  method GetItemsToAddOrUncheck(byName: map<string, ListItem>, getCategory: string -> string, itemNames: seq<string>)
    returns (existingItems: seq<ListItem>, newItems: seq<NewItem>)
    ensures existingItems == Existing(byName, itemNames)
    ensures newItems == Created(byName, name => Draft(name, getCategory), itemNames)
  {
    existingItems, newItems := SplitNames(byName, name => Draft(name, getCategory), itemNames);
  }

  /** Every name lands in exactly one of the two results: their lengths add up to the number of
      names. */
  lemma {:induction false} PartitionSizes(byName: map<string, ListItem>, draft: string -> NewItem, names: seq<string>)
    ensures |Existing(byName, names)| + |Created(byName, draft, names)| == |names|
  {
    if names != [] {
      PartitionSizes(byName, draft, names[..|names| - 1]);
    }
  }

  /** The split keeps the order of the names: splitting `a + b` is splitting `a`, then `b`. */
  lemma {:induction false} PartitionConcat(byName: map<string, ListItem>, draft: string -> NewItem, a: seq<string>, b: seq<string>)
    ensures Existing(byName, a + b) == Existing(byName, a) + Existing(byName, b)
    ensures Created(byName, draft, a + b) == Created(byName, draft, a) + Created(byName, draft, b)
  {
    if b != [] {
      var ab := a + b;
      assert ab[..|ab| - 1] == a + b[..|b| - 1];
      assert ab[|ab| - 1] == b[|b| - 1];
      PartitionConcat(byName, draft, a, b[..|b| - 1]);
    } else {
      assert a + b == a;
    }
  }

  /** A name on the list contributes its item to the existing items; any other name contributes
      its new item. */
  lemma PartitionCovers(byName: map<string, ListItem>, draft: string -> NewItem, names: seq<string>, k: nat)
    requires k < |names|
    ensures Known(byName, names[k]) ==> byName[TitleCase(names[k])] in Existing(byName, names)
    ensures !Known(byName, names[k]) ==> draft(names[k]) in Created(byName, draft, names)
  {
    var front := names[..k + 1];
    assert names == front + names[k + 1..];
    PartitionConcat(byName, draft, front, names[k + 1..]);
    assert front[..k] == names[..k];
  }

  /** Conversely, every existing item was found for some name on the list, and every new item
      was drafted from some name that is not. */
  lemma {:induction false} PartitionSound(byName: map<string, ListItem>, draft: string -> NewItem, names: seq<string>)
    ensures forall x :: x in Existing(byName, names) ==>
      exists k :: 0 <= k < |names| && Known(byName, names[k]) && x == byName[TitleCase(names[k])]
    ensures forall d :: d in Created(byName, draft, names) ==>
      exists k :: 0 <= k < |names| && !Known(byName, names[k]) && d == draft(names[k])
  {
    if names != [] {
      var front := names[..|names| - 1];
      var last := |names| - 1;
      PartitionSound(byName, draft, front);
      forall x | x in Existing(byName, names)
        ensures exists k :: 0 <= k < |names| && Known(byName, names[k]) && x == byName[TitleCase(names[k])]
      {
        if x in Existing(byName, front) {
          var k :| 0 <= k < |front| && Known(byName, front[k]) && x == byName[TitleCase(front[k])];
          assert names[k] == front[k];
        } else {
          assert Known(byName, names[last]) && x == byName[TitleCase(names[last])];
        }
      }
      forall d | d in Created(byName, draft, names)
        ensures exists k :: 0 <= k < |names| && !Known(byName, names[k]) && d == draft(names[k])
      {
        if d in Created(byName, draft, front) {
          var k :| 0 <= k < |front| && !Known(byName, front[k]) && d == draft(front[k]);
          assert names[k] == front[k];
        } else {
          assert !Known(byName, names[last]) && d == draft(names[last]);
        }
      }
    }
  }

  /** `uncheckItem(existing)`: an item already unchecked is skipped; any other has `checked` set
      to false before `save()` is attempted, and a failed save is swallowed, so the flag stays
      false either way. `saveAttempted` tells whether `save()` was called. */
  method UncheckItem(existing: ListItem) returns (saveAttempted: bool)
    modifies existing
    ensures !existing.checked
    ensures existing.name == old(existing.name)
    ensures saveAttempted <==> old(existing.checked)
  {
    if existing.checked == false {
      return false;
    }
    existing.checked := false;
    saveAttempted := true;
  }

  /** Unchecking twice does no more than unchecking once: the second call attempts no save. */
  method UncheckTwice(existing: ListItem) returns (first: bool, second: bool)
    modifies existing
    ensures !existing.checked && existing.name == old(existing.name)
    ensures first == old(existing.checked) && !second
  {
    first := UncheckItem(existing);
    second := UncheckItem(existing);
  }
}
