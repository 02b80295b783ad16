/** The older, grocery-only shopping-list intent of `src/anylist.js`: after normalising, a leading
      /^(add|please add)\s+/i
    is removed, and the item is the lazy capture of the unanchored
      /(.+?)\s+to\s+(?:the|my)\s+grocery list/i
    The title-casing and the item bookkeeping are the same as in the newer version. */
module AnylistLegacy {
  import opened Wrappers
  import opened Text
  import opened Anylist

  /** `transcript.replace(/^(add|please add)\s+/i, '')`: `add` and then `please add` are tried,
      each needing at least one whitespace character, and the whole run of whitespace goes. */
  function StripCommand(t: string): string {
    var viaAdd := if HasPrefixCI(t, "add") then Spaces1(t[3..]) else None;
    var viaPlease := if HasPrefixCI(t, "please add") then Spaces1(t[10..]) else None;
    if viaAdd.Some? then viaAdd.value
    else if viaPlease.Some? then viaPlease.value
    else t
  }

  const Grocery: string := "grocery"

  /** `\s+to\s+(?:the|my)\s+grocery list`: what follows it. */
  function GroceryTail(r: string): Option<string> {
    match AfterToArticle(r)
    case None => None
    case Some(c) => Literal(c, "grocery list")
  }

  /** The unanchored search: the first start position, from `p` on, at which the lazy item and
      the tail match. */
  function SearchFrom(s: string, p: nat): (r: Option<ListMatch>)
    ensures r.Some? ==> exists q :: p <= q < |s| && MatchItemAt(GroceryTail, s, q) == r && FailsBetween(s, p, q)
    ensures r.None? <==> FailsBetween(s, p, |s|)
    decreases |s| - p
  {
    if p >= |s| then None
    else
      var m := MatchItemAt(GroceryTail, s, p);
      if m.Some? then m else SearchFrom(s, p + 1)
  }

  /** No start position in `[p, q)` gives a match. */
  predicate FailsBetween(s: string, p: nat, q: nat) {
    forall i :: p <= i < q ==> MatchItemAt(GroceryTail, s, i).None?
  }

  /** `preprocessAnylist` of the older version, with `smartSplit` as a parameter. `None` stands
      for the `undefined` returned when nothing matches; there is no list field. */
  function PreprocessAnylist(transcript: string, smartSplit: string -> seq<string>): Option<seq<string>> {
    match SearchFrom(StripCommand(Normalize(transcript)), 0)
    case None => None
    case Some(m) => Some(smartSplit(Trim(Trim(m.item))))
  }

  // ---------------------------------------------------------------------------------------
  // Case-insensitivity.

  /** The `i` flag of the command pattern: the lower-cased text loses the same command word. */
  lemma StripCommandLower(t: string)
    ensures StripCommand(LowerStr(t)) == LowerStr(StripCommand(t))
  {
    LowerAfterPrefix(t, "add");
    LowerAfterPrefix(t, "please add");
    if HasPrefixCI(t, "add") {
      Spaces1Lower(t[3..]);
    }
    if HasPrefixCI(t, "please add") {
      Spaces1Lower(t[10..]);
    }
  }

  lemma GroceryTailLower(r: string)
    ensures GroceryTail(LowerStr(r)) == LowerOpt(GroceryTail(r))
  {
    AfterToArticleLower(r);
    if AfterToArticle(r).Some? {
      LiteralLower(AfterToArticle(r).value, "grocery list");
    }
  }

  lemma GroceryTailIgnoresCase()
    ensures IgnoresCase(GroceryTail)
  {
    forall r {
      GroceryTailLower(r);
    }
  }

  /** The unanchored search finds its match at the same start on the lower-cased text, with the
      lower-cased captures. */
  lemma {:induction false} SearchFromLower(s: string, p: nat)
    ensures SearchFrom(LowerStr(s), p) == LowerListMatch(SearchFrom(s, p))
    ensures SearchFrom(LowerStr(s), p).Some? == SearchFrom(s, p).Some?
    decreases |s| - p
  {
    if p < |s| {
      GroceryTailIgnoresCase();
      MatchItemAtLower(GroceryTail, s, p);
      if MatchItemAt(GroceryTail, s, p).None? {
        SearchFromLower(s, p + 1);
      }
    }
  }

  /** `preprocessAnylist` of a lower-cased transcript hands the splitter the lower-cased item: it
      is `preprocessAnylist` of the original with a splitter that lower-cases first. */
  lemma PreprocessIgnoresCase(transcript: string, smartSplit: string -> seq<string>)
    ensures PreprocessAnylist(LowerStr(transcript), smartSplit)
            == PreprocessAnylist(transcript, s => smartSplit(LowerStr(s)))
  {
    var t := StripCommand(Normalize(transcript));
    NormalizeLower(transcript);
    StripCommandLower(Normalize(transcript));
    SearchFromLower(t, 0);
    if SearchFrom(t, 0).Some? {
      var m := SearchFrom(t, 0).value;
      TrimLower(m.item);
      TrimLower(Trim(m.item));
    }
  }

  // ---------------------------------------------------------------------------------------
  // Grocery requests as spoken.

  lemma GroceryTailNeedsLeadingSpace()
    ensures NeedsLeadingSpace(GroceryTail)
  {
  }

  lemma GroceryTailOfListPart(the: bool)
    ensures GroceryTail(ListPart(the, Grocery)) == Some("")
  {
    var c := Grocery + " list";
    assert c == "grocery list" + "";
    AfterToArticleOfListPart(the, c);
    LiteralOfConcat("grocery list", "");
  }

  /** The first start position already gives the match when the text begins with the item. */
  lemma SearchAtStart(s: string, m: ListMatch)
    requires MatchItemAt(GroceryTail, s, 0) == Some(m)
    ensures SearchFrom(s, 0) == Some(m)
  {
  }

  /** The item itself begins with the command words `add` or `please add` followed by a space
      (or is exactly one of them), which the older version would strip from a request spoken
      without them. */
  predicate StartsWithCommand(item: string) {
    (HasPrefixCI(item, "add") && (|item| == 3 || IsSpace(item[3])))
    || (HasPrefixCI(item, "please add") && (|item| == 10 || IsSpace(item[10])))
  }

  /** What is left of a spoken list request once the command words are gone. */
  lemma StripPhrase(prefix: Prefix, item: string, the: bool, word: string)
    requires NormalItem(item)
    requires prefix == NoPrefix ==> !StartsWithCommand(item)
    ensures StripCommand(Phrase(prefix, item, the, word)) == item + ListPart(the, word)
  {
    var rest := item + ListPart(the, word);
    assert rest[0] == item[0];
    if prefix == NoPrefix {
      assert Phrase(prefix, item, the, word) == rest;
      ListPartStart(the, word);
      NoCommandBeforeTo(item, ListPart(the, word));
    } else {
      StripPrefixed(prefix, rest);
    }
  }

  /** Spoken command words in front of text that starts with a non-space go. */
  lemma StripPrefixed(prefix: Prefix, rest: string)
    requires rest != [] && !IsSpace(rest[0])
    requires prefix != NoPrefix
    ensures StripCommand(PrefixText(prefix) + rest) == rest
  {
    if prefix == Add {
      assert PrefixText(prefix) + rest == "add" + (" " + rest);
      StripAdd(rest);
    } else {
      assert PrefixText(prefix) + rest == "please add" + (" " + rest);
      StripPleaseAdd(rest);
    }
  }

  /** `add` and a space go, and the text after them stays. */
  lemma StripAdd(rest: string)
    requires rest != [] && !IsSpace(rest[0])
    ensures StripCommand("add" + (" " + rest)) == rest
  {
    PrefixCIOfConcat("add", " " + rest);
    Spaces1OfSpaced(rest);
  }

  /** `please add` and a space go, and the text after them stays. */
  lemma StripPleaseAdd(rest: string)
    requires rest != [] && !IsSpace(rest[0])
    ensures StripCommand("please add" + (" " + rest)) == rest
  {
    var s := "please add" + (" " + rest);
    PrefixCIOfConcat("please add", " " + rest);
    assert Lower(s[0]) != Lower("add"[0]);
    Spaces1OfSpaced(rest);
  }

  /** Without `add ` at the start of the item, `add` followed by whitespace does not start
      `item + part`. */
  lemma NoAddCommand(item: string, part: string)
    requires NormalItem(item) && |part| >= 2 && part[0] == ' ' && part[1] == 't'
    requires !(HasPrefixCI(item, "add") && (|item| == 3 || IsSpace(item[3])))
    ensures !(HasPrefixCI(item + part, "add") && Spaces1((item + part)[3..]).Some?)
  {
    var s := item + part;
    if |item| < 3 {
      assert s[|item|] == ' ';
      assert Lower(s[|item|]) != Lower("add"[|item|]);
    } else if HasPrefixCI(s, "add") {
      assert HasPrefixCI(item, "add") by {
        assert forall i :: 0 <= i < 3 ==> s[i] == item[i];
      }
      assert s[3..][0] == item[3];
    }
  }

  /** Without `please add ` at the start of the item, `please add` followed by whitespace does
      not start `item + part`. */
  lemma NoPleaseAddCommand(item: string, part: string)
    requires NormalItem(item) && |part| >= 2 && part[0] == ' ' && part[1] == 't'
    requires !(HasPrefixCI(item, "please add") && (|item| == 10 || IsSpace(item[10])))
    ensures !(HasPrefixCI(item + part, "please add") && Spaces1((item + part)[10..]).Some?)
  {
    var s := item + part;
    if |item| < 10 {
      NoPleaseAddInShort(item, part);
    } else if HasPrefixCI(s, "please add") {
      assert HasPrefixCI(item, "please add") by {
        assert forall i :: 0 <= i < 10 ==> s[i] == item[i];
      }
      assert s[10..][0] == item[10];
    }
  }

  /** An item that does not start with the command words, followed by `" to"`, keeps all of
      its text. */
  lemma NoCommandBeforeTo(item: string, part: string)
    requires NormalItem(item) && |part| >= 2 && part[0] == ' ' && part[1] == 't'
    requires !StartsWithCommand(item)
    ensures StripCommand(item + part) == item + part
  {
    NoAddCommand(item, part);
    NoPleaseAddCommand(item, part);
  }

  /** The item, when the lazy capture cannot stop inside it, is the whole capture of the first
      match. */
  lemma SearchListPart(item: string, the: bool)
    requires NormalItem(item) && NoEarlyEnd(GroceryTail, item, ListPart(the, Grocery))
    ensures SearchFrom(item + ListPart(the, Grocery), 0) == Some(ListMatch(item, ""))
  {
    GroceryTailOfListPart(the);
    ItemBeforeTail(GroceryTail, [], item, ListPart(the, Grocery), "");
    assert [] + (item + ListPart(the, Grocery)) == item + ListPart(the, Grocery);
    SearchAtStart(item + ListPart(the, Grocery), ListMatch(item, ""));
  }

  lemma NormalStrip(prefix: Prefix, item: string, the: bool)
    requires NormalItem(item)
    requires prefix == NoPrefix ==> !StartsWithCommand(item)
    ensures StripCommand(Normalize(Phrase(prefix, item, the, Grocery))) == item + ListPart(the, Grocery)
  {
    GroceryWord(Grocery);
    PhraseIsNormal(prefix, item, the, Grocery);
    StripPhrase(prefix, item, the, Grocery);
  }

  /** Round trip: a spoken request to add an item, of one word or several, to the grocery list
      hands exactly that item to the splitter, with or without `add`/`please add`, provided the
      lazy capture cannot stop inside the item. */
  lemma PreprocessPhrase(prefix: Prefix, item: string, the: bool, smartSplit: string -> seq<string>)
    requires NormalItem(item) && NoEarlyEnd(GroceryTail, item, ListPart(the, Grocery))
    requires prefix == NoPrefix ==> !StartsWithCommand(item)
    ensures PreprocessAnylist(Phrase(prefix, item, the, Grocery), smartSplit) == Some(smartSplit(item))
  {
    NormalStrip(prefix, item, the);
    SearchListPart(item, the);
    TrimNormalItem(item);
    LegacySteps(Phrase(prefix, item, the, Grocery), item, smartSplit);
  }

  lemma GroceryTailStartsWithToArticle()
    ensures StartsWithToArticle(GroceryTail)
  {
  }

  /** End to end for every grocery request whose item has no `to` word after its first. */
  lemma PreprocessWordsPhrase(prefix: Prefix, item: string, the: bool, smartSplit: string -> seq<string>)
    requires NormalItem(item) && NoToWord(item)
    requires prefix == NoPrefix ==> !StartsWithCommand(item)
    ensures PreprocessAnylist(Phrase(prefix, item, the, Grocery), smartSplit) == Some(smartSplit(item))
  {
    GroceryTailNeedsLeadingSpace();
    GroceryTailStartsWithToArticle();
    ListPartStart(the, Grocery);
    NoToWordNoEarlyEnd(GroceryTail, item, ListPart(the, Grocery));
    PreprocessPhrase(prefix, item, the, smartSplit);
  }

  lemma LegacySteps(t: string, item: string, smartSplit: string -> seq<string>)
    requires SearchFrom(StripCommand(Normalize(t)), 0) == Some(ListMatch(item, ""))
    requires Trim(Trim(item)) == item
    ensures PreprocessAnylist(t, smartSplit) == Some(smartSplit(item))
  {
  }

  /** Text that starts with `grocery list`, in any case, starts with a seven-letter word and a
      space. */
  lemma GroceryListStart(c: string)
    requires HasPrefixCI(c, "grocery list")
    ensures IsWord(c[..7]) && IsSpace(c[7])
  {
    forall i | 0 <= i < 7 ensures IsWordChar(c[i]) {
      assert Lower(c[i]) == Lower("grocery list"[i]);
    }
    assert Lower(c[7]) == Lower("grocery list"[7]);
  }

  /** Wherever the grocery tail matches, so does the newer version's list tail. */
  lemma GroceryTailIsListTail(r: string)
    requires GroceryTail(r).Some?
    ensures ListTail(r).Some?
  {
    var c := AfterToArticle(r).value;
    GroceryListStart(c);
    ListTailFromWord(r, c, 7);
  }

  /** No early end for the newer list tail means none for the grocery tail either. */
  lemma NoEarlyEndForGrocery(item: string, part: string)
    requires NoEarlyEnd(ListTail, item, part)
    ensures NoEarlyEnd(GroceryTail, item, part)
  {
    forall j | 0 < j < |item| ensures GroceryTail(item[j..] + part).None? {
      if GroceryTail(item[j..] + part).Some? {
        GroceryTailIsListTail(item[j..] + part);
      }
    }
  }

  /** On a grocery request the two versions hand the splitter the same item, and the newer one
      names the grocery list. */
  lemma VersionsAgree(prefix: Prefix, item: string, the: bool, smartSplit: string -> seq<string>)
    requires NormalItem(item) && NoEarlyEnd(ListTail, item, ListPart(the, Grocery))
    requires prefix == NoPrefix ==> !HasPrefixCI(item, "add") && !HasPrefixCI(item, "please add")
    ensures Anylist.PreprocessAnylist(Phrase(prefix, item, the, Grocery), smartSplit).Some?
    ensures PreprocessAnylist(Phrase(prefix, item, the, Grocery), smartSplit)
            == Some(Anylist.PreprocessAnylist(Phrase(prefix, item, the, Grocery), smartSplit).value.items)
    ensures Anylist.PreprocessAnylist(Phrase(prefix, item, the, Grocery), smartSplit).value.list == "Grocery List"
  {
    GroceryWord(Grocery);
    NoEarlyEndForGrocery(item, ListPart(the, Grocery));
    Anylist.PreprocessPhrase(prefix, item, the, Grocery, smartSplit);
    PreprocessPhrase(prefix, item, the, smartSplit);
  }
}
