/** The shopping-list intent of `src/anylist/index.js`: the transcript normalisation, `ANYLIST_REGEX`
      /^(?:add|please add)?\s*(.+?)\s+to\s+(?:the|my)\s+(\w+)\s+(?:list)?/i
    as a recogniser, the `listMap` lookup and `preprocessAnylist`. The lazy item search is shared
    with the older grocery-only version. */
module Anylist {
  import opened Wrappers
  import opened Text

  /** `transcript.trim().replace(/\s+/g, ' ')`. */
  function Normalize(transcript: string): string {
    Collapse(Trim(transcript))
  }

  /** The length of the leading run of `\s`. */
  function SpaceRun(r: string): nat {
    |r| - |SkipSpaces(r)|
  }

  /** A greedy `\s+`: what follows the whole leading run of whitespace, if there is one. */
  function Spaces1(r: string): Option<string> {
    if r != [] && IsSpace(r[0]) then Some(SkipSpaces(r)) else None
  }

  /** The literal `w`, in any case. */
  function Literal(r: string, w: string): Option<string> {
    if HasPrefixCI(r, w) then Some(r[|w|..]) else None
  }

  /** `(?:the|my)`. */
  function Article(r: string): Option<string> {
    if HasPrefixCI(r, "the") then Some(r[3..]) else Literal(r, "my")
  }

  /** `\s+to\s+(?:the|my)\s+`: what follows it. Each `\s+` is greedy, and giving spaces back never
      helps because the next part starts with a letter. */
  function AfterToArticle(r: string): Option<string> {
    var a := Spaces1(r);
    var b := if a.Some? then Literal(a.value, "to") else None;
    var c := if b.Some? then Spaces1(b.value) else None;
    var d := if c.Some? then Article(c.value) else None;
    if d.Some? then Spaces1(d.value) else None
  }

  /** `\s+to\s+(?:the|my)\s+(\w+)\s+(?:list)?`: the list word. `\w+` must be the whole run of
      word characters, since a shorter run is followed by a word character and not by `\s`; the
      optional `list` always succeeds. */
  function ListTail(r: string): Option<string> {
    match AfterToArticle(r)
    case None => None
    case Some(c) =>
      var w := TakeWord(c);
      if w == [] || |w| == |c| || !IsSpace(c[|w|]) then None else Some(w)
  }

  /** The lazy `(.+?)` that starts at `start`, tried with ends `e, e + 1, …`: the first end after
      which `tail` matches, together with what `tail` captured. `.` stops at a line terminator. */
  function ItemSearch(tail: string -> Option<string>, s: string, start: nat, e: nat): (r: Option<(nat, string)>)
    requires start < e <= |s|
    ensures r.Some? ==> e <= r.value.0 <= |s| && tail(s[r.value.0..]) == Some(r.value.1)
    ensures r.Some? ==> forall j :: e <= j < r.value.0 ==> tail(s[j..]).None?
    ensures r.Some? ==> NoLineTerminator(s[e - 1..r.value.0])
    ensures r.None? ==> forall j :: e <= j <= |s| && NoLineTerminator(s[e - 1..j]) ==> tail(s[j..]).None?
    decreases |s| - e
  {
    if IsLineTerminator(s[e - 1]) then None
    else if tail(s[e..]).Some? then Some((e, tail(s[e..]).value))
    else if e == |s| then None
    else
      var r := ItemSearch(tail, s, start, e + 1);
      if r.Some? then
        assert s[e - 1..r.value.0] == [s[e - 1]] + s[e..r.value.0];
        r
      else
        assert forall j :: e + 1 <= j <= |s| && NoLineTerminator(s[e - 1..j]) ==> NoLineTerminator(s[e..j]) by {
          forall j | e + 1 <= j <= |s| && NoLineTerminator(s[e - 1..j]) ensures NoLineTerminator(s[e..j]) {
            assert s[e..j] == s[e - 1..j][1..];
          }
        }
        r
  }

  /** The two captures of a list request: the raw item text and the list word. */
  datatype ListMatch = ListMatch(item: string, list: string)

  /** The item starting at `start`, and what `tail` captured after it. */
  function MatchItemAt(tail: string -> Option<string>, s: string, start: nat): Option<ListMatch> {
    if start >= |s| then None
    else
      match ItemSearch(tail, s, start, start + 1)
      case None => None
      case Some((e, w)) => Some(ListMatch(s[start..e], w))
  }

  /** A greedy `\s*` at `from` followed by the item: `k` spaces are tried first, then fewer. */
  function SpacesThenItem(tail: string -> Option<string>, s: string, from: nat, k: nat): Option<ListMatch>
    decreases k
  {
    var m := MatchItemAt(tail, s, from + k);
    if m.Some? || k == 0 then m else SpacesThenItem(tail, s, from, k - 1)
  }

  /** `ANYLIST_REGEX` applied with `match`: `add`, then `please add`, then no prefix. */
  function MatchList(s: string): Option<ListMatch> {
    var viaAdd := ViaCommand(s, "add");
    var viaPlease := ViaCommand(s, "please add");
    if viaAdd.Some? then viaAdd
    else if viaPlease.Some? then viaPlease
    else SpacesThenItem(ListTail, s, 0, SpaceRun(s))
  }

  /** The item and list word after the command word `w` and its optional whitespace. */
  function ViaCommand(s: string, w: string): Option<ListMatch> {
    if HasPrefixCI(s, w) then SpacesThenItem(ListTail, s, |w|, SpaceRun(s[|w|..])) else None
  }

  /** `listMap`. */
  const ListMap: map<string, string> := map[
    "grocery" := "Grocery List",
    "shopping" := "Shopping List",
    "costco" := "CostCo List",
    "target" := "Target List"
  ]

  /** `listMap[listRaw.toLowerCase()] || 'Grocery List'`. */
  function ListName(word: string): string {
    var key := LowerStr(word);
    if key in ListMap then ListMap[key] else "Grocery List"
  }

  /** What a list request carries to `addToList`: the split items and the list name. */
  datatype ListRequest = ListRequest(items: seq<string>, list: string)

  /** `preprocessAnylist`, with the item splitter `smartSplit` as a parameter. `None` stands for the
      `{}` of a transcript that does not match. */
  function PreprocessAnylist(transcript: string, smartSplit: string -> seq<string>): Option<ListRequest> {
    match MatchList(Normalize(transcript))
    case None => None
    case Some(m) => Some(ListRequest(smartSplit(Trim(Trim(m.item))), ListName(Trim(m.list))))
  }

  /** `ANYLIST_REGEX.test`. */
  predicate Matches(transcript: string) {
    MatchList(transcript).Some?
  }

  /** The lists `listMap` knows; every other key falls back to the grocery list. */
  lemma ListMapEntries(key: string)
    ensures key in ListMap <==> key in {"grocery", "shopping", "costco", "target"}
    ensures key in ListMap ==> ListMap[key] in {"Grocery List", "Shopping List", "CostCo List", "Target List"}
    ensures key in ListMap ==> (ListMap[key] == "Grocery List" <==> key == "grocery")
  {
  }

  /** The list name is one of the four lists, and does not depend on the case of the word. */
  lemma ListNameProperties(word: string)
    ensures ListName(word) in {"Grocery List", "Shopping List", "CostCo List", "Target List"}
    ensures ListName(LowerStr(word)) == ListName(word)
    ensures ListName(word) != "Grocery List" <==> LowerStr(word) in {"shopping", "costco", "target"}
  {
    var key := LowerStr(word);
    LowerStrIdempotent(word);
    assert LowerStr(key) == key;
    ListMapEntries(key);
  }

  /** Normalising twice is normalising once: the result has no outer whitespace, and every run of
      whitespace inside it is a single space. */
  lemma NormalizeIdempotent(transcript: string)
    ensures Normalize(Normalize(transcript)) == Normalize(transcript)
    ensures Trimmed(Normalize(transcript)) && SingleSpaced(Normalize(transcript))
  {
    var t := Trim(transcript);
    var n := Collapse(t);
    CollapseIsSingleSpaced(t);
    if t != [] {
      CollapseKeepsLast(t);
    }
    TrimOfTrimmed(n);
    CollapseSingleSpaced(n);
  }

  // ---------------------------------------------------------------------------------------
  // Case-insensitivity.

  function LowerOpt(o: Option<string>): Option<string> {
    if o.Some? then Some(LowerStr(o.value)) else None
  }

  function LowerEnd(o: Option<(nat, string)>): Option<(nat, string)> {
    if o.Some? then Some((o.value.0, LowerStr(o.value.1))) else None
  }

  /** Both captures of a match lower-cased. */
  function LowerListMatch(o: Option<ListMatch>): Option<ListMatch> {
    if o.Some? then Some(ListMatch(LowerStr(o.value.item), LowerStr(o.value.list))) else None
  }

  /** A tail pattern under the `i` flag: on the lower-cased text it matches exactly where it
      matched before, and captures the lower-cased text. */
  ghost predicate IgnoresCase(tail: string -> Option<string>) {
    forall r {:trigger tail(LowerStr(r))} :: tail(LowerStr(r)) == LowerOpt(tail(r))
  }

  lemma Spaces1Lower(r: string)
    ensures Spaces1(LowerStr(r)) == LowerOpt(Spaces1(r))
  {
    if r != [] {
      LowerKeepsClasses(r[0]);
      SkipSpacesLower(r);
    }
  }

  lemma LiteralLower(r: string, w: string)
    ensures Literal(LowerStr(r), w) == LowerOpt(Literal(r, w))
  {
    LowerAfterPrefix(r, w);
  }

  lemma ArticleLower(r: string)
    ensures Article(LowerStr(r)) == LowerOpt(Article(r))
  {
    LowerAfterPrefix(r, "the");
    LiteralLower(r, "my");
  }

  lemma AfterToArticleLower(r: string)
    ensures AfterToArticle(LowerStr(r)) == LowerOpt(AfterToArticle(r))
  {
    Spaces1Lower(r);
    var a := Spaces1(r);
    if a.Some? {
      LiteralLower(a.value, "to");
      var b := Literal(a.value, "to");
      if b.Some? {
        Spaces1Lower(b.value);
        var c := Spaces1(b.value);
        if c.Some? {
          ArticleLower(c.value);
          var d := Article(c.value);
          if d.Some? {
            Spaces1Lower(d.value);
          }
        }
      }
    }
  }

  /** The `(\w+)\s` after the article's whitespace. */
  function ListWord(c: string): Option<string> {
    var w := TakeWord(c);
    if w == [] || |w| == |c| || !IsSpace(c[|w|]) then None else Some(w)
  }

  lemma ListTailOf(r: string)
    ensures ListTail(r) == (if AfterToArticle(r).Some? then ListWord(AfterToArticle(r).value) else None)
  {
  }

  lemma ListWordLower(c: string)
    ensures ListWord(LowerStr(c)) == LowerOpt(ListWord(c))
  {
    var w := TakeWord(c);
    TakeWordLower(c);
    if |w| < |c| {
      LowerKeepsClasses(c[|w|]);
      assert LowerStr(c)[|w|] == Lower(c[|w|]);
    }
  }

  lemma ListTailLower(r: string)
    ensures ListTail(LowerStr(r)) == LowerOpt(ListTail(r))
  {
    AfterToArticleLower(r);
    ListTailOf(r);
    ListTailOf(LowerStr(r));
    if AfterToArticle(r).Some? {
      ListWordLower(AfterToArticle(r).value);
    }
  }

  lemma ListTailIgnoresCase()
    ensures IgnoresCase(ListTail)
  {
    forall r {
      ListTailLower(r);
    }
  }

  /** What the search looks at for the end `e`, on the lower-cased text. */
  lemma SearchStepLower(tail: string -> Option<string>, s: string, e: nat)
    requires IgnoresCase(tail) && 0 < e <= |s|
    ensures IsLineTerminator(LowerStr(s)[e - 1]) == IsLineTerminator(s[e - 1])
    ensures tail(LowerStr(s)[e..]) == LowerOpt(tail(s[e..]))
  {
    LowerKeepsClasses(s[e - 1]);
    LowerStrDrop(s, e);
    var r := s[e..];
    assert tail(LowerStr(r)) == LowerOpt(tail(r));
  }

  /** The search ends at `e` when `e` hits a line terminator or lets the tail match. */
  lemma ItemSearchStop(tail: string -> Option<string>, s: string, start: nat, e: nat)
    requires start < e <= |s|
    requires IsLineTerminator(s[e - 1]) || tail(s[e..]).Some? || e == |s|
    ensures ItemSearch(tail, s, start, e)
            == if IsLineTerminator(s[e - 1]) then None else if tail(s[e..]).Some? then Some((e, tail(s[e..]).value)) else None
  {
  }

  /** The lazy item search stops at the same end on the lower-cased text. */
  lemma {:induction false} ItemSearchLower(tail: string -> Option<string>, s: string, start: nat, e: nat)
    requires IgnoresCase(tail) && start < e <= |s|
    ensures ItemSearch(tail, LowerStr(s), start, e) == LowerEnd(ItemSearch(tail, s, start, e))
    decreases |s| - e
  {
    var l := LowerStr(s);
    SearchStepLower(tail, s, e);
    if !IsLineTerminator(s[e - 1]) && tail(s[e..]).None? && e < |s| {
      ItemSearchLower(tail, s, start, e + 1);
      ItemSearchNext(tail, s, start, e);
      ItemSearchNext(tail, l, start, e);
    } else {
      ItemSearchStop(tail, s, start, e);
      ItemSearchStop(tail, l, start, e);
    }
  }

  /** When the end `e` neither hits a line terminator nor lets the tail match, the search goes
      on at `e + 1`. */
  lemma ItemSearchNext(tail: string -> Option<string>, s: string, start: nat, e: nat)
    requires start < e < |s| && !IsLineTerminator(s[e - 1]) && tail(s[e..]).None?
    ensures ItemSearch(tail, s, start, e) == ItemSearch(tail, s, start, e + 1)
  {
  }

  lemma MatchItemAtLower(tail: string -> Option<string>, s: string, start: nat)
    requires IgnoresCase(tail)
    ensures MatchItemAt(tail, LowerStr(s), start) == LowerListMatch(MatchItemAt(tail, s, start))
  {
    if start < |s| {
      ItemSearchLower(tail, s, start, start + 1);
      var r := ItemSearch(tail, s, start, start + 1);
      if r.Some? {
        LowerStrSlice(s, start, r.value.0);
      }
    }
  }

  lemma {:induction false} SpacesThenItemLower(tail: string -> Option<string>, s: string, from: nat, k: nat)
    requires IgnoresCase(tail)
    ensures SpacesThenItem(tail, LowerStr(s), from, k) == LowerListMatch(SpacesThenItem(tail, s, from, k))
    decreases k
  {
    var m := MatchItemAt(tail, s, from + k);
    MatchItemAtLower(tail, s, from + k);
    SpacesThenItemUnfold(tail, s, from, k, m);
    SpacesThenItemUnfold(tail, LowerStr(s), from, k, LowerListMatch(m));
    if m.None? && k != 0 {
      SpacesThenItemLower(tail, s, from, k - 1);
    }
  }

  lemma SpacesThenItemUnfold(tail: string -> Option<string>, s: string, from: nat, k: nat, m: Option<ListMatch>)
    requires MatchItemAt(tail, s, from + k) == m
    ensures SpacesThenItem(tail, s, from, k) == if m.Some? || k == 0 then m else SpacesThenItem(tail, s, from, k - 1)
  {
  }

  lemma SpaceRunLower(r: string)
    ensures SpaceRun(LowerStr(r)) == SpaceRun(r)
  {
    SkipSpacesLower(r);
  }

  /** What `ANYLIST_REGEX` captures after the optional command word, on the lower-cased text. */
  lemma AfterCommandLower(s: string, n: nat)
    requires n <= |s|
    ensures SpacesThenItem(ListTail, LowerStr(s), n, SpaceRun(LowerStr(s)[n..]))
            == LowerListMatch(SpacesThenItem(ListTail, s, n, SpaceRun(s[n..])))
  {
    LowerStrSlice(s, n, |s|);
    assert LowerStr(s)[n..] == LowerStr(s[n..]);
    SpaceRunLower(s[n..]);
    ListTailIgnoresCase();
    SpacesThenItemLower(ListTail, s, n, SpaceRun(s[n..]));
  }

  /** `ANYLIST_REGEX` ignores case: a text and its lower-cased form are both list requests or both
      not, and the captures of the lower-cased form are the lower-cased captures. */
  lemma MatchesIgnoresCase(s: string)
    ensures MatchList(LowerStr(s)) == LowerListMatch(MatchList(s))
    ensures Matches(LowerStr(s)) == Matches(s)
  {
    var l := LowerStr(s);
    var viaAdd := ViaCommand(s, "add");
    var viaPlease := ViaCommand(s, "please add");
    ViaCommandLower(s, "add");
    ViaCommandLower(s, "please add");
    AfterCommandLower(s, 0);
    assert s[0..] == s && l[0..] == l;
  }

  lemma ViaCommandLower(s: string, w: string)
    ensures ViaCommand(LowerStr(s), w) == LowerListMatch(ViaCommand(s, w))
  {
    LowerAfterPrefix(s, w);
    if HasPrefixCI(s, w) {
      AfterCommandLower(s, |w|);
    }
  }

  lemma NormalizeLower(transcript: string)
    ensures Normalize(LowerStr(transcript)) == LowerStr(Normalize(transcript))
  {
    TrimLower(transcript);
    CollapseLower(Trim(transcript));
  }

  /** `preprocessAnylist` of a lower-cased transcript picks the same list, and hands the splitter
      the lower-cased item: it is `preprocessAnylist` of the original with a splitter that
      lower-cases first. */
  lemma PreprocessIgnoresCase(transcript: string, smartSplit: string -> seq<string>)
    ensures PreprocessAnylist(LowerStr(transcript), smartSplit)
            == PreprocessAnylist(transcript, s => smartSplit(LowerStr(s)))
  {
    var n := Normalize(transcript);
    NormalizeLower(transcript);
    MatchesIgnoresCase(n);
    if MatchList(n).Some? {
      var m := MatchList(n).value;
      TrimLower(m.item);
      TrimLower(Trim(m.item));
      TrimLower(m.list);
      ListNameProperties(Trim(m.list));
    }
  }

  // ---------------------------------------------------------------------------------------
  // List requests as spoken.

  datatype Prefix = Add | PleaseAdd | NoPrefix

  function PrefixText(p: Prefix): string {
    match p
    case Add => "add "
    case PleaseAdd => "please add "
    case NoPrefix => ""
  }

  /** An item as a normalised transcript carries it: not empty, no whitespace at either end, and
      a single space between its words. */
  predicate NormalItem(item: string) {
    item != [] && Trimmed(item) && SingleSpaced(item)
  }

  /** No end inside `item` after which `tail` already matches the rest of the request: the lazy
      `(.+?)` cannot stop before the whole item. `"bread to the car"` followed by
      `" to the grocery list"` is an item that fails this. */
  predicate NoEarlyEnd(tail: string -> Option<string>, item: string, part: string) {
    forall j :: 0 < j < |item| ==> tail(item[j..] + part).None?
  }

  /** One word with no whitespace in it. */
  predicate IsItemWord(item: string) {
    item != [] && forall i :: 0 <= i < |item| ==> !IsSpace(item[i])
  }

  function ArticleText(the: bool): string {
    if the then "the" else "my"
  }

  /** What follows the item: `" to the <word> list"` or `" to my <word> list"`. */
  function ListPart(the: bool, word: string): string {
    " " + ("to" + (" " + (ArticleText(the) + (" " + (word + " list")))))
  }

  /** A list request as spoken. */
  function Phrase(prefix: Prefix, item: string, the: bool, word: string): string {
    PrefixText(prefix) + (item + ListPart(the, word))
  }

  /** `ListTail` needs whitespace first, so no end inside a word can close the item. */
  lemma ListTailNeedsSpace(r: string)
    requires r != [] && !IsSpace(r[0])
    ensures ListTail(r) == None
  {
  }

  lemma Spaces1OfSpaced(x: string)
    requires x != [] && !IsSpace(x[0])
    ensures Spaces1(" " + x) == Some(x)
  {
    SkipOneSpace(x);
  }

  lemma LiteralOfConcat(w: string, rest: string)
    ensures Literal(w + rest, w) == Some(rest)
  {
    PrefixCIOfConcat(w, rest);
  }

  lemma ArticleOfConcat(the: bool, rest: string)
    ensures Article(ArticleText(the) + rest) == Some(rest)
  {
    LiteralOfConcat(ArticleText(the), rest);
    if !the {
      var r := ArticleText(the) + rest;
      assert Lower(r[0]) != Lower("the"[0]);
    }
  }

  /** `AfterToArticle` from its five steps. */
  lemma AfterToArticleSteps(r: string, x: string, y: string, z: string, w: string, c: string)
    requires Spaces1(r) == Some(x) && Literal(x, "to") == Some(y) && Spaces1(y) == Some(z)
    requires Article(z) == Some(w) && Spaces1(w) == Some(c)
    ensures AfterToArticle(r) == Some(c)
  {
  }

  lemma AfterToArticleOfListPart(the: bool, c: string)
    requires c != [] && !IsSpace(c[0])
    ensures AfterToArticle(" " + ("to" + (" " + (ArticleText(the) + (" " + c))))) == Some(c)
  {
    var w := " " + c;
    var z := ArticleText(the) + w;
    var y := " " + z;
    var x := "to" + y;
    assert x[0] == 't' && z[0] in "tm";
    Spaces1OfSpaced(x);
    LiteralOfConcat("to", y);
    Spaces1OfSpaced(z);
    ArticleOfConcat(the, w);
    Spaces1OfSpaced(c);
    AfterToArticleSteps(" " + x, x, y, z, w, c);
  }

  /** `ListTail` from the word that follows `to the`/`to my`. */
  lemma ListTailFromWord(r: string, c: string, n: nat)
    requires AfterToArticle(r) == Some(c)
    requires 0 < n < |c| && IsWord(c[..n]) && IsSpace(c[n])
    ensures ListTail(r) == Some(c[..n])
  {
    TakeWordUpTo(c, n);
  }

  lemma TakeWordUpTo(c: string, n: nat)
    requires 0 < n < |c| && IsWord(c[..n]) && IsSpace(c[n])
    ensures TakeWord(c) == c[..n]
  {
    assert c == c[..n] + c[n..];
    TakeWholeWord(c[..n], c[n..]);
  }

  lemma ListTailOfListPart(the: bool, word: string)
    requires IsWord(word)
    ensures ListTail(ListPart(the, word)) == Some(word)
  {
    var c := word + " list";
    AfterToArticleOfListPart(the, c);
    assert c[..|word|] == word && c[|word|] == ' ';
    ListTailFromWord(ListPart(the, word), c, |word|);
  }

  /** The lazy search stops at the first end after which `tail` matches. */
  lemma ItemSearchFinds(tail: string -> Option<string>, s: string, start: nat, n: nat, w: string)
    requires 1 <= n && start + n <= |s|
    requires NoLineTerminator(s[start..start + n])
    requires forall j :: start < j < start + n ==> tail(s[j..]).None?
    requires tail(s[start + n..]) == Some(w)
    ensures ItemSearch(tail, s, start, start + 1) == Some((start + n, w))
    ensures MatchItemAt(tail, s, start) == Some(ListMatch(s[start..start + n], w))
  {
  }

  /** Single spacing leaves no line terminator: every whitespace character is a plain space. */
  lemma SingleSpacedNoLineTerminator(s: string)
    requires SingleSpaced(s)
    ensures NoLineTerminator(s)
  {
    forall i | 0 <= i < |s| ensures !IsLineTerminator(s[i]) {
      if IsLineTerminator(s[i]) {
        assert IsSpace(s[i]);
      }
    }
  }

  /** An item with no early end, followed by text the tail accepts, is captured whole. */
  lemma ItemBeforeTail(tail: string -> Option<string>, pre: string, item: string, part: string, word: string)
    requires NormalItem(item) && NoEarlyEnd(tail, item, part) && tail(part) == Some(word)
    ensures MatchItemAt(tail, pre + (item + part), |pre|) == Some(ListMatch(item, word))
  {
    var s := pre + (item + part);
    var k := |pre|;
    assert s[k + |item|..] == part;
    assert s[k..k + |item|] == item;
    SingleSpacedNoLineTerminator(item);
    forall j | k < j < k + |item| ensures tail(s[j..]).None? {
      assert s[j..] == item[j - k..] + part;
    }
    ItemSearchFinds(tail, s, k, |item|, word);
  }

  /** A tail that can only begin at whitespace. */
  ghost predicate NeedsLeadingSpace(tail: string -> Option<string>) {
    forall r :: r != [] && !IsSpace(r[0]) ==> tail(r).None?
  }

  lemma ListTailNeedsLeadingSpace()
    ensures NeedsLeadingSpace(ListTail)
  {
    forall r | r != [] && !IsSpace(r[0]) ensures ListTail(r).None? {
      ListTailNeedsSpace(r);
    }
  }

  /** A single word is a normal item, and no tail that needs whitespace first can end it early. */
  lemma WordIsNormalItem(tail: string -> Option<string>, item: string, part: string)
    requires NeedsLeadingSpace(tail) && IsItemWord(item)
    ensures NormalItem(item) && NoEarlyEnd(tail, item, part)
  {
    forall j | 0 < j < |item| ensures tail(item[j..] + part).None? {
      assert (item[j..] + part)[0] == item[j];
    }
  }

  lemma SpaceRunOfSpaced(x: string)
    requires x != [] && !IsSpace(x[0])
    ensures SpaceRun(" " + x) == 1
  {
    SkipOneSpace(x);
  }

  /** The greedy `\s*` keeps all its spaces when the item can start after them. */
  lemma SpacesThenItemFirst(tail: string -> Option<string>, s: string, from: nat, k: nat)
    requires MatchItemAt(tail, s, from + k).Some?
    ensures SpacesThenItem(tail, s, from, k) == MatchItemAt(tail, s, from + k)
  {
  }

  /** After the prefix, the item search of a spoken request stops right after the item. */
  lemma ItemInPhrase(prefix: Prefix, item: string, the: bool, word: string)
    requires NormalItem(item) && IsWord(word) && NoEarlyEnd(ListTail, item, ListPart(the, word))
    ensures MatchItemAt(ListTail, Phrase(prefix, item, the, word), |PrefixText(prefix)|)
            == Some(ListMatch(item, word))
  {
    ListTailOfListPart(the, word);
    ItemBeforeTail(ListTail, PrefixText(prefix), item, ListPart(the, word), word);
  }

  /** With `add` and one space in front, the match is the item search after them. */
  lemma MatchListAdd(s: string, m: ListMatch)
    requires HasPrefixCI(s, "add") && SpaceRun(s[3..]) == 1 && MatchItemAt(ListTail, s, 4) == Some(m)
    ensures MatchList(s) == Some(m)
  {
    SpacesThenItemFirst(ListTail, s, 3, 1);
  }

  /** With `please add` and one space in front, the match is the item search after them. */
  lemma MatchListPleaseAdd(s: string, m: ListMatch)
    requires !HasPrefixCI(s, "add") && HasPrefixCI(s, "please add")
    requires SpaceRun(s[10..]) == 1 && MatchItemAt(ListTail, s, 11) == Some(m)
    ensures MatchList(s) == Some(m)
  {
    SpacesThenItemFirst(ListTail, s, 10, 1);
  }

  /** `add ` in front of text that starts with a non-space. */
  lemma AddThen(rest: string)
    requires rest != [] && !IsSpace(rest[0])
    ensures HasPrefixCI("add" + (" " + rest), "add") && SpaceRun(("add" + (" " + rest))[3..]) == 1
  {
    PrefixCIOfConcat("add", " " + rest);
    SpaceRunOfSpaced(rest);
  }

  /** `please add ` in front of text that starts with a non-space. */
  lemma PleaseAddThen(rest: string)
    requires rest != [] && !IsSpace(rest[0])
    ensures !HasPrefixCI("please add" + (" " + rest), "add")
    ensures HasPrefixCI("please add" + (" " + rest), "please add")
    ensures SpaceRun(("please add" + (" " + rest))[10..]) == 1
  {
    var s := "please add" + (" " + rest);
    PrefixCIOfConcat("please add", " " + rest);
    assert Lower(s[0]) != Lower("add"[0]);
    SpaceRunOfSpaced(rest);
  }

  lemma MatchPhraseAdd(item: string, the: bool, word: string)
    requires NormalItem(item) && IsWord(word) && NoEarlyEnd(ListTail, item, ListPart(the, word))
    ensures MatchList(Phrase(Add, item, the, word)) == Some(ListMatch(item, word))
  {
    var rest := item + ListPart(the, word);
    assert Phrase(Add, item, the, word) == "add" + (" " + rest);
    assert rest[0] == item[0];
    AddThen(rest);
    ItemInPhrase(Add, item, the, word);
    MatchListAdd(Phrase(Add, item, the, word), ListMatch(item, word));
  }

  lemma MatchPhrasePleaseAdd(item: string, the: bool, word: string)
    requires NormalItem(item) && IsWord(word) && NoEarlyEnd(ListTail, item, ListPart(the, word))
    ensures MatchList(Phrase(PleaseAdd, item, the, word)) == Some(ListMatch(item, word))
  {
    var rest := item + ListPart(the, word);
    assert Phrase(PleaseAdd, item, the, word) == "please add" + (" " + rest);
    assert rest[0] == item[0];
    PleaseAddThen(rest);
    ItemInPhrase(PleaseAdd, item, the, word);
    MatchListPleaseAdd(Phrase(PleaseAdd, item, the, word), ListMatch(item, word));
  }

  /** An item that does not start with `add` does not start with it once text beginning with a
      space follows. */
  lemma NoAddBeforeSpace(item: string, part: string)
    requires part != [] && part[0] == ' '
    requires !HasPrefixCI(item, "add")
    ensures !HasPrefixCI(item + part, "add")
  {
    var s := item + part;
    if |s| >= 3 {
      if |item| < 3 {
        assert s[|item|] == ' ';
        assert Lower(s[|item|]) != Lower("add"[|item|]);
      } else {
        var i :| 0 <= i < 3 && Lower(item[i]) != Lower("add"[i]);
        assert s[i] == item[i];
      }
    }
  }

  /** Fewer than ten characters followed by `" t"` never start with `please add`: the space after
      them would have to be the one inside `please add`, which is followed by `a`. */
  lemma NoPleaseAddInShort(item: string, part: string)
    requires |item| < 10 && |part| >= 2 && part[0] == ' ' && part[1] == 't'
    ensures !HasPrefixCI(item + part, "please add")
  {
    var s := item + part;
    if |s| >= 10 {
      if |item| != 6 {
        assert s[|item|] == ' ';
        assert Lower(s[|item|]) != Lower("please add"[|item|]);
      } else {
        assert s[7] == 't';
        assert Lower(s[7]) != Lower("please add"[7]);
      }
    }
  }

  /** An item that does not start with `please add`, followed by `" t"`, does not start with it. */
  lemma NoPleaseAddBeforeTo(item: string, part: string)
    requires |part| >= 2 && part[0] == ' ' && part[1] == 't'
    requires !HasPrefixCI(item, "please add")
    ensures !HasPrefixCI(item + part, "please add")
  {
    if |item| < 10 {
      NoPleaseAddInShort(item, part);
    } else {
      var s := item + part;
      var i :| 0 <= i < 10 && Lower(item[i]) != Lower("please add"[i]);
      assert s[i] == item[i];
    }
  }

  lemma SpaceRunOfWord(s: string)
    requires s != [] && !IsSpace(s[0])
    ensures SpaceRun(s) == 0
  {
  }

  lemma ListPartStart(the: bool, word: string)
    ensures |ListPart(the, word)| >= 2 && ListPart(the, word)[0] == ' ' && ListPart(the, word)[1] == 't'
  {
  }

  /** Without `add` or `please add` in front and without leading whitespace, the match is the
      item search from the start. */
  lemma MatchListBare(s: string, m: ListMatch)
    requires !HasPrefixCI(s, "add") && !HasPrefixCI(s, "please add")
    requires SpaceRun(s) == 0 && MatchItemAt(ListTail, s, 0) == Some(m)
    ensures MatchList(s) == Some(m)
  {
    SpacesThenItemFirst(ListTail, s, 0, 0);
  }

  lemma MatchPhraseBare(item: string, the: bool, word: string)
    requires NormalItem(item) && IsWord(word) && NoEarlyEnd(ListTail, item, ListPart(the, word))
    requires !HasPrefixCI(item, "add") && !HasPrefixCI(item, "please add")
    ensures MatchList(Phrase(NoPrefix, item, the, word)) == Some(ListMatch(item, word))
  {
    var part := ListPart(the, word);
    var s := item + part;
    assert Phrase(NoPrefix, item, the, word) == s;
    ListPartStart(the, word);
    NoAddBeforeSpace(item, part);
    NoPleaseAddBeforeTo(item, part);
    assert s[0] == item[0];
    SpaceRunOfWord(s);
    ItemInPhrase(NoPrefix, item, the, word);
    MatchListBare(s, ListMatch(item, word));
  }

  /** Round trip: a spoken request for an item yields that item and the list word, with or
      without `add`/`please add`, provided the lazy capture cannot stop inside the item. Without
      a prefix, an item that itself starts with `add` or `please add` would lose those letters to
      the optional prefix, hence the last condition. */
  lemma MatchPhrase(prefix: Prefix, item: string, the: bool, word: string)
    requires NormalItem(item) && IsWord(word) && NoEarlyEnd(ListTail, item, ListPart(the, word))
    requires prefix == NoPrefix ==> !HasPrefixCI(item, "add") && !HasPrefixCI(item, "please add")
    ensures MatchList(Phrase(prefix, item, the, word)) == Some(ListMatch(item, word))
  {
    match prefix
    case Add => MatchPhraseAdd(item, the, word);
    case PleaseAdd => MatchPhrasePleaseAdd(item, the, word);
    case NoPrefix => MatchPhraseBare(item, the, word);
  }

  /** The item of a single-word request is always found whole. */
  lemma MatchWordPhrase(prefix: Prefix, item: string, the: bool, word: string)
    requires IsItemWord(item) && IsWord(word)
    requires prefix == NoPrefix ==> !HasPrefixCI(item, "add")
    ensures MatchList(Phrase(prefix, item, the, word)) == Some(ListMatch(item, word))
  {
    ListTailNeedsLeadingSpace();
    WordIsNormalItem(ListTail, item, ListPart(the, word));
    if |item| >= 10 {
      assert item[6] != Lower("please add"[6]);
    }
    MatchPhrase(prefix, item, the, word);
  }

  // ---------------------------------------------------------------------------------------
  // The whole of `preprocessAnylist` on a spoken request.

  lemma NoSpacesIsNormal(x: string)
    requires forall i :: 0 <= i < |x| ==> !IsSpace(x[i])
    ensures SingleSpaced(x) && Trimmed(x)
  {
  }

  /** `"<word> list"` is single-spaced, starts with the word and ends with `t`. */
  lemma WordListSpaced(word: string)
    requires IsWord(word)
    ensures SingleSpaced(word + " list")
    ensures (word + " list")[0] == word[0] && (word + " list")[|word| + 4] == 't'
  {
    NoSpacesIsNormal(word);
    NoSpacesIsNormal("list");
    SingleSpacedJoin(word, "list");
    assert word + " list" == word + (" " + "list");
  }

  lemma ListPartSingleSpaced(the: bool, word: string)
    requires IsWord(word)
    ensures SingleSpaced(ListPart(the, word))
    ensures ListPart(the, word)[0] == ' ' && ListPart(the, word)[|ListPart(the, word)| - 1] == 't'
  {
    var a := ArticleText(the);
    var t := word + " list";
    WordListSpaced(word);
    NoSpacesIsNormal(a);
    SingleSpacedJoin(a, t);
    var u := a + (" " + t);
    NoSpacesIsNormal("to");
    SingleSpacedJoin("to", u);
    var v := "to" + (" " + u);
    SingleSpacedConcat(" ", v);
    assert ListPart(the, word) == " " + v;
  }

  /** The spoken command words keep a single-spaced text that starts with a letter single-spaced. */
  lemma PrefixSpaced(prefix: Prefix, x: string)
    requires SingleSpaced(x) && x != [] && !IsSpace(x[0])
    ensures SingleSpaced(PrefixText(prefix) + x)
    ensures (PrefixText(prefix) + x)[0] == (if prefix == NoPrefix then x[0] else PrefixText(prefix)[0])
  {
    match prefix
    case Add =>
      NoSpacesIsNormal("add");
      SingleSpacedJoin("add", x);
      assert PrefixText(prefix) + x == "add" + (" " + x);
    case PleaseAdd =>
      NoSpacesIsNormal("please");
      NoSpacesIsNormal("add");
      SingleSpacedJoin("please", "add");
      assert "please" + (" " + "add") == "please add";
      SingleSpacedJoin("please add", x);
      assert PrefixText(prefix) + x == "please add" + (" " + x);
    case NoPrefix =>
      assert PrefixText(prefix) + x == x;
  }

  /** A single-spaced text without outer whitespace is its own normal form. */
  lemma NormalOfNormal(s: string)
    requires SingleSpaced(s) && Trimmed(s)
    ensures Normalize(s) == s
  {
    TrimOfTrimmed(s);
    CollapseSingleSpaced(s);
  }

  /** A spoken request for a normal item is already in the normal form `preprocessAnylist`
      produces. */
  lemma PhraseIsNormal(prefix: Prefix, item: string, the: bool, word: string)
    requires NormalItem(item) && IsWord(word)
    ensures Normalize(Phrase(prefix, item, the, word)) == Phrase(prefix, item, the, word)
  {
    var part := ListPart(the, word);
    ListPartSingleSpaced(the, word);
    SingleSpacedConcat(item, part);
    var x := item + part;
    assert x[0] == item[0] && x[|x| - 1] == part[|part| - 1];
    PrefixSpaced(prefix, x);
    var s := PrefixText(prefix) + x;
    assert s[|s| - 1] == x[|x| - 1];
    NormalOfNormal(s);
  }

  lemma PhraseNormalMatch(prefix: Prefix, item: string, the: bool, word: string)
    requires NormalItem(item) && IsWord(word) && NoEarlyEnd(ListTail, item, ListPart(the, word))
    requires prefix == NoPrefix ==> !HasPrefixCI(item, "add") && !HasPrefixCI(item, "please add")
    ensures MatchList(Normalize(Phrase(prefix, item, the, word))) == Some(ListMatch(item, word))
  {
    PhraseIsNormal(prefix, item, the, word);
    MatchPhrase(prefix, item, the, word);
  }

  lemma TrimNoSpaces(x: string)
    requires forall i :: 0 <= i < |x| ==> !IsSpace(x[i])
    ensures Trim(x) == x && Trim(Trim(x)) == x
  {
    NoSpacesIsNormal(x);
    TrimOfTrimmed(x);
  }

  /** A normal item survives both of `preprocessAnylist`'s trims. */
  lemma TrimNormalItem(item: string)
    requires NormalItem(item)
    ensures Trim(Trim(item)) == item
  {
    TrimOfTrimmed(item);
  }

  lemma TrimWord(word: string)
    requires IsWord(word)
    ensures Trim(word) == word
  {
    TrimNoSpaces(word);
  }

  /** `preprocessAnylist` in terms of the match on the normalised transcript. */
  lemma PreprocessSteps(t: string, item: string, word: string, smartSplit: string -> seq<string>)
    requires MatchList(Normalize(t)) == Some(ListMatch(item, word))
    requires Trim(Trim(item)) == item && Trim(word) == word
    ensures PreprocessAnylist(t, smartSplit) == Some(ListRequest(smartSplit(item), ListName(word)))
  {
  }

  /** End to end: a spoken request hands exactly its item, however many words it has, to the
      splitter and names the list its word selects, provided the lazy capture cannot stop inside
      the item. */
  lemma PreprocessPhrase(prefix: Prefix, item: string, the: bool, word: string, smartSplit: string -> seq<string>)
    requires NormalItem(item) && IsWord(word) && NoEarlyEnd(ListTail, item, ListPart(the, word))
    requires prefix == NoPrefix ==> !HasPrefixCI(item, "add") && !HasPrefixCI(item, "please add")
    ensures PreprocessAnylist(Phrase(prefix, item, the, word), smartSplit)
            == Some(ListRequest(smartSplit(item), ListName(word)))
  {
    PhraseNormalMatch(prefix, item, the, word);
    TrimNormalItem(item);
    TrimWord(word);
    PreprocessSteps(Phrase(prefix, item, the, word), item, word, smartSplit);
  }

  /** A tail that can only match where `\s+to\s+(?:the|my)\s+` does. */
  ghost predicate StartsWithToArticle(tail: string -> Option<string>) {
    forall r :: tail(r).Some? ==> AfterToArticle(r).Some?
  }

  lemma ListTailStartsWithToArticle()
    ensures StartsWithToArticle(ListTail)
  {
  }

  /** No word of the item after its first is `to`, in any case. */
  predicate NoToWord(item: string) {
    forall j {:trigger item[j]} :: 0 < j < |item| && item[j] == ' ' ==>
      !(HasPrefixCI(item[j + 1..], "to") && (|item| == j + 3 || IsSpace(item[j + 3])))
  }

  /** After a space inside the item, the next word is not `to`, so `\s+to\s+` fails there. */
  lemma NoToAfterSpace(item: string, part: string, j: nat)
    requires NormalItem(item) && NoToWord(item) && part != [] && part[0] == ' '
    requires 0 < j < |item| && item[j] == ' '
    ensures AfterToArticle(item[j..] + part).None?
  {
    var x := item[j + 1..] + part;
    assert item[j..] + part == " " + x;
    assert x[0] == item[j + 1];
    Spaces1OfSpaced(x);
    if |item| == j + 2 {
      assert x[1] == ' ';
    } else if HasPrefixCI(x, "to") {
      assert HasPrefixCI(item[j + 1..], "to") by {
        assert forall i :: 0 <= i < 2 ==> item[j + 1..][i] == x[i];
      }
      assert |item| > j + 3 && !IsSpace(item[j + 3]);
      assert x[2..][0] == item[j + 3];
    }
  }

  /** A normal item none of whose later words is `to` has no early end before any text that
      starts with a space. */
  lemma NoToWordNoEarlyEnd(tail: string -> Option<string>, item: string, part: string)
    requires NeedsLeadingSpace(tail) && StartsWithToArticle(tail)
    requires NormalItem(item) && NoToWord(item) && part != [] && part[0] == ' '
    ensures NoEarlyEnd(tail, item, part)
  {
    forall j | 0 < j < |item| ensures tail(item[j..] + part).None? {
      var r := item[j..] + part;
      assert r[0] == item[j];
      if item[j] == ' ' {
        NoToAfterSpace(item, part, j);
      }
    }
  }

  /** End to end for every request whose item has no `to` word after its first: the item,
      however many words it has, is handed to the splitter whole. */
  lemma PreprocessWordsPhrase(prefix: Prefix, item: string, the: bool, word: string, smartSplit: string -> seq<string>)
    requires NormalItem(item) && NoToWord(item) && IsWord(word)
    requires prefix == NoPrefix ==> !HasPrefixCI(item, "add") && !HasPrefixCI(item, "please add")
    ensures PreprocessAnylist(Phrase(prefix, item, the, word), smartSplit)
            == Some(ListRequest(smartSplit(item), ListName(word)))
  {
    ListTailNeedsLeadingSpace();
    ListTailStartsWithToArticle();
    ListPartStart(the, word);
    NoToWordNoEarlyEnd(ListTail, item, ListPart(the, word));
    PreprocessPhrase(prefix, item, the, word, smartSplit);
  }

  /** `milk and eggs` is a normal item with no `to` word. */
  lemma MilkAndEggsItem()
    ensures NormalItem("milk and eggs") && NoToWord("milk and eggs")
  {
    var item := "milk and eggs";
    forall i | 0 <= i < |item| && IsSpace(item[i]) ensures i == 4 || i == 8 {
    }
    assert !HasPrefixCI(item[5..], "to") by { assert item[5] == 'a'; }
    assert !HasPrefixCI(item[9..], "to") by { assert item[9] == 'e'; }
  }

  /** A multi-word request: `add milk and eggs to the grocery list` hands `milk and eggs`, whole,
      to the splitter, for the grocery list. */
  lemma PreprocessMilkAndEggs(item: string, word: string, smartSplit: string -> seq<string>)
    requires item == "milk and eggs" && word == "grocery"
    ensures PreprocessAnylist(Phrase(Add, item, true, word), smartSplit)
            == Some(ListRequest(smartSplit(item), "Grocery List"))
  {
    MilkAndEggsItem();
    GroceryWord(word);
    PreprocessWordsPhrase(Add, item, true, word, smartSplit);
  }

  /** `grocery` is a word, and it names the grocery list. */
  lemma GroceryWord(word: string)
    requires word == "grocery"
    ensures IsWord(word) && ListName(word) == "Grocery List"
  {
    assert forall i :: 0 <= i < |word| ==> 'a' <= word[i] <= 'z';
    assert LowerStr(word) == word;
  }
}
