/** The text side of speech output in `src/tts/index.js`: how a reply is cut into the tokens
    streamed to the synthesiser, with `{word|pronunciation}` markers folded back into single
    tokens, which language the voice model is for, which audio device is used, and when nothing
    is said at all. */
module Tts {
  import opened Wrappers
  import opened Text

  // ---------------------------------------------------------------------------------------
  // splitText

  /** `splitText(text, language)`: Korean and Japanese go one character at a time; any other
      language goes through the `gpt-4` tokenizer, which is the parameter `tiktoken`. */
  function SplitText(text: string, language: string, tiktoken: string -> seq<string>): (r: seq<string>)
    ensures language == "ko" || language == "ja" ==> |r| == |text| && forall k :: 0 <= k < |r| ==> r[k] == [text[k]]
  {
    if language == "ko" || language == "ja" then seq(|text|, k requires 0 <= k < |text| => [text[k]])
    else tiktoken(text)
  }

  /** The tokens written one after the other. */
  function Concat(tokens: seq<string>): string {
    if tokens == [] then "" else Concat(tokens[..|tokens| - 1]) + tokens[|tokens| - 1]
  }

  /** Splitting character by character loses nothing: the tokens spell the text again. */
  lemma {:induction false} SplitTextRejoins(text: string, language: string, tiktoken: string -> seq<string>)
    requires language == "ko" || language == "ja"
    ensures Concat(SplitText(text, language, tiktoken)) == text
  {
    if text != [] {
      var front := text[..|text| - 1];
      SplitTextRejoins(front, language, tiktoken);
      var r := SplitText(text, language, tiktoken);
      assert r[..|r| - 1] == SplitText(front, language, tiktoken);
      assert text == front + [text[|text| - 1]];
    }
  }

  // ---------------------------------------------------------------------------------------
  // The two marker patterns. `/\{(.*?\|.*?)}/` tried at `p` takes the first `|` after the `{`
  // and then the first `}` after that; `/\{(.*?\|.*?)}(?!\s)/` takes the first `}` that is
  // not followed by whitespace instead. Neither `.*?` crosses a line terminator.

  /** A custom pronunciation marker: `{`, some text with a `|` in it, `}`, all on one line. */
  predicate IsMarker(m: string) {
    |m| >= 3 && m[0] == '{' && m[|m| - 1] == '}' && '|' in m[1..|m| - 1] && NoLineTerminator(m)
  }

  /** The first `c` at or after `i` that comes before any line terminator. */
  function FindInLine(s: string, i: nat, c: char): (r: Option<nat>)
    requires i <= |s|
    ensures r.Some? ==> i <= r.value < |s| && s[r.value] == c
    ensures r.Some? ==> forall j :: i <= j < r.value ==> !IsLineTerminator(s[j])
    decreases |s| - i
  {
    if i == |s| || IsLineTerminator(s[i]) then None
    else if s[i] == c then Some(i)
    else FindInLine(s, i + 1, c)
  }

  /** A `}` at `j`, which for the second pattern must not be followed by whitespace. */
  predicate ClosesAt(s: string, j: nat, unspaced: bool)
    requires j < |s|
  {
    s[j] == '}' && (!unspaced || j + 1 == |s| || !IsSpace(s[j + 1]))
  }

  /** The first closing `}` at or after `i` that comes before any line terminator. */
  function FindClose(s: string, i: nat, unspaced: bool): (r: Option<nat>)
    requires i <= |s|
    ensures r.Some? ==> i <= r.value < |s| && ClosesAt(s, r.value, unspaced)
    ensures r.Some? ==> forall j :: i <= j < r.value ==> !IsLineTerminator(s[j])
    decreases |s| - i
  {
    if i == |s| || IsLineTerminator(s[i]) then None
    else if ClosesAt(s, i, unspaced) then Some(i)
    else FindClose(s, i + 1, unspaced)
  }

  /** Where the marker pattern matched at `p` ends, if it matches there. */
  function MarkerEnd(s: string, p: nat, unspaced: bool): (r: Option<nat>)
    requires p < |s|
    ensures r.Some? ==> p < r.value <= |s| && IsMarker(s[p..r.value])
  {
    if s[p] != '{' then None
    else match FindInLine(s, p + 1, '|')
      case None => None
      case Some(bar) =>
        match FindClose(s, bar + 1, unspaced)
        case None => None
        case Some(close) =>
          var m := s[p..close + 1];
          assert m[bar - p] == '|' && m[1..|m| - 1][bar - p - 1] == '|';
          assert forall j :: 0 <= j < |m| ==> m[j] == s[p + j];
          Some(close + 1)
  }

  /** `text.replace(/\{(.*?\|.*?)}(?!\s)/g, '{$1} ')` from position `p` on. */
  function SpaceFrom(s: string, p: nat): string
    requires p <= |s|
    decreases |s| - p
  {
    if p == |s| then []
    else match MarkerEnd(s, p, true)
      case Some(q) => s[p..q] + " " + SpaceFrom(s, q)
      case None => [s[p]] + SpaceFrom(s, p + 1)
  }

  /** A space after every marker that is glued to what follows it. */
  function SpaceAfterMarkers(text: string): string {
    SpaceFrom(text, 0)
  }

  /** `text.match(/\{(.*?\|.*?)}/g) || []` from position `p` on. */
  function MarkersFrom(s: string, p: nat): (r: seq<string>)
    requires p <= |s|
    ensures forall k :: 0 <= k < |r| ==> IsMarker(r[k])
    decreases |s| - p
  {
    if p == |s| then []
    else match MarkerEnd(s, p, false)
      case Some(q) => [s[p..q]] + MarkersFrom(s, q)
      case None => MarkersFrom(s, p + 1)
  }

  function Markers(text: string): seq<string> {
    MarkersFrom(text, 0)
  }

  /** `new Set(xs)`, iterated in insertion order: the first occurrence of each element. */
  function Dedup<T(==)>(xs: seq<T>): seq<T> {
    if xs == [] then []
    else
      var d := Dedup(xs[..|xs| - 1]);
      if xs[|xs| - 1] in d then d else d + [xs[|xs| - 1]]
  }

  /** The set keeps every marker and holds each one once. */
  lemma {:induction false} DedupSound<T>(xs: seq<T>)
    ensures forall x :: x in Dedup(xs) <==> x in xs
    ensures forall i, j :: 0 <= i < j < |Dedup(xs)| ==> Dedup(xs)[i] != Dedup(xs)[j]
  {
    if xs != [] {
      var front := xs[..|xs| - 1];
      DedupSound(front);
      assert xs == front + [xs[|xs| - 1]];
    }
  }

  /** Without a `{` there is nothing to match: the text is unchanged and there are no markers. */
  lemma {:induction false} NoBraceNoMarkers(s: string, p: nat)
    requires p <= |s|
    requires forall j :: p <= j < |s| ==> s[j] != '{'
    ensures SpaceFrom(s, p) == s[p..]
    ensures MarkersFrom(s, p) == []
    decreases |s| - p
  {
    if p < |s| {
      NoBraceNoMarkers(s, p + 1);
      assert s[p..] == [s[p]] + s[p + 1..];
    }
  }

  lemma {:induction false} FindInLineAt(s: string, i: nat, j: nat, c: char)
    requires i <= j < |s| && s[j] == c && !IsLineTerminator(c)
    requires forall k :: i <= k < j ==> s[k] != c && !IsLineTerminator(s[k])
    ensures FindInLine(s, i, c) == Some(j)
    decreases j - i
  {
    if i < j {
      FindInLineAt(s, i + 1, j, c);
    }
  }

  lemma {:induction false} FindCloseAt(s: string, i: nat, j: nat, unspaced: bool)
    requires i <= j < |s| && ClosesAt(s, j, unspaced)
    requires forall k :: i <= k < j ==> s[k] != '}' && !IsLineTerminator(s[k])
    ensures FindClose(s, i, unspaced) == Some(j)
    decreases j - i
  {
    if i < j {
      FindCloseAt(s, i + 1, j, unspaced);
    }
  }

  /** Text that can sit inside a marker without ending it early. */
  predicate Plain(w: string) {
    forall k :: 0 <= k < |w| ==> w[k] != '{' && w[k] != '|' && w[k] != '}' && !IsLineTerminator(w[k])
  }

  function Marker(word: string, pron: string): string {
    "{" + word + "|" + pron + "}"
  }

  /** Both patterns match a marker at the start of the text, up to its `}`, when that `}` is
      not followed by whitespace. */
  lemma MarkerAtStart(word: string, pron: string, rest: string, unspaced: bool)
    requires Plain(word) && Plain(pron)
    requires unspaced ==> rest != [] && !IsSpace(rest[0])
    ensures MarkerEnd(Marker(word, pron) + rest, 0, unspaced) == Some(|Marker(word, pron)|)
  {
    var m := Marker(word, pron);
    var s := m + rest;
    var bar := |word| + 1;
    var close := |m| - 1;
    assert s[bar] == '|' && s[close] == '}';
    forall k | 1 <= k < bar ensures s[k] != '|' && !IsLineTerminator(s[k]) {
      assert s[k] == word[k - 1];
    }
    FindInLineAt(s, 1, bar, '|');
    forall k | bar + 1 <= k < close ensures s[k] != '}' && !IsLineTerminator(s[k]) {
      assert s[k] == pron[k - bar - 1];
    }
    if unspaced {
      assert s[close + 1] == rest[0];
    }
    FindCloseAt(s, bar + 1, close, unspaced);
  }

  /** A marker glued to the word after it gets a space inserted after it; that marker is then
      the one pronunciation found. */
  lemma GluedMarker(word: string, pron: string, rest: string)
    requires Plain(word) && Plain(pron)
    requires rest != [] && !IsSpace(rest[0])
    requires forall j :: 0 <= j < |rest| ==> rest[j] != '{'
    ensures SpaceAfterMarkers(Marker(word, pron) + rest) == Marker(word, pron) + " " + rest
    ensures Dedup(Markers(Marker(word, pron) + " " + rest)) == [Marker(word, pron)]
  {
    var m := Marker(word, pron);
    var s := m + rest;
    MarkerAtStart(word, pron, rest, true);
    NoBraceNoMarkers(s, |m|);
    assert s[..|m|] == m && s[|m|..] == rest;
    var t := m + (" " + rest);
    assert t == m + " " + rest;
    MarkerAtStart(word, pron, " " + rest, false);
    NoBraceNoMarkers(t, |m|);
    assert t[..|m|] == m;
  }

  // ---------------------------------------------------------------------------------------
  // The absorb/flush scan of `tokenizeText`.

  /** What the scan emits: a token passed through, or a pronunciation it had accumulated. */
  datatype Piece = Token(text: string) | Pronunciation(text: string)

  /** The state between two tokens: the pronunciation being accumulated (`customPron`) and what
      has been emitted so far. */
  datatype ScanState = ScanState(customPron: string, pieces: seq<Piece>)

  /** `currentMatch` while no marker has yet absorbed the token: the trimmed token when nothing
      has been accumulated, otherwise the accumulation followed by the token. */
  function FirstMatch(customPron: string, token: string): string {
    if customPron == "" then Trim(token) else customPron + token
  }

  /** The inner `forEach` over the markers, for one token: each marker that starts with what
      has been accumulated (the trimmed token when nothing has) extends the accumulation.
      The flag tells whether any did (see `AbsorbWhen` for when that is). */
  function Absorb(prons: seq<string>, customPron: string, token: string): (r: (string, bool))
    ensures !r.1 ==> r.0 == customPron
    ensures r.1 ==> StartsSomeMarker(prons, r.0)
  {
    if prons == [] then (customPron, false)
    else
      var prev := Absorb(prons[..|prons| - 1], customPron, token);
      var inGlobal := |prev.0| > 0;
      var currentMatch := if !inGlobal then Trim(token) else prev.0 + token;
      if HasPrefix(prons[|prons| - 1], currentMatch) then
        assert prev.0 + (if !inGlobal then Trim(token) else token) == currentMatch;
        (prev.0 + (if !inGlobal then Trim(token) else token), true)
      else
        StartsMarkerOfFront(prons, prev.0);
        prev
  }

  /** A token is absorbed exactly when some marker starts with `currentMatch` as it stands
      before any marker has absorbed it: until one does, the accumulation is unchanged, and once
      one has, the flag stays set. */
  lemma {:induction false} AbsorbWhen(prons: seq<string>, customPron: string, token: string)
    ensures Absorb(prons, customPron, token).1 <==> StartsSomeMarker(prons, FirstMatch(customPron, token))
  {
    if prons != [] {
      var front := prons[..|prons| - 1];
      AbsorbWhen(front, customPron, token);
      StartsMarkerOfFront(prons, FirstMatch(customPron, token));
      var prev := Absorb(front, customPron, token);
      if !prev.1 {
        assert prev.0 == customPron;
        assert FirstMatch(customPron, token) == (if |prev.0| > 0 then prev.0 + token else Trim(token));
      }
    }
  }

  /** `a` starts one of the markers exactly when it starts one before the last, or the last. */
  lemma StartsMarkerOfFront(prons: seq<string>, a: string)
    requires prons != []
    ensures StartsSomeMarker(prons, a)
            <==> StartsSomeMarker(prons[..|prons| - 1], a) || HasPrefix(prons[|prons| - 1], a)
  {
    var front := prons[..|prons| - 1];
    if StartsSomeMarker(front, a) {
      var k :| 0 <= k < |front| && HasPrefix(front[k], a);
      assert front[k] == prons[k];
    }
    if StartsSomeMarker(prons, a) {
      var k :| 0 <= k < |prons| && HasPrefix(prons[k], a);
      if k < |front| {
        assert front[k] == prons[k];
      }
    }
  }

  /** `a` is the start of one of the markers. */
  predicate StartsSomeMarker(prons: seq<string>, a: string) {
    exists k :: 0 <= k < |prons| && HasPrefix(prons[k], a)
  }

  /** The outer step for token number `i`: an absorbed token emits nothing; any other first
      flushes the accumulated pronunciation, if any, and is then emitted itself. */
  function Step(prons: seq<string>, st: ScanState, token: string, i: nat): ScanState {
    var a := Absorb(prons, st.customPron, token);
    if a.1 then ScanState(a.0, st.pieces)
    else if st.customPron != "" then
      ScanState("", st.pieces + [Pronunciation(if i != 0 then " " + st.customPron else st.customPron), Token(token)])
    else ScanState("", st.pieces + [Token(token)])
  }

  function Scan(prons: seq<string>, tokens: seq<string>): ScanState {
    if tokens == [] then ScanState("", [])
    else Step(prons, Scan(prons, tokens[..|tokens| - 1]), tokens[|tokens| - 1], |tokens| - 1)
  }

  function Texts(pieces: seq<Piece>): seq<string> {
    seq(|pieces|, k requires 0 <= k < |pieces| => pieces[k].text)
  }

  lemma TextsSnoc(pieces: seq<Piece>, more: seq<Piece>)
    ensures Texts(pieces + more) == Texts(pieces) + Texts(more)
  {
  }

  /** The inner loop's step: marker number `j` against the accumulation so far. */
  lemma AbsorbOneMore(prons: seq<string>, j: nat, customPron: string, token: string)
    requires j < |prons|
    ensures var prev := Absorb(prons[..j], customPron, token);
      var currentMatch := if |prev.0| > 0 then prev.0 + token else Trim(token);
      Absorb(prons[..j + 1], customPron, token)
      == if HasPrefix(prons[j], currentMatch) then (prev.0 + (if |prev.0| > 0 then token else Trim(token)), true)
         else prev
  {
    assert prons[..j + 1][..j] == prons[..j];
  }

  /** The inner loop of `tokenizeText`: one token against every marker. */
  method AbsorbToken(prons: seq<string>, customPron: string, token: string) returns (pron: string, inCustomPron: bool)
    ensures (pron, inCustomPron) == Absorb(prons, customPron, token)
  {
    pron := customPron;
    inCustomPron := false;
    for j := 0 to |prons|
      invariant (pron, inCustomPron) == Absorb(prons[..j], customPron, token)
    {
      AbsorbOneMore(prons, j, customPron, token);
      var inCustomPronGlobal := |pron| > 0;
      var currentMatch := if !inCustomPronGlobal then Trim(token) else pron + token;
      if HasPrefix(prons[j], currentMatch) {
        pron := pron + (if !inCustomPronGlobal then Trim(token) else token);
        inCustomPron := true;
      }
    }
    assert prons[..|prons|] == prons;
  }

  /** One outer step on the emitted strings: nothing for an absorbed token, otherwise the
      flushed pronunciation, if any, and the token. */
  lemma StepTexts(prons: seq<string>, st: ScanState, token: string, i: nat)
    ensures var a := Absorb(prons, st.customPron, token);
      var next := Step(prons, st, token, i);
      next.customPron == (if a.1 then a.0 else "")
      && Texts(next.pieces) == Texts(st.pieces)
         + (if a.1 then []
            else (if st.customPron != "" then [if i != 0 then " " + st.customPron else st.customPron] else [])
                 + [token])
  {
    var next := Step(prons, st, token, i);
    TextsSnoc(st.pieces, next.pieces[|st.pieces|..]);
    assert next.pieces == st.pieces + next.pieces[|st.pieces|..];
  }

  /** The outer loop of `tokenizeText`, over the raw tokens and the de-duplicated markers. */
  method MergeTokens(prons: seq<string>, tokensRaw: seq<string>) returns (tokens: seq<string>)
    ensures tokens == Texts(Scan(prons, tokensRaw).pieces)
  {
    var customPron := "";
    tokens := [];
    for i := 0 to |tokensRaw|
      invariant customPron == Scan(prons, tokensRaw[..i]).customPron
      invariant tokens == Texts(Scan(prons, tokensRaw[..i]).pieces)
    {
      ghost var st := Scan(prons, tokensRaw[..i]);
      var token := tokensRaw[i];
      var absorbed, inCustomPron := AbsorbToken(prons, customPron, token);
      if inCustomPron {
        customPron := absorbed;
      } else {
        if customPron != "" {
          tokens := tokens + [if i != 0 then " " + customPron else customPron];
          customPron := "";
        }
        tokens := tokens + [token];
      }
      assert tokensRaw[..i + 1][..i] == tokensRaw[..i];
      assert Scan(prons, tokensRaw[..i + 1]) == Step(prons, st, token, i);
      StepTexts(prons, st, token, i);
    }
    assert tokensRaw[..|tokensRaw|] == tokensRaw;
  }

  /** What `tokenizeText(text, language)` returns. */
  function Tokenized(text: string, language: string, tiktoken: string -> seq<string>): seq<string> {
    var spaced := SpaceAfterMarkers(text);
    Texts(Scan(Dedup(Markers(spaced)), SplitText(spaced, language, tiktoken)).pieces)
  }

  /** `tokenizeText`: space the markers, collect them once each, split, then merge. */
  method TokenizeText(text: string, language: string, tiktoken: string -> seq<string>) returns (tokens: seq<string>)
    ensures tokens == Tokenized(text, language, tiktoken)
  {
    var spaced := SpaceAfterMarkers(text);
    var customPronunciations := Dedup(Markers(spaced));
    var tokensRaw := SplitText(spaced, language, tiktoken);
    tokens := MergeTokens(customPronunciations, tokensRaw);
  }

  /** With no markers every token passes through and nothing is accumulated. */
  lemma {:induction false} NoMarkersKeepsTokens(tokens: seq<string>)
    ensures Scan([], tokens).customPron == ""
    ensures Texts(Scan([], tokens).pieces) == tokens
  {
    if tokens != [] {
      NoMarkersKeepsTokens(tokens[..|tokens| - 1]);
    }
  }

  /** A reply with no `{` in it is spoken exactly as split. */
  lemma TokenizedWithoutMarkers(text: string, language: string, tiktoken: string -> seq<string>)
    requires forall j :: 0 <= j < |text| ==> text[j] != '{'
    ensures Tokenized(text, language, tiktoken) == SplitText(text, language, tiktoken)
  {
    NoBraceNoMarkers(text, 0);
    assert text[0..] == text;
    NoMarkersKeepsTokens(SplitText(text, language, tiktoken));
  }

  /** The tokens the scan lets through: each token that the markers do not absorb, in order. */
  function Kept(prons: seq<string>, tokens: seq<string>): seq<string> {
    if tokens == [] then []
    else
      var front := tokens[..|tokens| - 1];
      var last := tokens[|tokens| - 1];
      Kept(prons, front) + (if Absorb(prons, Scan(prons, front).customPron, last).1 then [] else [last])
  }

  function TokensOf(pieces: seq<Piece>): seq<string> {
    if pieces == [] then []
    else TokensOf(pieces[..|pieces| - 1]) + (if pieces[|pieces| - 1].Token? then [pieces[|pieces| - 1].text] else [])
  }

  lemma {:induction false} TokensOfConcat(a: seq<Piece>, b: seq<Piece>)
    ensures TokensOf(a + b) == TokensOf(a) + TokensOf(b)
  {
    if b != [] {
      assert (a + b)[..|a + b| - 1] == a + b[..|b| - 1];
      TokensOfConcat(a, b[..|b| - 1]);
    } else {
      assert a + b == a;
    }
  }

  /** Tokens that are not absorbed are emitted in their original order, each exactly once, and
      no other token is emitted. */
  lemma {:induction false} KeptInOrder(prons: seq<string>, tokens: seq<string>)
    ensures TokensOf(Scan(prons, tokens).pieces) == Kept(prons, tokens)
  {
    if tokens != [] {
      var front := tokens[..|tokens| - 1];
      var st := Scan(prons, front);
      KeptInOrder(prons, front);
      var last := tokens[|tokens| - 1];
      if !Absorb(prons, st.customPron, last).1 {
        var i := |tokens| - 1;
        if st.customPron != "" {
          TokensOfConcat(st.pieces, [Pronunciation(if i != 0 then " " + st.customPron else st.customPron), Token(last)]);
          var two := [Pronunciation(if i != 0 then " " + st.customPron else st.customPron), Token(last)];
          assert two[..1][..0] == [];
          assert TokensOf(two[..1]) == [];
          assert TokensOf(two) == [last];
        } else {
          TokensOfConcat(st.pieces, [Token(last)]);
          assert [Token(last)][..0] == [];
        }
      }
    }
  }

  /** Every pronunciation emitted is a non-empty accumulation behind a space: nothing is
      accumulated before the first token, so the flush never happens at `i == 0`. */
  lemma {:induction false} PronunciationsSpaced(prons: seq<string>, tokens: seq<string>)
    ensures forall k :: 0 <= k < |Scan(prons, tokens).pieces| && Scan(prons, tokens).pieces[k].Pronunciation? ==>
      |Scan(prons, tokens).pieces[k].text| >= 2 && Scan(prons, tokens).pieces[k].text[0] == ' '
      && StartsSomeMarker(prons, Scan(prons, tokens).pieces[k].text[1..])
    ensures Scan(prons, tokens).customPron != "" ==> StartsSomeMarker(prons, Scan(prons, tokens).customPron)
  {
    if tokens != [] {
      PronunciationsSpaced(prons, tokens[..|tokens| - 1]);
    }
  }

  /** A token absorbed into a marker emits nothing; a token that is not flushes the
      accumulated pronunciation, behind a space, just before itself, and clears it. So what is
      still accumulating when the tokens run out is never emitted. */
  lemma FlushBeforeNextToken(prons: seq<string>, tokens: seq<string>, token: string)
    ensures var st := Scan(prons, tokens);
      var after := Scan(prons, tokens + [token]);
      if Absorb(prons, st.customPron, token).1 then after.pieces == st.pieces
      else (after.customPron == "" &&
            after.pieces == st.pieces + (if st.customPron != "" then [Pronunciation(" " + st.customPron)] else []) + [Token(token)])
  {
    var all := tokens + [token];
    assert all[..|all| - 1] == tokens;
    if tokens == [] {
      assert Scan(prons, tokens).customPron == "";
    }
  }

  /** Every string starts with the empty string, so once there is a marker at all, a token that
      is only whitespace is absorbed when nothing is accumulating, and the accumulation stays
      empty. */
  lemma {:induction false} BlankTokenAbsorbed(prons: seq<string>, token: string)
    requires prons != [] && Trim(token) == ""
    ensures Absorb(prons, "", token) == ("", true)
  {
    if |prons| > 1 {
      BlankTokenAbsorbed(prons[..|prons| - 1], token);
    }
    assert HasPrefix(prons[|prons| - 1], "");
  }

  /** So such a token is never emitted: with a marker in the text, a space between two plain
      words (a token of its own when the text is split into characters, for `ko` and `ja`)
      disappears from the tokens. */
  lemma BlankTokenDropped(prons: seq<string>, tokens: seq<string>, token: string)
    requires prons != [] && Trim(token) == "" && Scan(prons, tokens).customPron == ""
    ensures Scan(prons, tokens + [token]) == Scan(prons, tokens)
  {
    BlankTokenAbsorbed(prons, token);
    var all := tokens + [token];
    assert all[..|all| - 1] == tokens;
  }

  /** The accumulation a run of tokens builds when every one of them is absorbed: the first
      trimmed, the others as they are. */
  function Spelled(tokens: seq<string>): (r: string)
    requires tokens != []
    ensures |r| >= |Trim(tokens[0])|
    decreases |tokens|
  {
    if |tokens| == 1 then Trim(tokens[0])
    else Spelled(tokens[..|tokens| - 1]) + tokens[|tokens| - 1]
  }

  lemma PrefixOfPrefix(m: string, a: string, b: string)
    requires HasPrefix(m, a + b)
    ensures HasPrefix(m, a)
  {
    assert (a + b)[..|a|] == a;
    assert m[..|a + b|][..|a|] == m[..|a|];
  }

  /** With a single marker, the inner loop absorbs the token exactly when the marker starts with
      `currentMatch`, which then becomes the accumulation. */
  lemma AbsorbOne(m: string, customPron: string, token: string)
    ensures Absorb([m], customPron, token)
            == if HasPrefix(m, FirstMatch(customPron, token)) then (FirstMatch(customPron, token), true)
               else (customPron, false)
  {
    assert [m][..0] == [];
    assert "" + Trim(token) == Trim(token);
  }

  /** With one marker, tokens from the start of the text that spell a start of it (the first
      one not blank) are all absorbed: nothing is emitted, and the accumulation is what they
      spell. */
  lemma {:induction false} FoldIntoMarker(m: string, tokens: seq<string>)
    requires tokens != [] && Trim(tokens[0]) != "" && HasPrefix(m, Spelled(tokens))
    ensures Scan([m], tokens) == ScanState(Spelled(tokens), [])
    decreases |tokens|
  {
    var last := tokens[|tokens| - 1];
    var front := tokens[..|tokens| - 1];
    if |tokens| == 1 {
      assert front == [];
      AbsorbOne(m, "", last);
    } else {
      assert front[0] == tokens[0];
      PrefixOfPrefix(m, Spelled(front), last);
      FoldIntoMarker(m, front);
      AbsorbOne(m, Spelled(front), last);
    }
  }

  /** The merge itself: tokens that spell the whole marker are folded into one `{word|pron}`
      token, with its leading space, which is emitted when the next (non-empty) token arrives. */
  lemma FoldEmitsMarker(m: string, tokens: seq<string>, next: string)
    requires tokens != [] && Trim(tokens[0]) != "" && Spelled(tokens) == m && next != ""
    ensures Scan([m], tokens + [next]).pieces == [Pronunciation(" " + m), Token(next)]
  {
    var all := tokens + [next];
    assert all[..|all| - 1] == tokens;
    assert m[..|m|] == m;
    FoldIntoMarker(m, tokens);
    AbsorbOne(m, m, next);
    assert !HasPrefix(m, m + next);
  }

  // ---------------------------------------------------------------------------------------
  // Device choice, the model's language, and when `speak` does anything.

  /** `deviceMatches`, in priority order. */
  const DeviceMatches: seq<string> := ["JBL", "Built-in Audio Digital Stereo (HDMI)"]

  /** The lowest-index device whose name contains `pattern`. */
  function FirstDevice(devices: seq<string>, pattern: string): (r: Option<nat>)
    ensures r.Some? ==> r.value < |devices| && Contains(devices[r.value], pattern)
    ensures r.Some? ==> forall i :: 0 <= i < r.value ==> !Contains(devices[i], pattern)
    ensures r.None? ==> forall i :: 0 <= i < |devices| ==> !Contains(devices[i], pattern)
  {
    if devices == [] then None
    else
      var prev := FirstDevice(devices[..|devices| - 1], pattern);
      if prev.Some? then prev
      else if Contains(devices[|devices| - 1], pattern) then Some(|devices| - 1)
      else None
  }

  /** The device of the first pattern that some device contains. */
  function SelectDevice(patterns: seq<string>, devices: seq<string>): Option<nat> {
    if patterns == [] then None
    else
      var prev := SelectDevice(patterns[..|patterns| - 1], devices);
      if prev.Some? then prev else FirstDevice(devices, patterns[|patterns| - 1])
  }

  /** The choice is the device `FirstDevice` finds for the first pattern for which it finds
      one, and there is none exactly when it finds none for every pattern. */
  lemma {:induction false} SelectDeviceChoice(patterns: seq<string>, devices: seq<string>)
    ensures SelectDevice(patterns, devices).None? <==>
      forall k :: 0 <= k < |patterns| ==> FirstDevice(devices, patterns[k]).None?
    ensures SelectDevice(patterns, devices).Some? ==>
      exists k :: 0 <= k < |patterns| && SelectDevice(patterns, devices) == FirstDevice(devices, patterns[k])
        && forall k' :: 0 <= k' < k ==> FirstDevice(devices, patterns[k']).None?
  {
    if patterns != [] {
      var front := patterns[..|patterns| - 1];
      var last := |patterns| - 1;
      SelectDeviceChoice(front, devices);
      assert forall k :: 0 <= k < last ==> patterns[k] == front[k];
      if SelectDevice(front, devices).Some? {
        var k :| 0 <= k < |front| && SelectDevice(front, devices) == FirstDevice(devices, front[k])
          && forall k' :: 0 <= k' < k ==> FirstDevice(devices, front[k']).None?;
        assert FirstDevice(devices, patterns[k]).Some?;
      } else if SelectDevice(patterns, devices).Some? {
        assert SelectDevice(patterns, devices) == FirstDevice(devices, patterns[last]);
      }
    }
  }

  /** The nested loop of `speak`: the first hit wins, and once a device is picked the rest are
      skipped. */
  method ChooseDevice(patterns: seq<string>, devices: seq<string>) returns (deviceIndex: Option<nat>)
    ensures deviceIndex == SelectDevice(patterns, devices)
  {
    deviceIndex := None;
    for k := 0 to |patterns|
      invariant deviceIndex == SelectDevice(patterns[..k], devices)
    {
      var potentialMatch := patterns[k];
      ghost var before := deviceIndex;
      for i := 0 to |devices|
        invariant deviceIndex == if before.Some? then before else FirstDevice(devices[..i], potentialMatch)
      {
        if deviceIndex.None? && Contains(devices[i], potentialMatch) {
          deviceIndex := Some(i);
        }
        assert devices[..i + 1][..i] == devices[..i];
      }
      assert devices[..|devices|] == devices;
      assert patterns[..k + 1][..k] == patterns[..k];
    }
    assert patterns[..|patterns|] == patterns;
  }

  const ModelFilePrefix: string := "orca_params_"

  /** `path.join(process.cwd(), 'models', 'orca_params_<language>_female.pv')`, for a working
      directory without a trailing separator. */
  function ModelPath(cwd: string, language: string): string {
    cwd + ("/models/" + (ModelFilePrefix + (language + "_female.pv")))
  }

  /** The two characters after the first `orca_params_` of the model path. */
  function LanguageOf(modelPath: string): string {
    var langCodeIdx := IndexOf(modelPath, ModelFilePrefix) + |ModelFilePrefix|;
    Substring(modelPath, langCodeIdx, langCodeIdx + 2)
  }

  /** The model's language is the configured two-letter one, unless the working directory
      itself has `orca_params_` in its name. */
  lemma ModelLanguage(cwd: string, language: string)
    requires |language| == 2
    requires !Contains(cwd, ModelFilePrefix)
    ensures LanguageOf(ModelPath(cwd, language)) == language
  {
    var path := ModelPath(cwd, language);
    var at := |cwd| + 8;
    var w := ModelFilePrefix;
    assert path[|cwd|] == '/' && path[|cwd| + 7] == '/';
    assert OccursAt(path, w, at) by {
      assert path[at..at + |w|] == w;
    }
    forall j | 0 <= j < at ensures !OccursAt(path, w, j) {
      if j + |w| <= |cwd| {
        assert cwd[j..j + |w|] == path[j..j + |w|];
        assert !OccursAt(cwd, w, j);
      } else {
        var slash := if j <= |cwd| then |cwd| else |cwd| + 7;
        assert 0 <= slash - j < |w|;
        assert path[j..j + |w|][slash - j] == path[slash] == '/';
        assert w[slash - j] != '/';
      }
    }
    assert Contains(path, w);
    var r := IndexOf(path, w);
    assert r >= 0 && OccursAt(path, w, r);
    assert !(r < at);
    assert !(r > at);
    assert path[at + |w|..at + |w| + 2] == language;
  }

  /** Why `speak` returns at once: speech is off globally, off for this reply, or there is
      nothing to say. */
  predicate Silenced(globalSkipSpeech: bool, skipSpeech: bool, message: string) {
    globalSkipSpeech || skipSpeech || message == ""
  }

  /** What `speak` has settled on before it starts the synthesiser. */
  datatype SpeechPlan = SpeechPlan(modelPath: string, language: string, deviceIndex: Option<nat>, tokens: seq<string>)

  /** `speak({ message, skipSpeech })` up to the synthesis: `setting` is `Language.get()`, `cwd`
      is `process.cwd()`, `devices` is what `PvSpeaker.getAvailableDevices()` reports. */
  method Speak(globalSkipSpeech: bool, message: string, skipSpeech: bool, setting: string, cwd: string,
               devices: seq<string>, tiktoken: string -> seq<string>) returns (plan: Option<SpeechPlan>)
    ensures plan.None? <==> Silenced(globalSkipSpeech, skipSpeech, message)
    ensures plan.Some? ==> plan.value.modelPath == ModelPath(cwd, setting)
    ensures plan.Some? ==> plan.value.language == LanguageOf(ModelPath(cwd, setting))
    ensures plan.Some? ==> plan.value.deviceIndex == SelectDevice(DeviceMatches, devices)
    ensures plan.Some? ==> plan.value.tokens == Tokenized(message, plan.value.language, tiktoken)
  {
    if globalSkipSpeech || skipSpeech || message == "" {
      return None;
    }
    var modelPath := ModelPath(cwd, setting);
    var language := LanguageOf(modelPath);
    var deviceIndex := ChooseDevice(DeviceMatches, devices);
    var tokens := TokenizeText(message, language, tiktoken);
    plan := Some(SpeechPlan(modelPath, language, deviceIndex, tokens));
  }
}
