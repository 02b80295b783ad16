/** The assistant's settings: the `Language` and `Persona` cells and `updateSettings`, driven by
    `SETTINGS_REGEX`
      /^(?:please )?set (?:the)? (language|personality) to (\w+)/i */
module Settings {
  import opened Wrappers
  import opened Text
  import opened Responses

  const EN: string := "en"
  const IT: string := "it"
  const JA: string := "ja"

  /** The `Language` class: one mutable cell holding the current language code. */
  class Language {
    var language: string

    constructor()
      ensures language == EN
    {
      language := EN;
    }

    function Get(): (r: string)
      reads this
      ensures r == language
    {
      language
    }

    method Set(lang: string)
      modifies this
      ensures language == lang
      ensures Get() == lang
    {
      language := lang;
    }
  }

  /** The `Persona` class: one mutable cell holding the current personality. */
  class Persona {
    var persona: string

    constructor()
      ensures persona == "normal"
    {
      persona := "normal";
    }

    function Get(): (r: string)
      reads this
      ensures r == persona
    {
      persona
    }

    method Set(newPersona: string)
      modifies this
      ensures persona == newPersona
      ensures Get() == newPersona
    {
      persona := newPersona;
    }
  }

  /** The two captures of a match: the setting word as spoken (any case) and the value. */
  datatype SettingsMatch = SettingsMatch(setting: string, value: string)

  /** `(language|personality) to (\w+)`. */
  function MatchSettingAndValue(u: string): Option<SettingsMatch> {
    var n := if HasPrefixCI(u, "language") then 8 else if HasPrefixCI(u, "personality") then 11 else 0;
    if n == 0 then None else MatchValueAt(u, n)
  }

  /** ` to (\w+)` after the `n` characters of the setting word. */
  function MatchValueAt(u: string, n: nat): Option<SettingsMatch>
    requires n <= |u|
  {
    if !HasPrefixCI(u[n..], " to ") then None
    else
      var value := TakeWord(u[n + 4..]);
      if value == [] then None else Some(SettingsMatch(u[..n], value))
  }

  /** What `(?:please )?` leaves of a request. */
  function AfterPlease(t: string): string {
    if HasPrefixCI(t, "please ") then t[7..] else t
  }

  /** What `(?:the)?` leaves after `set `. */
  function AfterArticle(u: string): string {
    if HasPrefixCI(u, "the") then u[3..] else u
  }

  /** `SETTINGS_REGEX` applied with `match`. Each optional part is taken whenever present, the
      only choice that can succeed: without `please ` the text would have to start with `set`, and
      without `the` the next character would have to be a space. So `"set language to …"`, with
      a single space and no article, does not match. */
  function MatchSettings(t: string): Option<SettingsMatch> {
    var u := AfterPlease(t);
    if !HasPrefixCI(u, "set ") then None
    else
      var v := AfterArticle(u[4..]);
      if !HasPrefixCI(v, " ") then None else MatchSettingAndValue(v[1..])
  }

  /** `SETTINGS_REGEX.test`. */
  predicate Matches(t: string) {
    MatchSettings(t).Some?
  }

  /** A transcript that starts with neither `set` nor `please` is never a settings request. */
  lemma NotSettingsRequest(t: string)
    requires t != [] && Lower(t[0]) != 's' && Lower(t[0]) != 'p'
    ensures !Matches(t)
  {
    assert AfterPlease(t) == t by {
      assert Lower(t[0]) != Lower("please "[0]);
    }
    assert Lower(t[0]) != Lower("set "[0]);
  }

  /** `langMap[value.toLowerCase()] || Language.EN`. */
  function LanguageCode(value: string): (code: string)
    ensures code == IT <==> LowerStr(value) == "italian"
    ensures code == JA <==> LowerStr(value) == "japanese"
    ensures code == EN <==> LowerStr(value) != "italian" && LowerStr(value) != "japanese"
  {
    var key := LowerStr(value);
    if key == "english" then EN
    else if key == "italian" then IT
    else if key == "japanese" then JA
    else EN
  }

  /** The reply of `updateSettings`. */
  function SettingsReply(current: string): Response {
    Response("Settings updated: Language " + current, None, true)
  }

  /** Both captures lower-cased. */
  function LowerMatch(m: SettingsMatch): SettingsMatch {
    SettingsMatch(LowerStr(m.setting), LowerStr(m.value))
  }

  /** What follows the setting word, lower-cased. */
  lemma AfterSettingLower(u: string, n: nat)
    requires n <= |u|
    ensures LowerStr(u)[..n] == LowerStr(u[..n])
    ensures HasPrefixCI(LowerStr(u)[n..], " to ") == HasPrefixCI(u[n..], " to ")
    ensures HasPrefixCI(u[n..], " to ") ==> TakeWord(LowerStr(u)[n + 4..]) == LowerStr(TakeWord(u[n + 4..]))
  {
    LowerStrSlice(u, 0, n);
    LowerStrSlice(u, n, |u|);
    var rest := u[n..];
    assert LowerStr(u)[n..] == LowerStr(rest);
    LowerAfterPrefix(rest, " to ");
    if HasPrefixCI(rest, " to ") {
      assert rest[4..] == u[n + 4..];
      assert LowerStr(u)[n + 4..] == LowerStr(rest)[4..];
      TakeWordLower(rest[4..]);
    }
  }

  lemma MatchValueAtLower(u: string, n: nat)
    requires n <= |u|
    ensures MatchValueAt(LowerStr(u), n).Some? == MatchValueAt(u, n).Some?
    ensures MatchValueAt(u, n).Some? ==> MatchValueAt(LowerStr(u), n).value == LowerMatch(MatchValueAt(u, n).value)
  {
    AfterSettingLower(u, n);
    if HasPrefixCI(u[n..], " to ") {
      var value := TakeWord(u[n + 4..]);
      assert |LowerStr(value)| == |value|;
    }
  }

  lemma MatchSettingAndValueLower(u: string)
    ensures MatchSettingAndValue(LowerStr(u)).Some? == MatchSettingAndValue(u).Some?
    ensures MatchSettingAndValue(u).Some? ==>
      MatchSettingAndValue(LowerStr(u)).value == LowerMatch(MatchSettingAndValue(u).value)
  {
    LowerAfterPrefix(u, "language");
    LowerAfterPrefix(u, "personality");
    if HasPrefixCI(u, "language") {
      MatchValueAtLower(u, 8);
    } else if HasPrefixCI(u, "personality") {
      MatchValueAtLower(u, 11);
    }
  }

  /** `SETTINGS_REGEX` ignores case: a transcript and its lower-cased form are both requests or
      both not, and the captures of the lower-cased form are the lower-cased captures. The
      exact test `setting === 'language'` in `updateSettings` does see the difference. */
  lemma MatchesIgnoresCase(t: string)
    ensures Matches(LowerStr(t)) == Matches(t)
    ensures Matches(t) ==> MatchSettings(LowerStr(t)).value == LowerMatch(MatchSettings(t).value)
  {
    LowerAfterPrefix(t, "please ");
    var u := AfterPlease(t);
    assert AfterPlease(LowerStr(t)) == LowerStr(u);
    LowerAfterPrefix(u, "set ");
    if HasPrefixCI(u, "set ") {
      LowerAfterPrefix(u[4..], "the");
      var v := AfterArticle(u[4..]);
      assert AfterArticle(LowerStr(u)[4..]) == LowerStr(v);
      LowerAfterPrefix(v, " ");
      if HasPrefixCI(v, " ") {
        MatchSettingAndValueLower(v[1..]);
      }
    }
  }

  /** `updateSettings(transcript)`. A transcript that `SETTINGS_REGEX` does not match makes the
      destructuring of `null` throw. Only the setting spelled exactly `language` changes anything:
      `personality`, and `Language` matched case-insensitively, leave every cell as it was. */
  method UpdateSettings(lang: Language, transcript: string) returns (r: Result<Response, JsError>)
    modifies lang
    ensures MatchSettings(transcript).None? ==> r == Err(TypeError) && lang.language == old(lang.language)
    ensures MatchSettings(transcript).Some? ==>
      var m := MatchSettings(transcript).value;
      && lang.language == (if m.setting == "language" then LanguageCode(m.value) else old(lang.language))
      && r == Ok(SettingsReply(lang.language))
  {
    var m := MatchSettings(transcript);
    if m.None? {
      return Err(TypeError);
    }
    if m.value.setting == "language" {
      var newLang := LanguageCode(m.value.value);
      lang.Set(newLang);
    }
    r := Ok(SettingsReply(lang.Get()));
  }

  /** The language lookup ignores the case of the value. */
  lemma LanguageCodeIgnoresCase(value: string)
    ensures LanguageCode(LowerStr(value)) == LanguageCode(value)
  {
    LowerStrIdempotent(value);
  }

  // ---------------------------------------------------------------------------------------
  // The requests the pattern is meant to accept.

  datatype Setting = LanguageSetting | PersonalitySetting

  function SettingWord(s: Setting): string {
    match s
    case LanguageSetting => "language"
    case PersonalitySetting => "personality"
  }

  /** A settings request as spoken, with `please` and `the` optional. Without `the` the pattern
      needs two spaces after `set`. */
  function Phrase(please: bool, article: bool, setting: Setting, value: string): string {
    (if please then "please " else "") + ("set " + ((if article then "the" else "") + (" " + (SettingWord(setting) + (" to " + value)))))
  }

  lemma SettingParses(setting: Setting, value: string, rest: string)
    requires IsWord(value) && (rest == [] || !IsWordChar(rest[0]))
    ensures MatchSettingAndValue(SettingWord(setting) + (" to " + (value + rest)))
            == Some(SettingsMatch(SettingWord(setting), value))
  {
    var u := SettingWord(setting) + (" to " + (value + rest));
    var n := |SettingWord(setting)|;
    PrefixCIOfConcat(SettingWord(setting), " to " + (value + rest));
    if setting == PersonalitySetting {
      assert Lower(u[0]) != Lower("language"[0]);
    }
    PrefixCIOfConcat(" to ", value + rest);
    assert u[n..][4..] == value + rest;
    assert u[n + 4..] == value + rest;
    TakeWholeWord(value, rest);
    assert u[..n] == SettingWord(setting);
  }

  lemma MatchSettingsSteps(t: string)
    requires HasPrefixCI(AfterPlease(t), "set ")
    requires HasPrefixCI(AfterArticle(AfterPlease(t)[4..]), " ")
    ensures MatchSettings(t) == MatchSettingAndValue(AfterArticle(AfterPlease(t)[4..])[1..])
  {
  }

  lemma PleaseStep(please: bool, u: string)
    requires u != [] && Lower(u[0]) == 's'
    ensures AfterPlease((if please then "please " else "") + u) == u
  {
    var t := (if please then "please " else "") + u;
    if please {
      PrefixCIOfConcat("please ", u);
    } else {
      assert t == u;
    }
  }

  lemma ArticleStep(article: bool, tail: string)
    ensures AfterArticle((if article then "the" else "") + (" " + tail)) == " " + tail
  {
    var w := (if article then "the" else "") + (" " + tail);
    if article {
      PrefixCIOfConcat("the", " " + tail);
    } else {
      assert w == " " + tail;
      assert Lower(w[0]) != Lower("the"[0]);
    }
  }

  /** Round trip: a spoken settings request, followed by anything that does not continue the
      value word, yields the setting word and the whole value word. */
  lemma ParsePhrase(please: bool, article: bool, setting: Setting, value: string, rest: string)
    requires IsWord(value) && (rest == [] || !IsWordChar(rest[0]))
    ensures MatchSettings(Phrase(please, article, setting, value + rest))
            == Some(SettingsMatch(SettingWord(setting), value))
  {
    var tail := SettingWord(setting) + (" to " + (value + rest));
    var afterSet := (if article then "the" else "") + (" " + tail);
    var u := "set " + afterSet;
    PleaseStep(please, u);
    PrefixCIOfConcat("set ", afterSet);
    ArticleStep(article, tail);
    PrefixCIOfConcat(" ", tail);
    MatchSettingsSteps(Phrase(please, article, setting, value + rest));
    SettingParses(setting, value, rest);
  }

  /** As written, `set (?:the)? (language|personality)` needs a space on each side of the
      optional article: with the article left out and a single space after `set`, no request is
      accepted, whatever follows the setting word. */
  lemma SingleSpaceRejected(please: bool, setting: Setting, rest: string)
    ensures !Matches((if please then "please " else "") + ("set " + (SettingWord(setting) + rest)))
  {
    var w := SettingWord(setting) + rest;
    var u := "set " + w;
    PleaseStep(please, u);
    PrefixCIOfConcat("set ", w);
    assert Lower(w[0]) != Lower("the"[0]);
    assert AfterArticle(w) == w;
    assert w[0] != ' ';
  }

  /** The natural `set language to english` is therefore not a settings request. */
  lemma SetLanguageToEnglishRejected()
    ensures !Matches("set language to english")
  {
    var t := "set language to english";
    assert t == (if false then "please " else "") + ("set " + (SettingWord(LanguageSetting) + t[12..]));
    SingleSpaceRejected(false, LanguageSetting, t[12..]);
  }

  /** Saying `set the language to <name>` for one of the three known names switches to that
      language, whatever the case of the name, and reports it. */
  method SwitchLanguage(lang: Language, please: bool, value: string) returns (r: Result<Response, JsError>)
    requires LowerStr(value) in {"english", "italian", "japanese"}
    requires IsWord(value)
    modifies lang
    ensures lang.language == LanguageCode(value)
    ensures lang.language == (if LowerStr(value) == "italian" then IT else if LowerStr(value) == "japanese" then JA else EN)
    ensures r == Ok(SettingsReply(lang.language))
  {
    ParsePhrase(please, true, LanguageSetting, value, "");
    assert value + "" == value;
    r := UpdateSettings(lang, Phrase(please, true, LanguageSetting, value));
  }
}
