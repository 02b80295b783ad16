/** The clock intent: `CLOCK_REGEX`
      /^(set|cancel)\s*(?:a|an|my|the)?\s*(timer|alarm)(?: for)?(.*)?$/i
    as a recogniser that follows the regular expression's backtracking order, `parseClock`, and the
    string-returning stub `handleClockCommand`. */
module Clock {
  import opened Wrappers
  import opened Text

  datatype Kind = Timer | Alarm
  datatype Action = Set | Cancel

  /** The `{ type, action, time }` record of a match; `time` is `null` when nothing follows the
      kind word (or only `" for"` does). */
  datatype ClockCommand = ClockCommand(kind: Kind, action: Action, time: Option<string>)

  function ActionWord(a: Action): string {
    match a
    case Set => "set"
    case Cancel => "cancel"
  }

  function KindWord(k: Kind): string {
    match k
    case Timer => "timer"
    case Alarm => "alarm"
  }

  /** The optional article, in the order the alternation tries it. */
  const Articles: seq<string> := ["a", "an", "my", "the"]

  /** `^(set|cancel)`: the action and what follows it. */
  function MatchAction(t: string): Option<(Action, string)> {
    if HasPrefixCI(t, "set") then Some((Set, t[3..]))
    else if HasPrefixCI(t, "cancel") then Some((Cancel, t[6..]))
    else None
  }

  /** `(timer|alarm)(?: for)?(.*)?$`: the kind and the text captured by `(.*)`. The greedy
      `(?: for)?` is taken when present; `.*` must then reach the end of the input, so neither
      choice succeeds when a line terminator follows the kind word. */
  function MatchKindAndTail(t: string): Option<(Kind, string)> {
    var kind := if HasPrefixCI(t, "timer") then Some(Timer)
                else if HasPrefixCI(t, "alarm") then Some(Alarm)
                else None;
    if kind.None? || !NoLineTerminator(t[5..]) then None
    else Some((kind.value, if HasPrefixCI(t[5..], " for") then t[9..] else t[5..]))
  }

  /** One article alternative: the article, `\s*`, then the kind and tail. */
  function TryArticle(t: string, article: string): Option<(Kind, string)> {
    if HasPrefixCI(t, article) then MatchKindAndTail(SkipSpaces(t[|article|..])) else None
  }

  /** `(?:a|an|my|the)?\s*` and the rest, after the first `\s*` has consumed the leading spaces:
      each article is tried in turn, then none. Giving spaces back to the first `\s*` never
      helps, since neither an article nor a kind word starts with a space. */
  function MatchArticleKind(t: string, articles: seq<string>): Option<(Kind, string)>
    decreases |articles|
  {
    if articles == [] then MatchKindAndTail(t)
    else if TryArticle(t, articles[0]).Some? then TryArticle(t, articles[0])
    else MatchArticleKind(t, articles[1..])
  }

  /** The `time` field made from what `(.*)` captured: `null` when empty, otherwise trimmed. */
  function CapturedTime(tail: string): Option<string> {
    if tail == [] then None else Some(Trim(tail))
  }

  /** `parseClock`: `None` stands for the `{}` returned when `CLOCK_REGEX` does not match. An
      empty capture is `null`; otherwise the capture is trimmed, so it can be `""`. */
  function ParseClock(transcript: string): Option<ClockCommand> {
    match MatchAction(transcript)
    case None => None
    case Some((action, afterAction)) =>
      match MatchArticleKind(SkipSpaces(afterAction), Articles)
      case None => None
      case Some((kind, tail)) =>
        Some(ClockCommand(kind, action, CapturedTime(tail)))
  }

  /** `CLOCK_REGEX.test`. */
  predicate Matches(transcript: string) {
    ParseClock(transcript).Some?
  }

  /** The capitalised kind, as the replies start. */
  function KindTitle(k: Kind): string {
    match k
    case Timer => "Timer"
    case Alarm => "Alarm"
  }

  /** What a `set` reply says when no time was given. */
  function MissingTime(k: Kind): string {
    match k
    case Timer => "a duration you need to specify"
    case Alarm => "a time you need to specify"
  }

  /** `handleClockCommand`. A failed parse reaches it as `{}`, every field `undefined`. A `null`
      or empty time (both falsy) is replaced by a prompt. */
  function HandleClockCommand(command: Option<ClockCommand>): string {
    match command
    case None => "Unknown command: undefined for undefined."
    case Some(ClockCommand(kind, Cancel, _)) => KindTitle(kind) + " cancelled."
    case Some(ClockCommand(kind, Set, time)) =>
      KindTitle(kind) + " set for " + (if time.Some? && time.value != "" then time.value else MissingTime(kind)) + "."
  }

  /** A `set` reply repeats the requested time right after `"<Kind> set for "`; a `cancel`
      reply does not depend on the time at all. */
  lemma HandleClockCommandEchoesTime(kind: Kind, time: Option<string>)
    ensures time.Some? && time.value != "" ==>
      OccursAt(HandleClockCommand(Some(ClockCommand(kind, Set, time))), time.value, 14)
    ensures time.None? ==>
      HandleClockCommand(Some(ClockCommand(kind, Set, time)))
      == HandleClockCommand(Some(ClockCommand(kind, Set, Some(""))))
    ensures HandleClockCommand(Some(ClockCommand(kind, Cancel, time)))
            == HandleClockCommand(Some(ClockCommand(kind, Cancel, None)))
  {
    if time.Some? && time.value != "" {
      var r := HandleClockCommand(Some(ClockCommand(kind, Set, time)));
      assert r == (KindTitle(kind) + " set for ") + time.value + ".";
      assert |KindTitle(kind) + " set for "| == 14;
      assert r[14..14 + |time.value|] == time.value;
    }
  }

  // ---------------------------------------------------------------------------------------
  // The phrases the recogniser is meant to accept, and what it extracts from them.

  /** What follows the kind word: `" for"` when it is spoken, then a space and the time when
      there is one. */
  function TimeSuffix(time: Option<string>, withFor: bool): string {
    (if withFor then " for" else "") + (if time.Some? then " " + time.value else "")
  }

  /** The kind word and whatever follows it, which the article alternatives leave to the
      no-article case. */
  function KindPart(k: Kind, suffix: string): string {
    KindWord(k) + suffix
  }

  /** The article and its following space, or nothing. */
  function ArticlePart(article: Option<string>): string {
    if article.Some? then article.value + " " else ""
  }

  /** An utterance of the expected shape: the action, a space, an optional article, the kind
      word and the text after it. */
  function Spoken(action: Action, article: Option<string>, k: Kind, suffix: string): string {
    ActionWord(action) + (" " + (ArticlePart(article) + KindPart(k, suffix)))
  }

  /** A clock phrase as spoken: the action, an optional article, the kind, and the time when
      there is one, with or without `" for"` before it. */
  function Phrase(command: ClockCommand, article: Option<string>, withFor: bool): string {
    Spoken(command.action, article, command.kind, TimeSuffix(command.time, withFor))
  }

  /** What `(.*)` captures after the kind word: the optional `" for"` is taken whenever the text
      starts with it. */
  function CapturedTail(suffix: string): string {
    if HasPrefixCI(suffix, " for") then suffix[4..] else suffix
  }

  lemma MatchActionWord(a: Action, rest: string)
    ensures MatchAction(ActionWord(a) + rest) == Some((a, rest))
  {
    PrefixCIOfConcat(ActionWord(a), rest);
    if a == Cancel {
      assert Lower((ActionWord(a) + rest)[0]) != Lower("set"[0]);
    }
  }

  /** The kind word followed by any text without a line terminator is matched, and the capture
      is that text less a leading `" for"`. */
  lemma MatchKindWord(k: Kind, suffix: string)
    requires NoLineTerminator(suffix)
    ensures MatchKindAndTail(KindPart(k, suffix)) == Some((k, CapturedTail(suffix)))
  {
    var t := KindPart(k, suffix);
    PrefixCIOfConcat(KindWord(k), suffix);
    if k == Alarm {
      assert Lower(t[0]) != Lower("timer"[0]);
    }
    assert t[5..] == suffix;
    if HasPrefixCI(suffix, " for") {
      assert t[9..] == suffix[4..];
    }
  }

  lemma SkipSpacesBeforeWord(w: string, rest: string)
    requires w != [] && !IsSpace(w[0])
    ensures SkipSpaces(" " + w + rest) == w + rest
    ensures SkipSpaces(w + rest) == w + rest
  {
    assert (" " + w + rest)[1..] == w + rest;
  }

  /** The kind word must start the text it is matched against. */
  lemma KindNeedsInitial(t: string)
    requires t != [] && Lower(t[0]) != 't' && Lower(t[0]) != 'a'
    ensures MatchKindAndTail(t) == None
  {
    assert !HasPrefixCI(t, "timer") && !HasPrefixCI(t, "alarm");
  }

  /** One article alternative, once its prefix and the spaces after it are known. */
  lemma TryArticleAfter(t: string, article: string, r: string)
    requires HasPrefixCI(t, article) && SkipSpaces(t[|article|..]) == r
    ensures TryArticle(t, article) == MatchKindAndTail(r)
  {
  }

  lemma ArticleThenKind(article: string, k: Kind, suffix: string)
    requires NoLineTerminator(suffix)
    ensures TryArticle(article + " " + KindPart(k, suffix), article) == Some((k, CapturedTail(suffix)))
  {
    ArticleBeforeKind(article, k, suffix);
    MatchKindWord(k, suffix);
  }

  /** An article and a space before the kind word are consumed by that article alternative. */
  lemma ArticleBeforeKind(article: string, k: Kind, suffix: string)
    ensures TryArticle(article + " " + KindPart(k, suffix), article) == MatchKindAndTail(KindPart(k, suffix))
  {
    var kp := KindPart(k, suffix);
    var t := article + " " + kp;
    PrefixCIOfConcat(article, " " + kp);
    assert t == article + (" " + kp);
    SkipOneSpace(kp);
    TryArticleAfter(t, article, kp);
  }

  /** When no article alternative matches, the optional article is left out. */
  lemma NoArticleMatches(t: string)
    requires TryArticle(t, "a").None? && TryArticle(t, "an").None?
    requires TryArticle(t, "my").None? && TryArticle(t, "the").None?
    ensures MatchArticleKind(t, Articles) == MatchKindAndTail(t)
  {
    assert Articles[1..] == ["an", "my", "the"] && Articles[2..] == ["my", "the"];
    assert Articles[3..] == ["the"] && Articles[4..] == [];
  }

  /** No article is a prefix of `timer`. */
  lemma TimerTakesNoArticle(suffix: string)
    ensures var t := KindPart(Timer, suffix);
      TryArticle(t, "a").None? && TryArticle(t, "an").None? && TryArticle(t, "my").None? && TryArticle(t, "the").None?
  {
    var t := KindPart(Timer, suffix);
    assert t[0] == 't' && t[1] == 'i';
    assert Lower(t[1]) != Lower("the"[1]);
  }

  /** `a` followed by text starting with `l`: the kind word cannot start at the `l`. */
  lemma ArticleABeforeL(r: string)
    requires r != [] && r[0] == 'l'
    ensures TryArticle("a" + r, "a").None?
  {
    PrefixCIOfConcat("a", r);
    assert SkipSpaces(r) == r;
    TryArticleAfter("a" + r, "a", r);
    KindNeedsInitial(r);
  }

  /** `a` is a prefix of `alarm`, but the kind word cannot then start at `larm`. */
  lemma AlarmAfterA(suffix: string)
    ensures TryArticle(KindPart(Alarm, suffix), "a").None?
  {
    var r := "larm" + suffix;
    assert KindPart(Alarm, suffix) == "a" + r;
    ArticleABeforeL(r);
  }

  lemma AlarmTakesNoArticle(suffix: string)
    ensures var t := KindPart(Alarm, suffix);
      TryArticle(t, "a").None? && TryArticle(t, "an").None? && TryArticle(t, "my").None? && TryArticle(t, "the").None?
  {
    var t := KindPart(Alarm, suffix);
    AlarmAfterA(suffix);
    assert t[0] == 'a' && t[1] == 'l';
    assert Lower(t[1]) != Lower("an"[1]);
  }

  lemma NoArticleTimer(suffix: string)
    requires NoLineTerminator(suffix)
    ensures MatchArticleKind(ArticlePart(None) + KindPart(Timer, suffix), Articles) == Some((Timer, CapturedTail(suffix)))
  {
    var t := KindPart(Timer, suffix);
    assert ArticlePart(None) + t == t;
    TimerTakesNoArticle(suffix);
    NoArticleMatches(t);
    MatchKindWord(Timer, suffix);
  }

  lemma NoArticleAlarm(suffix: string)
    requires NoLineTerminator(suffix)
    ensures MatchArticleKind(ArticlePart(None) + KindPart(Alarm, suffix), Articles) == Some((Alarm, CapturedTail(suffix)))
  {
    var t := KindPart(Alarm, suffix);
    assert ArticlePart(None) + t == t;
    AlarmTakesNoArticle(suffix);
    NoArticleMatches(t);
    MatchKindWord(Alarm, suffix);
  }

  lemma ArticleAPhrase(k: Kind, suffix: string)
    requires NoLineTerminator(suffix)
    ensures MatchArticleKind(ArticlePart(Some("a")) + KindPart(k, suffix), Articles) == Some((k, CapturedTail(suffix)))
  {
    assert ArticlePart(Some("a")) + KindPart(k, suffix) == "a" + " " + KindPart(k, suffix);
    ArticleThenKind("a", k, suffix);
  }

  lemma ArticleAnPhrase(k: Kind, suffix: string)
    requires NoLineTerminator(suffix)
    ensures MatchArticleKind(ArticlePart(Some("an")) + KindPart(k, suffix), Articles) == Some((k, CapturedTail(suffix)))
  {
    assert ArticlePart(Some("an")) + KindPart(k, suffix) == "an" + " " + KindPart(k, suffix);
    var t := "an" + " " + KindPart(k, suffix);
    assert Articles[1..] == ["an", "my", "the"];
    assert t[1..] == "n " + KindPart(k, suffix);
    SkipSpacesBeforeWord("n ", KindPart(k, suffix));
    KindNeedsInitial(t[1..]);
    assert TryArticle(t, "a") == None;
    ArticleThenKind("an", k, suffix);
  }

  lemma ArticleMyPhrase(k: Kind, suffix: string)
    requires NoLineTerminator(suffix)
    ensures MatchArticleKind(ArticlePart(Some("my")) + KindPart(k, suffix), Articles) == Some((k, CapturedTail(suffix)))
  {
    assert ArticlePart(Some("my")) + KindPart(k, suffix) == "my" + " " + KindPart(k, suffix);
    var t := "my" + " " + KindPart(k, suffix);
    assert Articles[1..] == ["an", "my", "the"] && Articles[2..] == ["my", "the"];
    assert Lower(t[0]) != Lower("a"[0]);
    assert TryArticle(t, "a") == None && TryArticle(t, "an") == None;
    ArticleThenKind("my", k, suffix);
  }

  lemma ArticleThePhrase(k: Kind, suffix: string)
    requires NoLineTerminator(suffix)
    ensures MatchArticleKind(ArticlePart(Some("the")) + KindPart(k, suffix), Articles) == Some((k, CapturedTail(suffix)))
  {
    assert ArticlePart(Some("the")) + KindPart(k, suffix) == "the" + " " + KindPart(k, suffix);
    var t := "the" + " " + KindPart(k, suffix);
    assert Articles[1..] == ["an", "my", "the"] && Articles[2..] == ["my", "the"];
    assert Articles[3..] == ["the"];
    assert Lower(t[0]) != Lower("a"[0]) && Lower(t[0]) != Lower("m"[0]);
    assert TryArticle(t, "a") == None && TryArticle(t, "an") == None && TryArticle(t, "my") == None;
    ArticleThenKind("the", k, suffix);
  }

  /** Whatever article (or none) precedes the kind word, the kind and the capture are found. */
  lemma MatchArticleKindPhrase(k: Kind, suffix: string, article: Option<string>)
    requires article.None? || article.value in Articles
    requires NoLineTerminator(suffix)
    ensures MatchArticleKind(ArticlePart(article) + KindPart(k, suffix), Articles) == Some((k, CapturedTail(suffix)))
  {
    if article.None? {
      if k == Timer { NoArticleTimer(suffix); } else { NoArticleAlarm(suffix); }
    } else if article.value == "a" {
      ArticleAPhrase(k, suffix);
    } else if article.value == "an" {
      ArticleAnPhrase(k, suffix);
    } else if article.value == "my" {
      ArticleMyPhrase(k, suffix);
    } else {
      ArticleThePhrase(k, suffix);
    }
  }

  /** `parseClock` in terms of its two matching steps. */
  lemma ParseClockSteps(t: string, action: Action, afterAction: string, kind: Kind, tail: string)
    requires MatchAction(t) == Some((action, afterAction))
    requires MatchArticleKind(SkipSpaces(afterAction), Articles) == Some((kind, tail))
    ensures ParseClock(t) == Some(ClockCommand(kind, action, CapturedTime(tail)))
  {
  }

  /** Any utterance of the expected shape is accepted whatever follows the kind word, as long as
      no line terminator does; the time is what `(.*)` captures after the optional `" for"`. */
  lemma ParseSpoken(action: Action, article: Option<string>, k: Kind, suffix: string)
    requires article.None? || article.value in Articles
    requires NoLineTerminator(suffix)
    ensures ParseClock(Spoken(action, article, k, suffix))
            == Some(ClockCommand(k, action, CapturedTime(CapturedTail(suffix))))
  {
    var rest := ArticlePart(article) + KindPart(k, suffix);
    MatchActionWord(action, " " + rest);
    assert rest[0] in "atm";
    SkipOneSpace(rest);
    MatchArticleKindPhrase(k, suffix, article);
    ParseClockSteps(Spoken(action, article, k, suffix), action, " " + rest, k, CapturedTail(suffix));
  }

  lemma TrimAfterSpace(p: string)
    requires Trimmed(p)
    ensures Trim(" " + p) == p
  {
    if p != [] {
      assert TrimEnd(" " + p) == " " + p;
      assert (" " + p)[1..] == p;
    }
  }

  /** A space before `w` and a space before `v`: `w` starts `v` exactly when `" " + w` starts
      `" " + v`. */
  lemma SpaceThenPrefix(v: string, w: string)
    ensures HasPrefixCI(" " + v, " " + w) ==> HasPrefixCI(v, w)
  {
    if HasPrefixCI(" " + v, " " + w) {
      forall i | 0 <= i < |w|
        ensures Lower(v[i]) == Lower(w[i])
      {
        assert (" " + v)[i + 1] == v[i] && (" " + w)[i + 1] == w[i];
      }
    }
  }

  /** The text after the kind word in a phrase: a time that does not itself start with `for` is
      captured with its leading space whether or not `" for"` was spoken, and nothing else is. */
  lemma TimeSuffixCapture(time: Option<string>, withFor: bool)
    requires time.Some? ==> NoLineTerminator(time.value)
    requires time.Some? && !withFor ==> !HasPrefixCI(time.value, "for")
    ensures NoLineTerminator(TimeSuffix(time, withFor))
    ensures CapturedTail(TimeSuffix(time, withFor)) == if time.Some? then " " + time.value else ""
  {
    var after := if time.Some? then " " + time.value else "";
    var spokenFor := if withFor then " for" else "";
    assert TimeSuffix(time, withFor) == spokenFor + after;
    if time.Some? {
      NoLineTerminatorConcat(" ", time.value);
    }
    NoLineTerminatorConcat(spokenFor, after);
    if withFor {
      PrefixCIOfConcat(" for", after);
    } else if time.Some? {
      assert " " + "for" == " for";
      SpaceThenPrefix(time.value, "for");
    }
  }

  /** Round trip: every spoken clock phrase parses back to the command it was built from, with
      or without `" for"` before the time. The article and `" for"` never reach a field, the time
      comes back as spoken, and a phrase that ends at the kind word or at `" for"` gives a `null`
      time. Without `" for"`, a time that starts with `for` is excluded: see `GreedyForEatsTime`. */
  lemma ParsePhrase(command: ClockCommand, article: Option<string>, withFor: bool)
    requires article.None? || article.value in Articles
    requires command.time.Some? ==> NoLineTerminator(command.time.value) && Trimmed(command.time.value)
    requires command.time.Some? && !withFor ==> !HasPrefixCI(command.time.value, "for")
    ensures ParseClock(Phrase(command, article, withFor)) == Some(command)
  {
    TimeSuffixCapture(command.time, withFor);
    ParseSpoken(command.action, article, command.kind, TimeSuffix(command.time, withFor));
    if command.time.Some? {
      TrimAfterSpace(command.time.value);
    }
  }

  /** The greedy `(?: for)?`: when a time spoken without `" for"` starts with `for` (say
      `"set a timer fortnight"`), those three letters are taken as the optional word and the time
      keeps only what follows them (`"tnight"`), or is `null` when nothing does. */
  lemma GreedyForEatsTime(action: Action, article: Option<string>, k: Kind, time: string)
    requires article.None? || article.value in Articles
    requires NoLineTerminator(time) && HasPrefixCI(time, "for")
    ensures ParseClock(Spoken(action, article, k, " " + time))
            == Some(ClockCommand(k, action, if |time| == 3 then None else Some(Trim(time[3..]))))
  {
    var suffix := " " + time;
    assert HasPrefixCI(suffix, " for");
    assert suffix[4..] == time[3..];
    ParseSpoken(action, article, k, suffix);
  }

  /** Neither an article alternative nor the no-article case finds a kind at the start of `t`. */
  predicate NoAlternative(t: string) {
    TryArticle(t, "a").None? && TryArticle(t, "an").None? && TryArticle(t, "my").None?
    && TryArticle(t, "the").None? && MatchKindAndTail(t).None?
  }

  /** The text a word must start with for it to be taken for the kind word or an article. */
  predicate OtherWord(u: string) {
    u != [] && !IsSpace(u[0]) && Lower(u[0]) != 'a' && Lower(u[0]) != 'm' && Lower(u[0]) != 't'
  }

  lemma NotArticle(t: string, article: string)
    requires !HasPrefixCI(t, article)
    ensures TryArticle(t, article).None?
  {
  }

  lemma NotKind(t: string)
    requires !HasPrefixCI(t, "timer") && !HasPrefixCI(t, "alarm")
    ensures MatchKindAndTail(t).None?
  {
  }

  lemma WordWithoutArticle(u: string)
    requires OtherWord(u)
    ensures NoAlternative(u)
  {
    KindNeedsInitial(u);
  }

  /** An article alternative that matches its article finds no kind in a following word. */
  lemma ArticleThenWord(article: string, u: string)
    requires OtherWord(u)
    ensures TryArticle(article + " " + u, article).None?
  {
    var t := article + " " + u;
    PrefixCIOfConcat(article, " " + u);
    assert t == article + (" " + u);
    SkipOneSpace(u);
    KindNeedsInitial(u);
    TryArticleAfter(t, article, u);
  }

  lemma WordAfterA(u: string)
    requires OtherWord(u)
    ensures NoAlternative("a" + " " + u)
  {
    var t := "a" + " " + u;
    ArticleThenWord("a", u);
    assert !HasPrefixCI(t, "an") && !HasPrefixCI(t, "alarm") by {
      assert Lower(t[1]) != Lower("an"[1]) && Lower(t[1]) != Lower("alarm"[1]);
    }
    assert !HasPrefixCI(t, "my") && !HasPrefixCI(t, "the") && !HasPrefixCI(t, "timer") by {
      assert Lower(t[0]) != Lower("my"[0]) && Lower(t[0]) != Lower("the"[0]);
    }
    NotArticle(t, "an");
    NotArticle(t, "my");
    NotArticle(t, "the");
    NotKind(t);
  }

  /** Article `a` taken from `an`: the kind word cannot start at the `n`. */
  lemma ArticleAThenN(u: string)
    ensures TryArticle("an" + " " + u, "a").None?
  {
    var t := "an" + " " + u;
    assert t == "a" + ("n " + u);
    PrefixCIOfConcat("a", "n " + u);
    SkipSpacesBeforeWord("n ", u);
    KindNeedsInitial("n " + u);
    TryArticleAfter(t, "a", "n " + u);
  }

  lemma WordAfterAn(u: string)
    requires OtherWord(u)
    ensures NoAlternative("an" + " " + u)
  {
    ArticleAThenN(u);
    ArticleThenWord("an", u);
    AnStartsNoOther(u);
  }

  /** Text starting with `an` starts with no other article and no kind word. */
  lemma AnStartsNoOther(u: string)
    ensures var t := "an" + " " + u;
      TryArticle(t, "my").None? && TryArticle(t, "the").None? && MatchKindAndTail(t).None?
  {
    var t := "an" + " " + u;
    assert !HasPrefixCI(t, "alarm") by {
      assert Lower(t[1]) != Lower("alarm"[1]);
    }
    assert !HasPrefixCI(t, "my") && !HasPrefixCI(t, "the") && !HasPrefixCI(t, "timer") by {
      assert Lower(t[0]) != Lower("my"[0]) && Lower(t[0]) != Lower("the"[0]);
    }
    NotArticle(t, "my");
    NotArticle(t, "the");
    NotKind(t);
  }

  lemma WordAfterMy(u: string)
    requires OtherWord(u)
    ensures NoAlternative("my" + " " + u)
  {
    var t := "my" + " " + u;
    ArticleThenWord("my", u);
    assert !HasPrefixCI(t, "a") && !HasPrefixCI(t, "an") && !HasPrefixCI(t, "alarm") by {
      assert Lower(t[0]) != Lower("a"[0]);
    }
    assert !HasPrefixCI(t, "the") && !HasPrefixCI(t, "timer") by {
      assert Lower(t[0]) != Lower("the"[0]);
    }
    NotArticle(t, "a");
    NotArticle(t, "an");
    NotArticle(t, "the");
    NotKind(t);
  }

  lemma WordAfterThe(u: string)
    requires OtherWord(u)
    ensures NoAlternative("the" + " " + u)
  {
    var t := "the" + " " + u;
    ArticleThenWord("the", u);
    assert !HasPrefixCI(t, "a") && !HasPrefixCI(t, "an") && !HasPrefixCI(t, "alarm") by {
      assert Lower(t[0]) != Lower("a"[0]);
    }
    assert !HasPrefixCI(t, "my") by {
      assert Lower(t[0]) != Lower("my"[0]);
    }
    assert !HasPrefixCI(t, "timer") by {
      assert Lower(t[1]) != Lower("timer"[1]);
    }
    NotArticle(t, "a");
    NotArticle(t, "an");
    NotArticle(t, "my");
    NotKind(t);
  }

  /** An ordinal or any other word between the article and the kind word (`"set a second
      timer"`) leaves the article alternatives and the no-article case all without a kind. */
  lemma WordBeforeKind(article: Option<string>, u: string)
    requires article.None? || article.value in Articles
    requires OtherWord(u)
    ensures MatchArticleKind(ArticlePart(article) + u, Articles) == None
  {
    var t := ArticlePart(article) + u;
    if article.None? {
      assert t == u;
      WordWithoutArticle(u);
    } else if article.value == "a" {
      assert t == "a" + " " + u;
      WordAfterA(u);
    } else if article.value == "an" {
      assert t == "an" + " " + u;
      WordAfterAn(u);
    } else if article.value == "my" {
      assert t == "my" + " " + u;
      WordAfterMy(u);
    } else {
      assert t == "the" + " " + u;
      WordAfterThe(u);
    }
    NoArticleMatches(t);
  }

  /** `parseClock` rejects a word between the (optional) article and the kind word. */
  lemma WordBeforeKindRejected(action: Action, article: Option<string>, u: string)
    requires article.None? || article.value in Articles
    requires OtherWord(u)
    ensures ParseClock(ActionWord(action) + (" " + (ArticlePart(article) + u))) == None
  {
    var rest := ArticlePart(article) + u;
    MatchActionWord(action, " " + rest);
    SkipOneSpace(rest);
    WordBeforeKind(article, u);
  }

  /** The multi-timer request that the header of the clock intent lists among the phrasings the
      pattern should handle is not matched, so `parseClock` returns `{}`. */
  lemma SecondTimerRejected()
    ensures ParseClock("set a second timer for 10 minutes") == None
  {
    var t := "set a second timer for 10 minutes";
    var u := t[6..];
    assert t == ActionWord(Set) + (" " + (ArticlePart(Some("a")) + u));
    WordBeforeKindRejected(Set, Some("a"), u);
  }

  /** Matching is case-insensitive: lower-casing the transcript changes neither whether it
      matches nor the kind and action, and the time is the lower-cased time. */
  lemma ParseClockIgnoresCase(transcript: string)
    ensures ParseClock(LowerStr(transcript)).Some? == ParseClock(transcript).Some?
    ensures ParseClock(transcript).Some? ==>
      var c := ParseClock(transcript).value;
      ParseClock(LowerStr(transcript)) == Some(ClockCommand(c.kind, c.action,
        if c.time.Some? then Some(LowerStr(c.time.value)) else None))
  {
    var t := transcript;
    var lt := LowerStr(t);
    MatchActionLower(t);
    if MatchAction(t).Some? {
      var (action, after) := MatchAction(t).value;
      SkipSpacesLower(after);
      ArticleKindLower(SkipSpaces(after), Articles);
      var m := MatchArticleKind(SkipSpaces(after), Articles);
      if m.Some? {
        TrimLower(m.value.1);
        ParseClockSteps(t, action, after, m.value.0, m.value.1);
        ParseClockSteps(lt, action, LowerStr(after), m.value.0, LowerStr(m.value.1));
      }
    }
  }

  lemma MatchActionLower(t: string)
    ensures MatchAction(LowerStr(t)).Some? == MatchAction(t).Some?
    ensures MatchAction(t).Some? ==>
      MatchAction(LowerStr(t)) == Some((MatchAction(t).value.0, LowerStr(MatchAction(t).value.1)))
  {
    HasPrefixCILower(t, "set");
    HasPrefixCILower(t, "cancel");
    if MatchAction(t).Some? {
      var n := if HasPrefixCI(t, "set") then 3 else 6;
      LowerStrSlice(t, n, |t|);
      assert LowerStr(t)[n..] == LowerStr(t[n..]);
    }
  }

  lemma TryArticleLower(u: string, article: string)
    ensures TryArticle(LowerStr(u), article).Some? == TryArticle(u, article).Some?
    ensures TryArticle(u, article).Some? ==>
      TryArticle(LowerStr(u), article)
      == Some((TryArticle(u, article).value.0, LowerStr(TryArticle(u, article).value.1)))
  {
    HasPrefixCILower(u, article);
    if HasPrefixCI(u, article) {
      var n := |article|;
      LowerStrSlice(u, n, |u|);
      assert LowerStr(u)[n..] == LowerStr(u[n..]);
      SkipSpacesLower(u[n..]);
      KindTailLower(SkipSpaces(u[n..]));
    }
  }

  lemma {:induction false} ArticleKindLower(u: string, articles: seq<string>)
    ensures MatchArticleKind(LowerStr(u), articles).Some? == MatchArticleKind(u, articles).Some?
    ensures MatchArticleKind(u, articles).Some? ==>
      MatchArticleKind(LowerStr(u), articles)
      == Some((MatchArticleKind(u, articles).value.0, LowerStr(MatchArticleKind(u, articles).value.1)))
    decreases |articles|
  {
    if articles == [] {
      KindTailLower(u);
    } else {
      TryArticleLower(u, articles[0]);
      ArticleKindLower(u, articles[1..]);
    }
  }

  lemma KindTailLower(u: string)
    ensures MatchKindAndTail(LowerStr(u)).Some? == MatchKindAndTail(u).Some?
    ensures MatchKindAndTail(u).Some? ==>
      MatchKindAndTail(LowerStr(u))
      == Some((MatchKindAndTail(u).value.0, LowerStr(MatchKindAndTail(u).value.1)))
  {
    var lu := LowerStr(u);
    HasPrefixCILower(u, "timer");
    HasPrefixCILower(u, "alarm");
    if |u| >= 5 {
      LowerStrSlice(u, 5, |u|);
      assert lu[5..] == LowerStr(u[5..]);
      NoLineTerminatorLower(u[5..]);
      HasPrefixCILower(u[5..], " for");
      if |u| >= 9 {
        LowerStrSlice(u, 9, |u|);
        assert lu[9..] == LowerStr(u[9..]);
      }
    }
  }

  /** The router's clock branch end to end: a spoken `set` request with a time is answered with
      that time, and a `cancel` request with the cancellation of the spoken kind. */
  lemma ClockReplyForPhrase(command: ClockCommand, article: Option<string>, withFor: bool)
    requires article.None? || article.value in Articles
    requires command.time.Some? ==> NoLineTerminator(command.time.value) && Trimmed(command.time.value)
    requires command.time.Some? && !withFor ==> !HasPrefixCI(command.time.value, "for")
    ensures command.action == Set && command.time.Some? && command.time.value != [] ==>
      HandleClockCommand(ParseClock(Phrase(command, article, withFor)))
      == KindTitle(command.kind) + " set for " + command.time.value + "."
    ensures command.action == Cancel ==>
      HandleClockCommand(ParseClock(Phrase(command, article, withFor))) == KindTitle(command.kind) + " cancelled."
  {
    ParsePhrase(command, article, withFor);
  }
}
