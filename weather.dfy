/** The weather intent: `WEATHER_REGEX`
      /^(?:what's|what is) the weather\s*(today|tomorrow|this week)(?: in )?(.*)/i
    as a recogniser, `parseWeather`, and the stub reply of `handleWeatherCommand`. */
module Weather {
  import opened Wrappers
  import opened Text

  datatype Period = Today | Tomorrow | ThisWeek

  /** The `{ period, location }` record of a match; `location` is `''` when nothing follows the
      period. */
  datatype WeatherQuery = WeatherQuery(period: Period, location: string)

  function PeriodWord(p: Period): string {
    match p
    case Today => "today"
    case Tomorrow => "tomorrow"
    case ThisWeek => "this week"
  }

  /** `^(?:what's|what is) the weather`: what follows the opener. */
  function MatchOpener(t: string): Option<string> {
    if HasPrefixCI(t, "what's the weather") then Some(t[18..])
    else if HasPrefixCI(t, "what is the weather") then Some(t[19..])
    else None
  }

  /** `(today|tomorrow|this week)`, alternatives in order. No period word starts with a space, so
      the greedy `\s*` before it never has to give any back. */
  function MatchPeriod(u: string): Option<(Period, string)> {
    if HasPrefixCI(u, "today") then Some((Today, u[5..]))
    else if HasPrefixCI(u, "tomorrow") then Some((Tomorrow, u[8..]))
    else if HasPrefixCI(u, "this week") then Some((ThisWeek, u[9..]))
    else None
  }

  /** `(?: in )?`: greedy, so taken whenever present. */
  function SkipIn(v: string): string {
    if HasPrefixCI(v, " in ") then v[4..] else v
  }

  /** `(.*)` without a `$` after it: everything up to the first line terminator. */
  function TakeLine(s: string): (r: string)
    ensures |r| <= |s| && r == s[..|r|]
    ensures NoLineTerminator(r)
    ensures |r| < |s| ==> IsLineTerminator(s[|r|])
  {
    if s == [] || IsLineTerminator(s[0]) then [] else [s[0]] + TakeLine(s[1..])
  }

  /** `parseWeather`: `None` stands for the `{}` returned when `WEATHER_REGEX` does not match.
      Both captures are lower-cased. */
  function ParseWeather(transcript: string): Option<WeatherQuery> {
    match MatchOpener(transcript)
    case None => None
    case Some(afterOpener) =>
      match MatchPeriod(SkipSpaces(afterOpener))
      case None => None
      case Some((period, rest)) => Some(WeatherQuery(period, LowerStr(TakeLine(SkipIn(rest)))))
  }

  /** `WEATHER_REGEX.test`. */
  predicate Matches(transcript: string) {
    ParseWeather(transcript).Some?
  }

  /** `handleWeatherCommand`. A failed parse reaches it as `{}`, so `period` is `undefined`; an
      empty location (falsy) becomes `"your location"`. */
  function HandleWeatherCommand(query: Option<WeatherQuery>): string {
    var location := if query.Some? && query.value.location != "" then query.value.location else "your location";
    var period := if query.Some? then PeriodWord(query.value.period) else "undefined";
    "Weather for " + (location + (" for " + (period + " is not yet implemented.")))
  }

  /** The reply names the location right after `"Weather for "`, or `"your location"` when the
      query has none. */
  lemma HandleWeatherCommandNamesLocation(query: Option<WeatherQuery>)
    ensures query.Some? && query.value.location != "" ==>
      OccursAt(HandleWeatherCommand(query), query.value.location, 12)
    ensures (query.None? || query.value.location == "") ==>
      OccursAt(HandleWeatherCommand(query), "your location", 12)
  {
    var location := if query.Some? && query.value.location != "" then query.value.location else "your location";
    var period := if query.Some? then PeriodWord(query.value.period) else "undefined";
    var tail := " for " + (period + " is not yet implemented.");
    var r := HandleWeatherCommand(query);
    assert r == "Weather for " + (location + tail);
    assert |"Weather for "| == 12;
    assert r[12..] == location + tail;
    assert (location + tail)[..|location|] == location;
  }

  /** Every parsed field is lower-case and lies on one line. */
  lemma ParseWeatherFields(transcript: string)
    requires ParseWeather(transcript).Some?
    ensures LowerStr(ParseWeather(transcript).value.location) == ParseWeather(transcript).value.location
    ensures NoLineTerminator(ParseWeather(transcript).value.location)
  {
    var afterOpener := MatchOpener(transcript).value;
    var rest := MatchPeriod(SkipSpaces(afterOpener)).value.1;
    var line := TakeLine(SkipIn(rest));
    NoLineTerminatorLower(line);
    forall i | 0 <= i < |line| {
      LowerKeepsClasses(line[i]);
    }
  }

  // ---------------------------------------------------------------------------------------
  // Case-insensitivity.

  lemma MatchOpenerLower(t: string)
    ensures MatchOpener(LowerStr(t)).Some? == MatchOpener(t).Some?
    ensures MatchOpener(t).Some? ==> MatchOpener(LowerStr(t)) == Some(LowerStr(MatchOpener(t).value))
  {
    HasPrefixCILower(t, "what's the weather");
    HasPrefixCILower(t, "what is the weather");
    if MatchOpener(t).Some? {
      var n := if HasPrefixCI(t, "what's the weather") then 18 else 19;
      LowerStrSlice(t, n, |t|);
      assert LowerStr(t)[n..] == LowerStr(t[n..]);
    }
  }

  lemma MatchPeriodLower(u: string)
    ensures MatchPeriod(LowerStr(u)).Some? == MatchPeriod(u).Some?
    ensures MatchPeriod(u).Some? ==>
      MatchPeriod(LowerStr(u)) == Some((MatchPeriod(u).value.0, LowerStr(MatchPeriod(u).value.1)))
  {
    LowerAfterPrefix(u, "today");
    LowerAfterPrefix(u, "tomorrow");
    LowerAfterPrefix(u, "this week");
  }

  lemma SkipInLower(v: string)
    ensures SkipIn(LowerStr(v)) == LowerStr(SkipIn(v))
  {
    HasPrefixCILower(v, " in ");
    if HasPrefixCI(v, " in ") {
      LowerStrSlice(v, 4, |v|);
      assert LowerStr(v)[4..] == LowerStr(v[4..]);
    }
  }

  lemma {:induction false} TakeLineLower(s: string)
    ensures TakeLine(LowerStr(s)) == LowerStr(TakeLine(s))
  {
    if s != [] {
      LowerKeepsClasses(s[0]);
      if !IsLineTerminator(s[0]) {
        LowerStrSlice(s, 1, |s|);
        assert LowerStr(s)[1..] == LowerStr(s[1..]);
        TakeLineLower(s[1..]);
        LowerStrConcat([s[0]], TakeLine(s[1..]));
      }
    }
  }

  /** `parseWeather` once the opener and the period have matched. */
  lemma ParseWeatherOf(t: string, after: string, period: Period, rest: string)
    requires MatchOpener(t) == Some(after) && MatchPeriod(SkipSpaces(after)) == Some((period, rest))
    ensures ParseWeather(t) == Some(WeatherQuery(period, LowerStr(TakeLine(SkipIn(rest)))))
  {
  }

  /** The location captured after a lower-cased rest is the one captured after the original. */
  lemma LocationLower(rest: string)
    ensures LowerStr(TakeLine(SkipIn(LowerStr(rest)))) == LowerStr(TakeLine(SkipIn(rest)))
  {
    SkipInLower(rest);
    TakeLineLower(SkipIn(rest));
    LowerStrIdempotent(TakeLine(SkipIn(rest)));
  }

  /** Matching ignores case entirely: a transcript and its lower-cased form give the same query,
      since both captures are lower-cased anyway. */
  lemma ParseWeatherIgnoresCase(transcript: string)
    ensures ParseWeather(LowerStr(transcript)) == ParseWeather(transcript)
  {
    MatchOpenerLower(transcript);
    if MatchOpener(transcript).Some? {
      var after := MatchOpener(transcript).value;
      var u := SkipSpaces(after);
      SkipSpacesLower(after);
      MatchPeriodLower(u);
      if MatchPeriod(u).Some? {
        var period := MatchPeriod(u).value.0;
        var rest := MatchPeriod(u).value.1;
        LocationLower(rest);
        ParseWeatherOf(transcript, after, period, rest);
        ParseWeatherOf(LowerStr(transcript), LowerStr(after), period, LowerStr(rest));
      }
    }
  }

  // ---------------------------------------------------------------------------------------
  // The phrases the recogniser is meant to accept.

  /** The opener as spoken, contracted or not. */
  function Opener(contracted: bool): string {
    if contracted then "what's the weather" else "what is the weather"
  }

  /** What follows the period: nothing, or `" in "` and the place. */
  function LocationPart(location: string): string {
    if location == "" then "" else " in " + location
  }

  /** A weather question as spoken. */
  function Phrase(query: WeatherQuery, contracted: bool): string {
    Opener(contracted) + (" " + (PeriodWord(query.period) + LocationPart(query.location)))
  }

  lemma MatchOpenerPhrase(contracted: bool, rest: string)
    ensures MatchOpener(Opener(contracted) + rest) == Some(rest)
  {
    PrefixCIOfConcat(Opener(contracted), rest);
    if !contracted {
      var t := Opener(contracted) + rest;
      assert Lower(t[4]) != Lower("what's the weather"[4]);
    }
  }

  lemma MatchPeriodPhrase(p: Period, rest: string)
    ensures MatchPeriod(PeriodWord(p) + rest) == Some((p, rest))
  {
    var t := PeriodWord(p) + rest;
    PrefixCIOfConcat(PeriodWord(p), rest);
    if p != Today {
      assert Lower(t[2]) != Lower("today"[2]);
    }
    if p == ThisWeek {
      assert Lower(t[1]) != Lower("tomorrow"[1]);
    }
  }

  lemma TakeWholeLine(s: string)
    requires NoLineTerminator(s)
    ensures TakeLine(s) == s
  {
  }

  lemma LocationPartParses(location: string)
    requires NoLineTerminator(location)
    ensures TakeLine(SkipIn(LocationPart(location))) == location
  {
    if location != "" {
      PrefixCIOfConcat(" in ", location);
    }
    TakeWholeLine(location);
  }

  /** `parseWeather` in terms of its matching steps. */
  lemma ParseWeatherSteps(t: string, afterOpener: string, period: Period, rest: string)
    requires MatchOpener(t) == Some(afterOpener)
    requires MatchPeriod(SkipSpaces(afterOpener)) == Some((period, rest))
    ensures ParseWeather(t) == Some(WeatherQuery(period, LowerStr(TakeLine(SkipIn(rest)))))
  {
  }

  /** A spoken weather question starts with `w`, and has no outer whitespace when its location
      has none. */
  lemma PhraseTrimmed(query: WeatherQuery, contracted: bool)
    requires Trimmed(query.location)
    ensures Phrase(query, contracted) != [] && Phrase(query, contracted)[0] == 'w'
    ensures Trimmed(Phrase(query, contracted))
  {
    var t := Phrase(query, contracted);
    var w := PeriodWord(query.period);
    var tail := w + LocationPart(query.location);
    assert t == Opener(contracted) + (" " + tail);
    assert t[|t| - 1] == tail[|tail| - 1];
    if query.location == "" {
      assert tail == w;
    } else {
      assert tail[|tail| - 1] == query.location[|query.location| - 1];
    }
  }

  /** Round trip: a spoken weather question with a lower-case location parses back to the query
      it was built from, whichever opener was used. */
  lemma ParsePhrase(query: WeatherQuery, contracted: bool)
    requires NoLineTerminator(query.location) && LowerStr(query.location) == query.location
    ensures ParseWeather(Phrase(query, contracted)) == Some(query)
  {
    var rest := PeriodWord(query.period) + LocationPart(query.location);
    MatchOpenerPhrase(contracted, " " + rest);
    SkipOneSpace(rest);
    MatchPeriodPhrase(query.period, LocationPart(query.location));
    LocationPartParses(query.location);
    ParseWeatherSteps(Phrase(query, contracted), " " + rest, query.period, LocationPart(query.location));
  }
}
