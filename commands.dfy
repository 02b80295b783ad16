/** The intent router `executeCommand` of `src/commands.js`: a blank-input guard, then the
    recognisers tried in a fixed order, the first that accepts choosing the handler, and the
    language model as the fallback. The seven recognisers and the four parsers are parameters;
    `ModuleParsers` wires in the parsers of the intent modules. */
module Commands {
  import opened Wrappers
  import opened Text
  import opened Responses
  import Settings
  import Anylist
  import Mbta
  import HappyDog
  import Clock
  import Weather

  /** The seven `test`s of the `switch (true)`, in the order it tries them. */
  datatype Matchers = Matchers(
    settings: string -> bool,
    list: string -> bool,
    bus: string -> bool,
    dog: string -> bool,
    stop: string -> bool,
    clock: string -> bool,
    weather: string -> bool)

  function Tests(m: Matchers): (r: seq<string -> bool>)
    ensures |r| == 7
  {
    [m.settings, m.list, m.bus, m.dog, m.stop, m.clock, m.weather]
  }

  /** The recognisers of the intent modules. `STOP_REGEX` is not among them, so the stop test
      is left as a parameter. */
  function ModuleMatchers(stop: string -> bool): Matchers {
    Matchers(Settings.Matches, Anylist.Matches, Mbta.Matches, HappyDog.DogMatches, stop, Clock.Matches, Weather.Matches)
  }

  /** The parsers whose fields the list, dog, clock and weather handlers are given. */
  datatype Parsers = Parsers(
    list: string -> Option<Anylist.ListRequest>,
    dog: string -> Option<HappyDog.Feeding>,
    clock: string -> Option<Clock.ClockCommand>,
    weather: string -> Option<Weather.WeatherQuery>)

  /** `preprocessAnylist`, `parseHappyDog`, `parseClock` and `parseWeather`, with the item
      splitter of the list intent as a parameter. */
  function ModuleParsers(smartSplit: string -> seq<string>): Parsers {
    Parsers(t => Anylist.PreprocessAnylist(t, smartSplit), HappyDog.ParseHappyDog, Clock.ParseClock, Weather.ParseWeather)
  }

  /** The handler `executeCommand` calls, with what it hands over, or the reply it builds itself. */
  datatype Call =
    | Reply(response: Response)
    | UpdateSettings(transcript: string)
    | AddToList(request: Option<Anylist.ListRequest>)
    | GetNextBus(transcript: string)
    | HandleDog(feeding: Option<HappyDog.Feeding>)
    | HandleClock(command: Option<Clock.ClockCommand>)
    | HandleWeather(query: Option<Weather.WeatherQuery>)

  const NotCaught: Response := Response("Sorry, I didn't catch that", None, false)
  const StreamKind: string := "stream-boomerang"

  /** The reply that hands the transcript to the language model. */
  function Fallback(transcript: string): Response {
    Response(transcript, Some(StreamKind), false)
  }

  /** `executeCommand(rawTranscript)`: the guard on the trimmed transcript, then the `switch`. */
  function ExecuteCommand(m: Matchers, p: Parsers, rawTranscript: string): Call {
    var t := Trim(rawTranscript);
    if t == [] then Reply(NotCaught) else Switch(m, p, t)
  }

  /** The `switch (true)` on a transcript that is not blank. The stop and the clock test share
      the clock handler. */
  function Switch(m: Matchers, p: Parsers, t: string): Call {
    if m.settings(t) then UpdateSettings(t)
    else if m.list(t) then AddToList(p.list(t))
    else if m.bus(t) then GetNextBus(t)
    else if m.dog(t) then HandleDog(p.dog(t))
    else if m.stop(t) || m.clock(t) then HandleClock(p.clock(t))
    else if m.weather(t) then HandleWeather(p.weather(t))
    else Reply(Fallback(t))
  }

  // ---------------------------------------------------------------------------------------
  // Which handler runs.

  datatype Route = ToSettings | ToList | ToBus | ToDog | ToClock | ToWeather

  /** The handler of each test; the stop and the clock test lead to the same one. */
  function RouteOf(k: nat): Route
    requires k < 7
  {
    [ToSettings, ToList, ToBus, ToDog, ToClock, ToClock, ToWeather][k]
  }

  function CallRoute(c: Call): Option<Route> {
    match c
    case Reply(_) => None
    case UpdateSettings(_) => Some(ToSettings)
    case AddToList(_) => Some(ToList)
    case GetNextBus(_) => Some(ToBus)
    case HandleDog(_) => Some(ToDog)
    case HandleClock(_) => Some(ToClock)
    case HandleWeather(_) => Some(ToWeather)
  }

  /** The first of `tests` that accepts `t`, searched from the front. */
  function FirstAccepting(tests: seq<string -> bool>, t: string): (r: Option<nat>)
    ensures r.Some? ==> r.value < |tests| && tests[r.value](t)
    ensures r.Some? ==> forall j :: 0 <= j < r.value ==> !tests[j](t)
    ensures r.None? <==> forall j :: 0 <= j < |tests| ==> !tests[j](t)
  {
    if tests == [] then None
    else if tests[0](t) then Some(0)
    else
      var rest := FirstAccepting(tests[1..], t);
      assert forall j :: 1 <= j < |tests| ==> tests[j] == tests[1..][j - 1];
      if rest.None? then None else Some(rest.value + 1)
  }

  /** The first accepting test of each of the six possible outcomes. */
  lemma FirstAcceptingCases(m: Matchers, t: string)
    ensures m.settings(t) ==> FirstAccepting(Tests(m), t) == Some(0)
    ensures !m.settings(t) && m.list(t) ==> FirstAccepting(Tests(m), t) == Some(1)
    ensures !m.settings(t) && !m.list(t) && m.bus(t) ==> FirstAccepting(Tests(m), t) == Some(2)
    ensures !m.settings(t) && !m.list(t) && !m.bus(t) && m.dog(t) ==> FirstAccepting(Tests(m), t) == Some(3)
    ensures !m.settings(t) && !m.list(t) && !m.bus(t) && !m.dog(t) && (m.stop(t) || m.clock(t)) ==>
      FirstAccepting(Tests(m), t).Some? && FirstAccepting(Tests(m), t).value in {4, 5}
    ensures !m.settings(t) && !m.list(t) && !m.bus(t) && !m.dog(t) && !m.stop(t) && !m.clock(t) && m.weather(t) ==>
      FirstAccepting(Tests(m), t) == Some(6)
    ensures !m.settings(t) && !m.list(t) && !m.bus(t) && !m.dog(t) && !m.stop(t) && !m.clock(t) && !m.weather(t) ==>
      FirstAccepting(Tests(m), t) == None
  {
    var tests := Tests(m);
    var r := FirstAccepting(tests, t);
    if r.Some? {
      var k := r.value;
      if m.settings(t) {
        assert !(k > 0) by { assert tests[0](t); }
      } else if m.list(t) {
        assert !(k > 1) by { assert tests[1](t); }
      } else if m.bus(t) {
        assert !(k > 2) by { assert tests[2](t); }
      } else if m.dog(t) {
        assert !(k > 3) by { assert tests[3](t); }
      } else if m.stop(t) {
        assert !(k > 4) by { assert tests[4](t); }
      } else if m.clock(t) {
        assert !(k > 5) by { assert tests[5](t); }
      } else if m.weather(t) {
        assert !(k > 6) by { assert tests[6](t); }
      }
    } else {
      assert !tests[0](t) && !tests[1](t) && !tests[2](t) && !tests[3](t);
      assert !tests[4](t) && !tests[5](t) && !tests[6](t);
    }
  }

  /** The handler of the first accepting test, if any. */
  function FirstRoute(m: Matchers, t: string): Option<Route> {
    match FirstAccepting(Tests(m), t)
    case None => None
    case Some(k) => Some(RouteOf(k))
  }

  /** The `switch` runs the handler of the first accepting test. */
  lemma SwitchTakesFirstRoute(m: Matchers, p: Parsers, t: string)
    ensures CallRoute(Switch(m, p, t)) == FirstRoute(m, t)
  {
    FirstAcceptingCases(m, t);
    var r := FirstAccepting(Tests(m), t);
    if r.Some? && r.value in {4, 5} {
      assert RouteOf(r.value) == ToClock;
    }
  }

  /** The handler that runs is the one of the first test, in the order of the `switch`, that
      accepts the trimmed transcript; when none does, no handler runs. A blank transcript
      reaches no test at all. */
  lemma FirstMatchDecides(m: Matchers, p: Parsers, rawTranscript: string)
    ensures Trim(rawTranscript) != [] ==>
      CallRoute(ExecuteCommand(m, p, rawTranscript)) == FirstRoute(m, Trim(rawTranscript))
    ensures Trim(rawTranscript) == [] ==> ExecuteCommand(m, p, rawTranscript) == Reply(NotCaught)
  {
    SwitchTakesFirstRoute(m, p, Trim(rawTranscript));
  }

  /** The language model gets the trimmed transcript exactly when the transcript is not blank and
      no test accepts it. */
  lemma FallbackIffNoMatch(m: Matchers, p: Parsers, rawTranscript: string)
    ensures ExecuteCommand(m, p, rawTranscript) == Reply(Fallback(Trim(rawTranscript)))
        <==> Trim(rawTranscript) != [] && forall k :: 0 <= k < 7 ==> !Tests(m)[k](Trim(rawTranscript))
  {
    var t := Trim(rawTranscript);
    FirstAcceptingCases(m, t);
    if t == [] {
      assert NotCaught.message != t;
    }
  }

  /** The guard answers exactly the transcripts that are blank once trimmed. */
  lemma BlankIffNotCaught(m: Matchers, p: Parsers, rawTranscript: string)
    ensures ExecuteCommand(m, p, rawTranscript) == Reply(NotCaught) <==> Trim(rawTranscript) == []
  {
    SwitchNeverNotCaught(m, p, Trim(rawTranscript));
  }

  /** A reply the `switch` builds itself always carries the stream kind. */
  lemma SwitchNeverNotCaught(m: Matchers, p: Parsers, t: string)
    ensures Switch(m, p, t) != Reply(NotCaught)
  {
    var c := Switch(m, p, t);
    assert c.Reply? ==> c.response.kind == Some(StreamKind);
  }

  /** Tests and handlers see only the trimmed transcript: leading and trailing whitespace never
      changes the outcome. */
  lemma OnlyTrimmedTranscript(m: Matchers, p: Parsers, rawTranscript: string)
    ensures ExecuteCommand(m, p, Trim(rawTranscript)) == ExecuteCommand(m, p, rawTranscript)
  {
    TrimOfTrimmed(Trim(rawTranscript));
  }

  /** The stop and the clock test lead to one handler: only whether either of them accepts
      matters, not which. */
  lemma StopAndClockShareHandler(m: Matchers, stop2: string -> bool, clock2: string -> bool,
                                 p: Parsers, rawTranscript: string)
    requires var t := Trim(rawTranscript); (m.stop(t) || m.clock(t)) == (stop2(t) || clock2(t))
    ensures ExecuteCommand(m.(stop := stop2, clock := clock2), p, rawTranscript)
            == ExecuteCommand(m, p, rawTranscript)
  {
  }

  /** The clock handler receives the three fields `parseClock` extracted, and the dog and
      weather handlers the fields of their parsers, all from the trimmed transcript. */
  lemma HandlersGetParsedFields(m: Matchers, p: Parsers, rawTranscript: string)
    ensures var c := ExecuteCommand(m, p, rawTranscript); var t := Trim(rawTranscript);
      && (c.HandleClock? ==> c.command == p.clock(t) && (m.stop(t) || m.clock(t)))
      && (c.HandleDog? ==> c.feeding == p.dog(t) && m.dog(t))
      && (c.HandleWeather? ==> c.query == p.weather(t) && m.weather(t))
      && (c.AddToList? ==> c.request == p.list(t) && m.list(t))
      && (c.UpdateSettings? ==> c.transcript == t && m.settings(t))
      && (c.GetNextBus? ==> c.transcript == t && m.bus(t))
  {
    SwitchArguments(m, p, Trim(rawTranscript));
  }

  lemma SwitchArguments(m: Matchers, p: Parsers, t: string)
    ensures var c := Switch(m, p, t);
      && (c.HandleClock? ==> c.command == p.clock(t) && (m.stop(t) || m.clock(t)))
      && (c.HandleDog? ==> c.feeding == p.dog(t) && m.dog(t))
      && (c.HandleWeather? ==> c.query == p.weather(t) && m.weather(t))
      && (c.AddToList? ==> c.request == p.list(t) && m.list(t))
      && (c.UpdateSettings? ==> c.transcript == t && m.settings(t))
      && (c.GetNextBus? ==> c.transcript == t && m.bus(t))
  {
  }

  // ---------------------------------------------------------------------------------------
  // The router as its imports load.

  /** `executeCommand` with its imports resolved as Node resolves them. `require('./anylist')`
      loads `src/anylist.js` (a file takes precedence over the directory `src/anylist/`), whose
      exports have no `ANYLIST_REGEX`; the second case then calls `test` on `undefined` and
      throws. So only the blank guard and the settings case can ever answer. (`STOP_REGEX`,
      which `src/clock/index.js` does not export either, is never reached.) */
  function ExecuteCommandAsLoaded(m: Matchers, p: Parsers, rawTranscript: string): Result<Call, JsError> {
    var t := Trim(rawTranscript);
    if t == [] then Ok(Reply(NotCaught))
    else if m.settings(t) then Ok(UpdateSettings(t))
    else Err(TypeError)
  }

  /** As loaded, the router throws exactly on the transcripts that are not blank and that the
      settings test rejects; where it does answer, it answers as the repaired router does. */
  lemma AsLoadedThrows(m: Matchers, p: Parsers, rawTranscript: string)
    ensures ExecuteCommandAsLoaded(m, p, rawTranscript).Err?
        <==> Trim(rawTranscript) != [] && !m.settings(Trim(rawTranscript))
    ensures ExecuteCommandAsLoaded(m, p, rawTranscript).Ok? ==>
      ExecuteCommandAsLoaded(m, p, rawTranscript).value == ExecuteCommand(m, p, rawTranscript)
  {
  }

  /** Every spoken weather question, which the weather recogniser accepts, makes the router as
      loaded throw instead of reaching any handler. */
  lemma WeatherQuestionThrowsAsLoaded(query: Weather.WeatherQuery, contracted: bool,
                                      stop: string -> bool, p: Parsers)
    requires NoLineTerminator(query.location) && LowerStr(query.location) == query.location
    requires Trimmed(query.location)
    ensures Weather.Matches(Weather.Phrase(query, contracted))
    ensures ExecuteCommandAsLoaded(ModuleMatchers(stop), p, Weather.Phrase(query, contracted)) == Err(TypeError)
  {
    var t := Weather.Phrase(query, contracted);
    Weather.ParsePhrase(query, contracted);
    Weather.PhraseTrimmed(query, contracted);
    TrimOfTrimmed(t);
    Settings.NotSettingsRequest(t);
  }
}
