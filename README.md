# hey-computer: the text-side decision logic, in Dafny

hey-computer is a voice assistant. A spoken transcript goes to a router, `executeCommand`. The
router trims the transcript and tests it against a fixed, ordered list of intent patterns:
settings, shopping list, bus, dog care, stop/clock, weather. The first pattern that accepts
decides which handler runs. A transcript that no pattern accepts goes to a language model as a
`stream-boomerang` reply. A blank transcript is answered with "Sorry, I didn't catch that".

This project models the deterministic logic around that router:

- **Router** (`Commands`, src/commands.js). The patterns are abstract tests (`Matchers`) and the
  parsers are abstract functions (`Parsers`). `ModuleMatchers` and `ModuleParsers` plug in the
  recognisers of the modules below. The result is a `Call` value: which handler is reached, and
  with what arguments.
- **Intent parsers.** Each pattern is a hand-written recogniser. Each one follows that pattern's
  alternation and backtracking order, ignores ASCII case as `/i` does, and treats JavaScript
  `\s` and line terminators as JavaScript does.
  - `Clock`: `CLOCK_REGEX`, `parseClock` and the string stub `handleClockCommand`.
  - `Weather`: `WEATHER_REGEX`, `parseWeather` and `handleWeatherCommand`.
  - `HappyDog`: `DOG_REGEX` and the feed/med classification of `parseHappyDog`.
  - `Settings`: `SETTINGS_REGEX`.
  - `Anylist`: the newer `ANYLIST_REGEX` and `preprocessAnylist`, with its `listMap`.
  - `AnylistLegacy`: the older, grocery-only `preprocessAnylist` of src/anylist.js.
  - `Mbta`: `MBTA_REGEX`.
- **Settings state** (`Settings`). `Language` and `Persona` are classes whose one field the
  `Set` methods update. `updateSettings` changes the `Language` cell.
- **List bookkeeping** (`ListItems`).
  - `titleCase` is modelled as a function.
  - `getItemsToAddOrUncheck` is a loop that pushes onto two sequences.
  - `uncheckItem` updates a `ListItem` object in place.

  src/anylist.js holds the same text for all three, at src/anylist.js:7-8, 29-51 and 72-85, so
  both versions share this module.
- **Bus replies** (`Mbta`).
  - The filtering `fetchData` does once the predictions have arrived.
  - `formatMins`, which pops the last minute off the caller's array (a `MinuteArray` object).
  - The reply of `getNextBus`.
- **Speech preparation** (`Tts`, `TtsLegacy`).
  - `splitText`.
  - The marker spacing and the absorb/flush scan of `tokenizeText`, written as loops.
  - The device selection loops of both versions.
  - The language read back from the model path.
  - The early return of `speak`.
- **Logging** (`Logging`).
  - Level validation.
  - `formatLogEntry`, with a parser that inverts it.
  - The rename loop of `maybeRenameFiles`, over a `FileSystem` object that holds the directory
    as a map from path to contents.
  - `log`.
- **`sentenceCase`** (`Utils`).

Shared modules:

- `Wrappers` holds `Option`, `Result` and the thrown `JsError`.
- `Responses` holds the `{ message, type, skipSpeech }` reply record.
- `Text` holds the JavaScript string primitives the recognisers use:
  - `trim`, `\s`, line terminators and `\w`;
  - ASCII `toLowerCase` and `toUpperCase`;
  - `includes`, `indexOf`, `substring` and `join`;
  - the whitespace collapsing of `replace(/\s+/g, ' ')`.

For each recogniser the model proves these properties:

- **Round trip.** Every phrase built from a command parses back to that command, whichever
  optional words are present. For the clock the optional words are the article and the " for"
  before the time. A time spoken without " for" must not itself start with "for", because the
  greedy `(?: for)?` then takes those letters (`Clock.GreedyForEatsTime`).
  For settings the optional words are "please" and "the". Without "the", the pattern needs two
  spaces after "set", so the natural "set language to english" is rejected
  (`Settings.SingleSpaceRejected`).
- **Case.** Every recogniser accepts a transcript exactly when it accepts the lower-cased
  transcript. A capture the source lower-cases itself comes out the same. Any other capture
  comes out lower-cased, such as the settings word or the list item.

The router lemmas hold for any tests and parsers, and `ModuleMatchers` plugs in the newer list
module. That is the router with its imports repaired. As the imports actually load, the router
throws on almost every transcript: `require('./anylist')` resolves to the file src/anylist.js,
not to the directory src/anylist/, and that file exports no `ANYLIST_REGEX`; src/clock/index.js
exports no `STOP_REGEX` either. `Commands.ExecuteCommandAsLoaded` models the router as loaded,
and the Findings table below records the difference.

## Model

| member | source | states |
|---|---|---|
| Commands.FirstAccepting | src/commands.js:24-47 | The index found is the lowest whose test accepts: every earlier test rejects. It is `None` exactly when every test rejects. |
| Commands.FirstAcceptingCases | src/commands.js:24-47 | The tests are tried in the order settings, list, bus, dog, stop or clock, weather. Each outcome is the first test in that order that accepts; none is found when all seven reject. |
| Commands.SwitchTakesFirstRoute | src/commands.js:24-51 | The handler the `switch` reaches is the one of the first accepting test. When no test accepts, no handler is reached. |
| Commands.FirstMatchDecides | src/commands.js:17-53 | A transcript that is not blank once trimmed reaches the handler of the first test that accepts the trimmed text. A blank one gets "Sorry, I didn't catch that" and reaches no test. |
| Commands.FallbackIffNoMatch | src/commands.js:48-51 | The reply is the trimmed transcript with type `stream-boomerang` if and only if the trimmed transcript is non-blank and all seven tests reject it. |
| Commands.BlankIffNotCaught | src/commands.js:18-22 | The "didn't catch that" reply comes exactly from transcripts that are blank once trimmed. |
| Commands.OnlyTrimmedTranscript | src/commands.js:18 | Pre-trimming the transcript changes nothing, so tests and handlers see only the trimmed text. |
| Commands.StopAndClockShareHandler | src/commands.js:39-43 | Swapping the stop and clock tests for any pair that accepts the same transcripts (either one accepting counts) gives the same result. The two tests lead to one handler. |
| Commands.HandlersGetParsedFields | src/commands.js:24-47 | Each handler receives exactly its parser's output on the trimmed transcript, and only when its own test accepted. The clock handler receives `parseClock`'s kind, action and time, and the settings and bus handlers receive the trimmed transcript. |
| Commands.AsLoadedThrows | src/commands.js:1-31 | As the imports load, the router throws exactly on the transcripts that are not blank and that the settings test rejects. Where it answers, it answers as the repaired router. |
| Commands.WeatherQuestionThrowsAsLoaded | src/commands.js:1-46 | Every spoken weather question is accepted by the weather recogniser, yet the router as loaded throws on it. |
| Settings.NotSettingsRequest | src/settings.js:2 | A transcript starting with neither "set" nor "please" is not a settings request. |
| Weather.PhraseTrimmed | src/weather/index.js:2 | A spoken weather question starts with "w" and has no outer whitespace. |
| Clock.HandleClockCommandEchoesTime | src/clock/index.js:29-50 | A `set` reply repeats the given time right after "Timer set for " or "Alarm set for ". A `null` time gets the same reply as an empty one, the prompt to specify it. A `cancel` reply does not depend on the time. |
| Clock.KindNeedsInitial | src/clock/index.js:13 | The kind word must come next: text that starts with neither `t` nor `a` in any case has no kind and tail. |
| Clock.MatchKindWord | src/clock/index.js:13 | The kind word followed by any text without a line terminator is matched. The capture is that text, less a leading " for" in any case when there is one. |
| Clock.MatchArticleKindPhrase | src/clock/index.js:13 | After any of the articles a/an/my/the, or none, the kind is found and the text after the kind word is captured, less a leading " for". The article never reaches a field, which includes `a` before `alarm`. |
| Clock.ParseSpoken | src/clock/index.js:13-27 | Any utterance of action, optional article, kind word and a tail without a line terminator is accepted with that action and kind. The time is `null` when the tail, less a leading " for", is empty, and otherwise that text trimmed. |
| Clock.ParsePhrase | src/clock/index.js:13-27 | Round trip: every clock phrase parses back to the kind, action and trimmed time it was built from, with or without " for" before the time. The article and " for" are dropped. A phrase that ends at the kind word or at " for" gives a `null` time. Without " for", the time must not start with "for". |
| Clock.GreedyForEatsTime | src/clock/index.js:13-27 | A time spoken without " for" that starts with "for" loses those three letters to the optional word: "set a timer fortnight" gives the time "tnight". A time that is just "for" gives `null`. |
| Clock.WordBeforeKindRejected | src/clock/index.js:13-27 | A word between the optional article and the kind word is rejected, whatever the article. This holds for any word that does not start with a space, `a`, `m` or `t`, such as an ordinal. |
| Clock.SecondTimerRejected | src/clock/index.js:6-13 | "set a second timer for 10 minutes", which the header comment lists among the phrasings to handle, is not matched, so `parseClock` returns `{}`. |
| Clock.ParseClockIgnoresCase | src/clock/index.js:12-27 | Lower-casing the transcript changes neither whether it matches nor the lower-cased kind and action. The time comes back as the lower-cased original time. |
| Clock.ClockReplyForPhrase | src/clock/index.js:29-50 | End to end: a spoken `set` with a time is answered "<Kind> set for <time>.", and a spoken `cancel` is answered "<Kind> cancelled.". |
| Weather.TakeLine | src/weather/index.js:2 | The `(.*)` capture is the longest prefix without a line terminator. It stops only at one. |
| Weather.HandleWeatherCommandNamesLocation | src/weather/index.js:17-19 | The reply names the location right after "Weather for ", or "your location" when the location is missing or empty. |
| Weather.ParseWeatherFields | src/weather/index.js:11-12 | The parsed location is lower-case and has no line terminator. |
| Weather.ParseWeatherIgnoresCase | src/weather/index.js:1-15 | A transcript and its lower-cased form parse to the same query. |
| Weather.ParsePhrase | src/weather/index.js:4-15 | Round trip: "what's/what is the weather <period> in <location>" parses back to that period and location, with `''` for no location. |
| HappyDog.PhraseMatches | src/happy-dog/index.js:1-2 | Every dog-care phrase matches, with any mix of optional words and food words in any case. |
| HappyDog.ClassifyPhrase | src/happy-dog/index.js:4-15 | A dog-care phrase classifies as `med` exactly when it names a medicine in lower case, and as `feed` otherwise. An upper-case "MEDS" classifies as `feed`, because the `includes` test is case-sensitive. |
| HappyDog.DogMatchesIgnoresCase | src/happy-dog/index.js:1-2 | A transcript matches exactly when its lower-cased form does. |
| Settings.Language.constructor | src/settings.js:11 | The language cell starts at `en`. |
| Settings.Language.Get | src/settings.js:13-15 | Returns the cell's current value. |
| Settings.Language.Set | src/settings.js:17-19 | After `set(x)`, `get()` returns `x`. |
| Settings.Persona.constructor | src/settings.js:31 | The persona cell starts at `normal`. |
| Settings.Persona.Get | src/settings.js:33-35 | Returns the cell's current value. |
| Settings.Persona.Set | src/settings.js:37-39 | After `set(x)`, `get()` returns `x`. |
| Settings.LanguageCode | src/settings.js:49-55 | The code is `it` exactly for "italian", `ja` exactly for "japanese", and `en` for every other value, in any case. |
| Settings.LanguageCodeIgnoresCase | src/settings.js:55 | The lookup does not depend on the case of the value. |
| Settings.MatchesIgnoresCase | src/settings.js:1-2 | Under `/i` a transcript and its lower-cased form are both settings requests or both not. The captured setting and value are the lower-cased ones, which the exact `setting === 'language'` test then sees. |
| Settings.ParsePhrase | src/settings.js:1-2 | Round trip: "(please) set the language/personality to <word>…", and the same without "the" but with two spaces after "set", yields that setting word and the whole value word. |
| Settings.SingleSpaceRejected | src/settings.js:1-2 | As written, `set (?:the)? (language\|personality)` needs a space on each side of the optional article: "(please) set language…" or "(please) set personality…" with one space is rejected, whatever follows. |
| Settings.SetLanguageToEnglishRejected | src/settings.js:1-2 | In particular, "set language to english" is not a settings request. |
| Settings.UpdateSettings | src/settings.js:42-65 | A transcript that does not match throws, and the language stays. Otherwise only the setting spelled exactly `language` changes the cell, to the looked-up code. The reply reports the current language with `skipSpeech` set. |
| Settings.SwitchLanguage | src/settings.js:47-64 | Saying "set the language to" english, italian or japanese, in any case, switches the cell to `en`, `it` or `ja` and reports that code. |
| Anylist.ItemSearch | src/anylist/index.js:7-8 | The lazy `(.+?)` ends at the first position after which the rest of the pattern matches. No earlier end works, and the item holds no line terminator. When nothing is found, no end on that line works. |
| Anylist.ListMapEntries | src/anylist/index.js:13-18 | `listMap` knows exactly grocery, shopping, costco and target. Only `grocery` maps to "Grocery List". |
| Anylist.ListNameProperties | src/anylist/index.js:36 | The list name is always one of the four lists, and ignores the case of the word. It differs from "Grocery List" exactly for shopping, costco and target. |
| Anylist.NormalizeIdempotent | src/anylist/index.js:22 | The normalised transcript has no outer whitespace and no run of whitespace inside. Normalising again changes nothing. |
| Anylist.MatchesIgnoresCase | src/anylist/index.js:7-8 | Under `/i` the lower-cased text matches exactly when the text does, with the item and the list word lower-cased. |
| Anylist.PreprocessIgnoresCase | src/anylist/index.js:20-39 | On a lower-cased transcript `preprocessAnylist` picks the same list and hands `smartSplit` the lower-cased item. |
| Anylist.ItemSearchFinds | src/anylist/index.js:7-8 | The lazy item capture stops at the first end after which the list tail matches. |
| Anylist.ItemBeforeTail | src/anylist/index.js:7-8 | A single-spaced item of any number of words, with no end inside it after which the tail already matches, followed by text the tail accepts, is captured whole. |
| Anylist.MatchPhrase | src/anylist/index.js:7-8 | Round trip: "(add/please add) <item> to the/my <word> list" yields the item, of one word or several, and the list word, whenever the lazy capture cannot stop inside the item. Without a prefix, the item must not itself start with "add" or "please add", because the optional prefix would take those letters. |
| Anylist.MatchWordPhrase | src/anylist/index.js:7-8 | A one-word item is always captured whole; the lazy capture needs whitespace to stop. |
| Anylist.PhraseIsNormal | src/anylist/index.js:22 | A spoken request whose item is single-spaced is already in normal form. |
| Anylist.PreprocessPhrase | src/anylist/index.js:20-39 | End to end: a spoken request hands exactly its item, of one word or several, to `smartSplit` and names the list its word selects, whenever the lazy capture cannot stop inside the item. |
| Anylist.NoToWordNoEarlyEnd | src/anylist/index.js:7-8 | The capture cannot stop inside an item none of whose later words is "to": the tail needs " to " right where the item would end. |
| Anylist.PreprocessWordsPhrase | src/anylist/index.js:20-39 | End to end for every single-spaced item with no later word "to", such as "milk and eggs". |
| Anylist.PreprocessMilkAndEggs | src/anylist/index.js:20-39 | "add milk and eggs to the grocery list" hands "milk and eggs", whole, to `smartSplit`, for "Grocery List". |
| AnylistLegacy.StripCommandLower | src/anylist.js:14 | `add` or `please add` is removed in any case: stripping the lower-cased text is lower-casing the stripped text. |
| AnylistLegacy.SearchFromLower | src/anylist.js:16-17 | The unanchored search finds a match on the lower-cased text exactly when it finds one on the text, with the captures lower-cased. |
| AnylistLegacy.PreprocessIgnoresCase | src/anylist.js:10-27 | On a lower-cased transcript the older `preprocessAnylist` hands `smartSplit` the lower-cased item, and matches exactly when the original matches. |
| AnylistLegacy.StripPhrase | src/anylist.js:14 | The leading "add " or "please add " is removed and nothing else is, for items of any number of words. With no prefix, the text is kept unless the item itself starts with the word "add" or "please add". |
| AnylistLegacy.NoCommandBeforeTo | src/anylist.js:14 | An item that does not begin with the command word "add" or "please add" followed by a space loses nothing. |
| AnylistLegacy.SearchFrom | src/anylist.js:16-17 | The unanchored search returns the match at the lowest start position that has one, and nothing exactly when no start position has one. |
| AnylistLegacy.SearchListPart | src/anylist.js:16 | The item capture is everything before " to the/my grocery list", for items of any number of words, whenever the lazy capture cannot stop inside the item. |
| AnylistLegacy.PreprocessPhrase | src/anylist.js:10-27 | Round trip: a spoken grocery request hands exactly its item, of one word or several, to `smartSplit`, whenever the lazy capture cannot stop inside the item. |
| AnylistLegacy.PreprocessWordsPhrase | src/anylist.js:10-27 | End to end for every single-spaced grocery item with no later word "to". |
| AnylistLegacy.GroceryTailIsListTail | src/anylist.js:16 | Wherever " to the/my grocery list" matches, the newer pattern's list tail matches too. |
| AnylistLegacy.VersionsAgree | src/anylist.js:10-27 | On a grocery request, of one word or several, both versions hand the splitter the same item, and the newer one names "Grocery List". |
| ListItems.TitleCase | src/anylist/index.js:10-11 | Title-casing keeps the length. |
| ListItems.TitleCaseChars | src/anylist/index.js:10-11 | Each character at a word start (`\b\w`) is upper-cased, and every other character is kept. |
| ListItems.TitleCaseKeepsWordStarts | src/anylist/index.js:10-11 | Word boundaries stay where they were. |
| ListItems.TitleCaseIdempotent | src/anylist/index.js:10-11 | Title-casing twice is title-casing once. |
| ListItems.TitleCaseOnlyChangesCase | src/anylist/index.js:10-11 | Title-casing changes only the case of letters. |
| ListItems.ListItem.constructor | src/anylist/index.js:65-78 | An item holds the given name and checked flag. |
| ListItems.SplitNames | src/anylist/index.js:45-60 | The loop builds exactly the existing items and the drafted new items, each in the order of the names. |
| ListItems.GetItemsToAddOrUncheck | src/anylist/index.js:41-63 | A name whose title-cased form is on the list gives its item to `existingItems`. Any other name gives `{ name: titleCase(name.trim()), categoryMatchId: getCategory(name) }` to `newItems`. |
| ListItems.PartitionSizes | src/anylist/index.js:41-63 | Every name lands in exactly one of the two results. |
| ListItems.PartitionConcat | src/anylist/index.js:45-60 | The split keeps the order of the names. |
| ListItems.PartitionCovers | src/anylist/index.js:45-60 | Each name contributes its item, or its new item, to the result it belongs to. |
| ListItems.PartitionSound | src/anylist/index.js:45-60 | Every result element comes from a name that belongs there. |
| ListItems.UncheckItem | src/anylist/index.js:65-78 | Afterwards the item is unchecked and keeps its name. `save()` is attempted exactly when it was checked. |
| ListItems.UncheckTwice | src/anylist/index.js:65-78 | Unchecking a second time attempts no save. |
| Mbta.MinuteArray.constructor | src/mbta/index.js:122 | The array holds the given minutes. |
| Mbta.MinuteArray.Pop | src/mbta/index.js:123 | `pop` returns the last element and removes it, and returns `undefined` on an empty array. |
| Mbta.Render | src/mbta/index.js:128 | Each minute is rendered as `String` renders it. |
| Mbta.JoinSpoken | src/mbta/index.js:128 | "a, b, … and z" built from the back (join, then " and ", then the last) is the list spoken from the front. |
| Mbta.SpokenAfterPop | src/mbta/index.js:122-128 | After popping the last minute, both branches of `formatMins` say the spoken list of all the minutes. |
| Mbta.FormatMins | src/mbta/index.js:122-129 | The result is the spoken list of the minutes, and the caller's array loses its last minute. |
| Mbta.SpokenShort | src/mbta/index.js:122-128 | One minute is said as itself, and two as "a and b". |
| Mbta.RouteData | src/mbta/index.js:38-40 | The filter keeps exactly the predictions for route 71. |
| Mbta.RouteDataConcat | src/mbta/index.js:38-40 | The filter keeps the predictions' order. |
| Mbta.UpcomingMins | src/mbta/index.js:91-92 | Exactly the minutes with 1 ≤ m < 60 are kept. |
| Mbta.DepartMins | src/mbta/index.js:91-93 | The first `min(4, n)` upcoming minutes, in order, where n is the number of upcoming minutes. |
| Mbta.IsWalkable | src/mbta/index.js:95-97 | True if and only if some minute lies in [3, 9]. |
| Mbta.Direction | src/mbta/index.js:88-89 | The destination at the index, else the name at the index, else `''`. A missing or empty entry falls through. |
| Mbta.DirectionChoices | src/mbta/index.js:76-89 | The direction is a destination or name of the first route-71 prediction's direction, or `''`. With no route-71 prediction it is `''`. |
| Mbta.FetchData | src/mbta/index.js:27-114 | No predictions gives the "No predictions" error. Missing stop or route info gives the early return. Otherwise the record holds the stop name, direction, walkability and departure minutes above. |
| Mbta.GetNextBus | src/mbta/index.js:131-143 | An error gives the fixed apology. The early return makes `formatMins(undefined)` throw. Otherwise the reply is "<spoken minutes> mins" with type `map`. |
| Mbta.BusReplyBounds | src/mbta/index.js:91-93 | A bus reply names at most four departures, all within the hour. With none upcoming it names none. |
| Mbta.PhraseMatches | src/mbta/index.js:3-4 | Every "when is/when's/how long until my/the (next) bus…" question matches. |
| Mbta.MatchesIgnoresCase | src/mbta/index.js:3-4 | Matching ignores case. |
| Tts.SplitText | src/tts/index.js:21-34 | For `ko` and `ja` there is one token per character. |
| Tts.SplitTextRejoins | src/tts/index.js:23-24 | The character tokens spell the text again. |
| Tts.MarkerEnd | src/tts/index.js:37-38 | A match of either marker pattern is a `{…\|…}` marker on one line. |
| Tts.MarkersFrom | src/tts/index.js:41 | Every collected match is a marker. |
| Tts.MarkerAtStart | src/tts/index.js:37-38 | Both patterns match a leading marker up to its `}`. |
| Tts.DedupSound | src/tts/index.js:42 | The `Set` keeps every marker, and each one once. |
| Tts.NoBraceNoMarkers | src/tts/index.js:40-41 | Without `{` the text is unchanged and there are no markers. |
| Tts.GluedMarker | src/tts/index.js:37-42 | A marker glued to the next word gets a space inserted and is the one marker found. |
| Tts.Absorb | src/tts/index.js:51-60 | A token that no marker absorbs leaves the accumulation unchanged. A token that is absorbed leaves an accumulation that one of the markers starts with. |
| Tts.AbsorbWhen | src/tts/index.js:51-60 | A token is absorbed exactly when some marker starts with `currentMatch` as first computed: the trimmed token when nothing is accumulating, otherwise the accumulation followed by the token. |
| Tts.AbsorbToken | src/tts/index.js:51-60 | The inner loop computes the absorption of one token. |
| Tts.MergeTokens | src/tts/index.js:46-71 | The outer loop emits exactly the pieces of the scan. |
| Tts.TokenizeText | src/tts/index.js:36-74 | The result is the tokenization of the spaced text with the de-duplicated markers. |
| Tts.NoMarkersKeepsTokens | src/tts/index.js:46-71 | With no markers every token passes through and nothing accumulates. |
| Tts.TokenizedWithoutMarkers | src/tts/index.js:36-74 | A text without `{` is spoken exactly as split. |
| Tts.KeptInOrder | src/tts/index.js:62-70 | Tokens that are not absorbed are emitted in order, each once, and no other token is emitted. |
| Tts.PronunciationsSpaced | src/tts/index.js:51-68 | Every flushed pronunciation is a space followed by a non-empty start of one of the `{word\|pron}` markers, so the flush never happens at `i == 0`. What is still accumulating is also the start of a marker. |
| Tts.FoldIntoMarker | src/tts/index.js:46-73 | With one marker, tokens from the start of the text that spell a start of it (the first token trimmed and not blank) are all absorbed. Nothing is emitted, and the accumulation is what they spell. |
| Tts.FoldEmitsMarker | src/tts/index.js:46-73 | Tokens that spell the whole marker are merged into one `{word\|pron}` token with a leading space. It is emitted, followed by the next token, as soon as a non-empty token follows. |
| Tts.BlankTokenAbsorbed | src/tts/index.js:49-60 | `startsWith('')` holds for every marker, so once there is a marker, a whitespace-only token is absorbed when nothing is accumulating, and nothing accumulates. |
| Tts.BlankTokenDropped | src/tts/index.js:49-70 | Such a token is never emitted. With the one-character tokens of `ko` and `ja`, every space outside a marker is dropped once the text holds a marker. |
| Tts.FlushBeforeNextToken | src/tts/index.js:49-73 | An absorbed token emits nothing. Any other token flushes the accumulation just before itself and clears it. What is still accumulating at the end is never emitted. |
| Tts.FirstDevice | src/tts/index.js:96-104 | The lowest-index device containing the pattern, or none. |
| Tts.SelectDeviceChoice | src/tts/index.js:76-104 | The choice is the first device for the first pattern any device contains, or `null` when no device contains any pattern. |
| Tts.ChooseDevice | src/tts/index.js:96-104 | The nested loop computes that choice. |
| Tts.ModelLanguage | src/tts/index.js:82-89 | The language read back from the model path is the configured one, as long as the working directory holds no `orca_params_`. |
| Tts.Speak | src/tts/index.js:78-136 | `speak` returns early exactly when speech is skipped or the message is empty. Otherwise it settles on the model path, the language, the device and the tokens above. |
| TtsLegacy.LastDeviceChoice | src/tts.js:98-106 | The chosen device is the highest-index HDMI device, or 0 when there is none. |
| TtsLegacy.ChooseDevice | src/tts.js:91-106 | The loop computes that choice. |
| TtsLegacy.LegacyLanguage | src/tts.js:10-14 | The older version always speaks English (given a working directory without `orca_params_`). |
| TtsLegacy.Speak | src/tts.js:81-152 | The older `speak` settles on English, the last HDMI device, and the same tokenization as the newer one. |
| Logging.UpperStr | src/logging.js:31 | Upper-casing keeps the length. |
| Logging.ParseEntryText | src/logging.js:29-32 | Every entry line reads back as its parts, whatever the message holds. |
| Logging.ParseFormat | src/logging.js:29-32 | Every line `formatLogEntry` writes reads back as its timestamp, upper-cased level and message. |
| Logging.ParseSound | src/logging.js:29-32 | Whatever parses is exactly the line its parts spell. |
| Logging.LevelLabels | src/logging.js:36 | The four levels are written DEBUG, INFO, WARN and ERROR. |
| Logging.LogNameInjective | src/logging.js:17-18 | Different numbers name different files. |
| Logging.RenameStepFacts | src/logging.js:20-21 | A rename removes the source and gives the destination its contents. A missing source changes nothing, and other files are untouched. |
| Logging.RenameBelowShifts | src/logging.js:16-23 | Renaming from the top down moves every `k.log` to `(k+1).log` without overwriting a file not yet moved. |
| Logging.RotationShifts | src/logging.js:16-23 | After rotation every old `k.log` (k ≤ 5) is `(k+1).log`. `0.log` is gone, and nothing but `0.log` … `6.log` is touched. |
| Logging.FileSystem.RotateIn | src/logging.js:16-23 | The descending loop computes that rotation. |
| Logging.FileSystem.MaybeRenameFiles | src/logging.js:8-27 | As written: rotation happens only when the log directory's `0.log` exceeds 5 MiB, and it renames in the working directory. |
| Logging.FileSystem.MaybeRenameLogFiles | src/logging.js:8-27 | Corrected: the same condition, with the renames in the log directory. |
| Logging.AsWrittenKeepsLogFile | src/logging.js:16-23 | As written, an oversized log is left where it is, and rotation is due again. |
| Logging.RotationInLogDirEmptiesLogFile | src/logging.js:8-27 | Corrected: the oversized log becomes `1.log`, and no rotation is due afterwards. |
| Logging.FileSystem.Log | src/logging.js:34-51 | An unknown level throws and writes nothing. Otherwise the formatted entry is appended (a failed append is swallowed), and rotation is attempted either way. |
| Logging.LoggedLineKept | src/logging.js:42-50 | With the rotation in the log directory (the corrected rotation, see Findings): after a successful append the entry is the end of `0.log`; when the append made the log due for rotation, it is the end of `1.log` and there is no `0.log`. |
| Logging.LoggedLineKeptAsWritten | src/logging.js:8-27 | As written, run outside the log directory: the entry stays at the end of the log directory's `0.log` whether or not rotation was due, and an oversized log stays due for rotation. |
| Utils.SentenceCase | src/utils.js:7 | Throws exactly on `''`. Otherwise the first character is upper-cased (ASCII only) and the rest are unchanged. |
| Utils.SentenceCaseIdempotent | src/utils.js:7 | Applying it twice is applying it once. |
| Utils.SentenceCaseFixedPoints | src/utils.js:7 | A string is left alone exactly when its first character is not an ASCII lower-case letter. |

## Left out

- **The stop pattern.** src/commands.js:39 tests `STOP_REGEX`, which src/clock/index.js does not
  export, so there is no stop recogniser to model. In the repaired router the stop test is a
  parameter of `ModuleMatchers`, and the router lemmas hold for any stop test. As loaded, that
  case is never reached (see Findings).
- **The older list module in the router.** `Parsers.list` has the newer parser's type, so the
  older `preprocessAnylist` (which returns no list name) is not plugged into the router. Both
  versions are modelled on their own, and `AnylistLegacy.VersionsAgree` relates them.
- **The exception value.** Where the source calls a method on `undefined`, the model returns
  `Err(TypeError)` without modelling the error's message or the rejected promise.
- **Handler effects and errors.** The router returns which handler is reached and with what
  arguments (`Call`); it does not run the handler. Nothing in the router catches a handler's
  error, so a handler that throws makes `executeCommand` reject. These effects are not modelled:
  - `addToList` and `addItem` (AnyList login and saves);
  - `handleDog` (HTTP);
  - the network part of `fetchData`.
- **The timer and alarm engine.** Its persistence and scheduling code is not part of this model.
  The `handleClockCommand` modelled here is the string stub.
- **Settings requests with one space and no article.** src/settings.js:2 writes
  `set (?:the)? (language|personality)`, which needs two spaces after "set" when "the" is left
  out. The model keeps the pattern as written, so such a request is not a settings request
  (`Settings.SingleSpaceRejected`). The evidently intended `(?:the )?` is not modelled, because the
  router and `updateSettings` are modelled with the pattern as it is written.
- **Several timers.** The header comment of src/clock/index.js:6 names "Set a second timer for 10
  minutes" among the phrasings `CLOCK_REGEX` should handle. The pattern rejects it
  (`Clock.SecondTimerRejected`). The source defines no record or behaviour for a second timer,
  so no intended behaviour is modelled.
- **Regular-expression semantics in general.** Each pattern is modelled by its own recogniser,
  and case folding is ASCII only, as `/i` without `u` is on these ASCII patterns. Lower-casing
  of non-ASCII letters in captured text (the weather location) is not modelled.
- **Object lookups.** `langMap[...]` and `listMap[...]` are plain maps here. Keys such as
  `constructor`, inherited from `Object.prototype`, are not modelled.
- **UTF-16.** `text.split('')` on characters outside the Basic Multilingual Plane, and the
  tokenizer behind `splitText` for other languages (`tiktoken` is a parameter), are not modelled.
- **Outside-world inputs passed in as parameters.** `smartSplit`, `getCategory`,
  `process.cwd()`, the device list, the log timestamp (`new Date().toISOString()`), and whether
  `appendFileSync` fails.
- **Speech output, audio and timing.** Everything in `speak` after the tokens and the device are
  chosen: Orca, PvSpeaker, buffers, `sleep` and `performance.now`.
- **Console output.**
- **Parts of `fetchData`.** Vehicle coordinates, colours, the debugging fields, and how
  `selectDepartures` and `selectIncluded` read the response. Departures are given as whole
  minutes.
- **`path.join`.** It is modelled as joining with `/`, for a working directory and home
  directory without a trailing separator.
- **File size.** It is the length of the contents in characters, not in UTF-8 bytes.
- **The checked flag.** `ListItem.checked` is a boolean; a non-boolean `checked` is not modelled.
- **The weather test rows.** They expect a `type` key and phrasings that the code does not
  produce. The model follows the code.
- Tts.Speak: stops at the plan for the synthesiser (model path, language, device and tokens).
- TtsLegacy.Speak: stops at the same plan for the older version.
- Utils.SentenceCase: upper-cases ASCII letters only. JavaScript's `toUpperCase` also maps
  non-ASCII letters, such as 'é' to 'É', and can change the length, as 'ß' becomes "SS"; on such
  a first character the model leaves the string unchanged.
- Utils.SentenceCaseFixedPoints: "lower-case letter" means ASCII `a`-`z`, for the same reason.
- **The `i !== 0` test in `tokenizeText`.** It is always true when reached
  (`Tts.PronunciationsSpaced`), so the unspaced branch is never taken.
- Logging.LoggedLineKept: states where the entry ends up under the corrected rotation. As
  written, the entry stays in `0.log` (Logging.LoggedLineKeptAsWritten).
- Logging.FileSystem.Log: rotates in the log directory, as `maybeRenameFiles` evidently intends
  (see Findings).

## Findings

| source | as written | input that shows it | evidently intended | confidence | as-written member | corrected member |
|---|---|---|---|---|---|---|
| src/commands.js:1 | `require('./anylist')` loads src/anylist.js, a file taking precedence over the directory src/anylist/, and its exports have no `ANYLIST_REGEX`. The second `case` calls `test` on `undefined` and throws. | "what's the weather today", or any other transcript that is not blank and is not a settings request: the router rejects instead of reaching a handler or the fallback. | Import the newer module, src/anylist/index.js, which exports `ANYLIST_REGEX`, and export a `STOP_REGEX` from src/clock/index.js. | not executed | Commands.WeatherQuestionThrowsAsLoaded | Commands.FirstMatchDecides |
| src/logging.js:16-23 | The size check reads `~/.logs/hey-computer/0.log`, but the renames use the relative names `0.log` … `6.log`, which resolve in the working directory. | A `0.log` over 5 MiB in the log directory, with the process running in any other directory: nothing in the log directory is renamed, the log keeps growing, and rotation is attempted again on every call. | Rename `k.log` to `(k+1).log` inside the log directory, so the oversized log becomes `1.log`. | not executed | Logging.AsWrittenKeepsLogFile | Logging.RotationInLogDirEmptiesLogFile |
