/** The bus intent of `src/mbta/index.js`: `MBTA_REGEX`
      /^(when is|when's|how long until) (my|the) (next )?bus( coming| comes)?/i
    as a recogniser, the filtering `fetchData` does once the predictions have arrived, the
    in-place `formatMins`, and the reply of `getNextBus`. */
module Mbta {
  import opened Wrappers
  import opened Text
  import opened Responses

  const PredictionsLimit: nat := 4
  const Route: string := "71"
  const WaitStart: int := 3
  const WaitLength: int := 6
  const TroubleMessage: string := "I'm having trouble fetching MBTA information."

  // ---------------------------------------------------------------------------------------
  // `formatMins`.

  /** A JavaScript array of minutes, shared with the caller and shortened in place by `pop`. */
  class MinuteArray {
    var elems: seq<int>

    constructor(elems: seq<int>)
      ensures this.elems == elems
    {
      this.elems := elems;
    }

    /** `Array.prototype.pop`: `undefined` on an empty array. */
    method Pop() returns (last: Option<int>)
      modifies this
      ensures old(elems) == [] ==> last == None && elems == []
      ensures old(elems) != [] ==>
        last == Some(old(elems)[|old(elems)| - 1]) && elems == old(elems)[..|old(elems)| - 1]
    {
      if elems == [] {
        return None;
      }
      last := Some(elems[|elems| - 1]);
      elems := elems[..|elems| - 1];
    }
  }

  /** A template-literal rendering of a popped value: `undefined` when there was none. */
  function Show(x: Option<int>): string {
    if x.None? then "undefined" else IntToString(x.value)
  }

  /** Each minute as `String` renders it. */
  function Render(xs: seq<int>): (r: seq<string>)
    ensures |r| == |xs| && forall i :: 0 <= i < |xs| ==> r[i] == IntToString(xs[i])
  {
    seq(|xs|, i requires 0 <= i < |xs| => IntToString(xs[i]))
  }

  /** A list of words as it is meant to be spoken, built from the front: `"2"`, `"2 and 4"`,
      `"2, 4, 5 and 6"`. */
  function Spoken(ws: seq<string>): string
    requires ws != []
    decreases |ws|
  {
    if |ws| == 1 then ws[0]
    else if |ws| == 2 then ws[0] + (" and " + ws[1])
    else ws[0] + (", " + Spoken(ws[1..]))
  }

  /** The minutes as `formatMins` is meant to speak them; an empty list speaks as
      `"undefined"`. */
  function SpokenList(xs: seq<int>): string {
    if xs == [] then "undefined" else Spoken(Render(xs))
  }

  /** `join(', ')` peels off its first element as well as its last. */
  lemma {:induction false} JoinFirst(a: string, ys: seq<string>)
    requires ys != []
    ensures Join([a] + ys, ", ") == a + (", " + Join(ys, ", "))
    decreases |ys|
  {
    var xs := [a] + ys;
    if |ys| == 1 {
      assert xs[..1] == [a];
    } else {
      var front := ys[..|ys| - 1];
      assert xs[..|xs| - 1] == [a] + front;
      assert xs[|xs| - 1] == ys[|ys| - 1];
      JoinFirst(a, front);
      assert Join(ys, ", ") == Join(front, ", ") + ", " + ys[|ys| - 1];
    }
  }

  /** The back-to-front construction of `formatMins` gives the spoken list. */
  lemma {:induction false} JoinSpoken(ws: seq<string>, w: string)
    requires ws != []
    ensures Join(ws, ", ") + " and " + w == Spoken(ws + [w])
    decreases |ws|
  {
    var all := ws + [w];
    if |ws| == 1 {
      assert all[0] == ws[0] && all[1] == w;
    } else {
      var rest := ws[1..];
      var j := Join(rest, ", ");
      assert ws == [ws[0]] + rest;
      JoinFirst(ws[0], rest);
      JoinSpoken(rest, w);
      assert all[1..] == rest + [w];
      assert all[0] == ws[0];
      calc {
        Join(ws, ", ") + " and " + w;
        (ws[0] + (", " + j)) + " and " + w;
        ws[0] + (", " + (j + " and " + w));
        ws[0] + (", " + Spoken(rest + [w]));
      }
    }
  }

  /** What `formatMins` says once the last minute `v` has been popped from `xs + [v]`. */
  lemma SpokenAfterPop(xs: seq<int>, v: int)
    ensures xs == [] ==> Show(Some(v)) == SpokenList(xs + [v])
    ensures xs != [] ==> Join(Render(xs), ", ") + " and " + Show(Some(v)) == SpokenList(xs + [v])
  {
    if xs == [] {
      assert Render([v]) == [IntToString(v)];
    } else {
      JoinSpoken(Render(xs), IntToString(v));
      assert Render(xs + [v]) == Render(xs) + [IntToString(v)];
    }
  }

  /** `formatMins(mins)`: the spoken list of the minutes, which also removes the last minute from
      the caller's array. */
  method FormatMins(mins: MinuteArray) returns (s: string)
    modifies mins
    ensures s == SpokenList(old(mins.elems))
    ensures mins.elems == if old(mins.elems) == [] then [] else old(mins.elems)[..|old(mins.elems)| - 1]
  {
    var last := mins.Pop();
    if last.Some? {
      SpokenAfterPop(mins.elems, last.value);
      assert old(mins.elems) == mins.elems + [last.value];
    }
    if |mins.elems| == 0 {
      return Show(last);
    }
    s := Join(Render(mins.elems), ", ") + " and " + Show(last);
  }

  /** The spoken list of one minute is that minute, and of two is `"a and b"`. */
  lemma SpokenShort(a: int, b: int)
    ensures SpokenList([a]) == IntToString(a)
    ensures SpokenList([a, b]) == IntToString(a) + " and " + IntToString(b)
  {
    assert Render([a]) == [IntToString(a)];
    assert Render([a, b]) == [IntToString(a), IntToString(b)];
  }

  // ---------------------------------------------------------------------------------------
  // The filtering inside `fetchData`.

  /** One prediction: the id of its route and its `direction_id`. */
  datatype Prediction = Prediction(routeId: string, directionId: nat)

  /** `rawPred.data.filter(ea => ea.relationships.route.data.id === route.toString())`. */
  function RouteData(preds: seq<Prediction>): (r: seq<Prediction>)
    ensures |r| <= |preds|
    ensures forall p :: p in r <==> p in preds && p.routeId == Route
  {
    if preds == [] then []
    else (if preds[0].routeId == Route then [preds[0]] else []) + RouteData(preds[1..])
  }

  /** The filter keeps the predictions' order: filtering `a + b` is filtering `a`, then `b`. */
  lemma {:induction false} RouteDataConcat(a: seq<Prediction>, b: seq<Prediction>)
    ensures RouteData(a + b) == RouteData(a) + RouteData(b)
  {
    if a == [] {
      assert a + b == b;
    } else {
      assert (a + b)[0] == a[0];
      assert (a + b)[1..] == a[1..] + b;
      RouteDataConcat(a[1..], b);
    }
  }

  /** `min >= 1 && min < 60`. */
  predicate Upcoming(m: int) {
    1 <= m < 60
  }

  /** The departures in the next hour, in order. */
  function UpcomingMins(departures: seq<int>): (r: seq<int>)
    ensures |r| <= |departures|
    ensures forall m :: m in r <==> m in departures && Upcoming(m)
  {
    if departures == [] then []
    else (if Upcoming(departures[0]) then [departures[0]] else []) + UpcomingMins(departures[1..])
  }

  /** `departMins`: the first `PREDICTIONS_LIMIT` upcoming departures. */
  function DepartMins(departures: seq<int>): (r: seq<int>)
    ensures |r| <= PredictionsLimit
    ensures forall i :: 0 <= i < |r| ==> Upcoming(r[i])
    ensures |r| == if |UpcomingMins(departures)| < PredictionsLimit then |UpcomingMins(departures)| else PredictionsLimit
    ensures r == UpcomingMins(departures)[..|r|]
  {
    var u := UpcomingMins(departures);
    if |u| <= PredictionsLimit then u else u[..PredictionsLimit]
  }

  /** `mins >= waitStart && mins <= waitStart + waitLength`: a bus close enough to walk to. */
  predicate Walkable(m: int) {
    WaitStart <= m <= WaitStart + WaitLength
  }

  /** `departMins.some(...)`. */
  function IsWalkable(departMins: seq<int>): (b: bool)
    ensures b <==> exists i :: 0 <= i < |departMins| && 3 <= departMins[i] <= 9
  {
    if departMins == [] then false
    else if Walkable(departMins[0]) then true
    else
      var rest := IsWalkable(departMins[1..]);
      assert forall i :: 1 <= i < |departMins| ==> departMins[i] == departMins[1..][i - 1];
      rest
  }

  /** The route's `direction_destinations` and `direction_names`. */
  datatype RouteAttrs = RouteAttrs(destinations: seq<string>, names: seq<string>)

  /** `routeData.length > 0 && routeData[0].attributes.direction_id`: `None` stands for the
      `false` of an empty filter result, which indexes nothing. */
  function DirectionIdx(routeData: seq<Prediction>): Option<nat> {
    if |routeData| > 0 then Some(routeData[0].directionId) else None
  }

  /** Element `i` of a string array, where a missing element and `''` are both falsy. */
  function Truthy(xs: seq<string>, idx: Option<nat>): Option<string> {
    if idx.Some? && idx.value < |xs| && xs[idx.value] != "" then Some(xs[idx.value]) else None
  }

  /** `dirDestinations[directionIdx] || dirNames[directionIdx] || ''`. */
  function Direction(attrs: RouteAttrs, idx: Option<nat>): (d: string)
    ensures Truthy(attrs.destinations, idx).Some? ==> d == Truthy(attrs.destinations, idx).value
    ensures Truthy(attrs.destinations, idx).None? && Truthy(attrs.names, idx).Some? ==>
      d == Truthy(attrs.names, idx).value
    ensures Truthy(attrs.destinations, idx).None? && Truthy(attrs.names, idx).None? ==> d == ""
  {
    match Truthy(attrs.destinations, idx)
    case Some(destination) => destination
    case None =>
      match Truthy(attrs.names, idx)
      case Some(name) => name
      case None => ""
  }

  /** The direction is a destination or a name of the direction the first prediction of the
      route takes, or `''`; with no prediction for the route it is always `''`. */
  lemma DirectionChoices(attrs: RouteAttrs, preds: seq<Prediction>)
    ensures var idx := DirectionIdx(RouteData(preds));
      var d := Direction(attrs, idx);
      d == "" || (idx.Some? && ((idx.value < |attrs.destinations| && d == attrs.destinations[idx.value])
                               || (idx.value < |attrs.names| && d == attrs.names[idx.value])))
    ensures (forall p :: p in preds ==> p.routeId != Route) ==> Direction(attrs, DirectionIdx(RouteData(preds))) == ""
  {
    if forall p :: p in preds ==> p.routeId != Route {
      if RouteData(preds) != [] {
        assert RouteData(preds)[0] in RouteData(preds);
      }
    }
  }

  /** What `selectIncluded` finds in the response, and the route's predictions. */
  datatype RawPredictions = RawPredictions(data: seq<Prediction>, stopNames: seq<string>, routes: seq<RouteAttrs>)

  /** The record `fetchData` resolves to. `NoStopInfo` is the early return without `departMins`;
      vehicle coordinates, colours and the debugging fields are not modelled. */
  datatype BusData =
    | FetchFailed(message: string)
    | NoStopInfo(direction: string)
    | BusInfo(stopName: string, direction: string, isWalkable: bool, departMins: seq<int>)

  /** `fetchData` once `fetchPredictions` has answered: `raw` is `None` when it answered nothing,
      and `departures` is what `selectDepartures` makes of the route's predictions, in minutes. */
  function FetchData(raw: Option<RawPredictions>, departures: seq<int>): (r: BusData)
    ensures raw.None? <==> r == FetchFailed("No predictions")
    ensures raw.Some? && (raw.value.stopNames == [] || raw.value.routes == []) <==> r == NoStopInfo("")
    ensures r.BusInfo? ==> r.stopName == raw.value.stopNames[0]
    ensures r.BusInfo? ==> r.departMins == DepartMins(departures) && r.isWalkable == IsWalkable(r.departMins)
    ensures r.BusInfo? ==> r.direction == Direction(raw.value.routes[0], DirectionIdx(RouteData(raw.value.data)))
  {
    match raw
    case None => FetchFailed("No predictions")
    case Some(p) =>
      if p.stopNames == [] || p.routes == [] then NoStopInfo("")
      else
        var departMins := DepartMins(departures);
        BusInfo(p.stopNames[0], Direction(p.routes[0], DirectionIdx(RouteData(p.data))), IsWalkable(departMins), departMins)
  }

  /** `getNextBus`: the fixed apology on a failed fetch, and otherwise the spoken minutes, shown
      as a map. The early return has no `departMins`, so `formatMins(undefined)` throws. */
  method GetNextBus(data: BusData) returns (r: Result<Response, JsError>)
    ensures data.FetchFailed? ==> r == Ok(Response(TroubleMessage, None, false))
    ensures data.NoStopInfo? ==> r == Err(TypeError)
    ensures data.BusInfo? ==> r == Ok(Response(SpokenList(data.departMins) + " mins", Some("map"), false))
  {
    match data
    case FetchFailed(_) =>
      r := Ok(Response(TroubleMessage, None, false));
    case NoStopInfo(_) =>
      r := Err(TypeError);
    case BusInfo(_, _, _, departMins) =>
      var mins := new MinuteArray(departMins);
      var spoken := FormatMins(mins);
      r := Ok(Response(spoken + " mins", Some("map"), false));
  }

  /** Every bus reply names at most four departures, all within the next hour, and says
      `"undefined mins"` when there is none. */
  lemma BusReplyBounds(raw: RawPredictions, departures: seq<int>)
    ensures FetchData(Some(raw), departures).BusInfo? ==>
      var d := FetchData(Some(raw), departures).departMins;
      |d| <= 4 && (forall i :: 0 <= i < |d| ==> 1 <= d[i] < 60)
    ensures (forall m :: m in departures ==> !Upcoming(m)) ==> DepartMins(departures) == []
  {
    if forall m :: m in departures ==> !Upcoming(m) {
      if UpcomingMins(departures) != [] {
        assert UpcomingMins(departures)[0] in UpcomingMins(departures);
      }
    }
  }

  // ---------------------------------------------------------------------------------------
  // `MBTA_REGEX`.

  /** `(when is|when's|how long until) `: what follows. */
  function AfterOpener(t: string): Option<string> {
    if HasPrefixCI(t, "when is ") then Some(t[8..])
    else if HasPrefixCI(t, "when's ") then Some(t[7..])
    else if HasPrefixCI(t, "how long until ") then Some(t[15..])
    else None
  }

  /** `(my|the) `: what follows. */
  function AfterOwner(u: string): Option<string> {
    if HasPrefixCI(u, "my ") then Some(u[3..])
    else if HasPrefixCI(u, "the ") then Some(u[4..])
    else None
  }

  /** `(next )?bus`: `next ` is taken when present; without it `bus` would have to start where
      `next` does, which cannot be. The trailing `( coming| comes)?` never makes a test fail. */
  predicate BusWord(v: string) {
    HasPrefixCI(v, "next bus") || HasPrefixCI(v, "bus")
  }

  /** `MBTA_REGEX.test`. */
  predicate Matches(t: string) {
    match AfterOpener(t)
    case None => false
    case Some(u) =>
      match AfterOwner(u)
      case None => false
      case Some(v) => BusWord(v)
  }

  datatype Opener = WhenIs | WhenS | HowLongUntil

  function OpenerText(o: Opener): string {
    match o
    case WhenIs => "when is "
    case WhenS => "when's "
    case HowLongUntil => "how long until "
  }

  /** A bus question as spoken, followed by anything. */
  function Phrase(o: Opener, my: bool, next: bool, rest: string): string {
    OpenerText(o) + ((if my then "my " else "the ") + ((if next then "next " else "") + ("bus" + rest)))
  }

  lemma OpenerParses(o: Opener, rest: string)
    ensures AfterOpener(OpenerText(o) + rest) == Some(rest)
  {
    var t := OpenerText(o) + rest;
    PrefixCIOfConcat(OpenerText(o), rest);
    if o == WhenS {
      assert Lower(t[4]) != Lower("when is "[4]);
    }
    if o == HowLongUntil {
      assert Lower(t[0]) != Lower("when is "[0]);
      assert Lower(t[0]) != Lower("when's "[0]);
    }
  }

  lemma OwnerParses(my: bool, rest: string)
    ensures AfterOwner((if my then "my " else "the ") + rest) == Some(rest)
  {
    var w := if my then "my " else "the ";
    var u := w + rest;
    PrefixCIOfConcat(w, rest);
    if !my {
      assert Lower(u[0]) != Lower("my "[0]);
    }
  }

  lemma BusParses(next: bool, rest: string)
    ensures BusWord((if next then "next " else "") + ("bus" + rest))
  {
    if next {
      assert "next " + ("bus" + rest) == "next bus" + rest;
      PrefixCIOfConcat("next bus", rest);
    } else {
      PrefixCIOfConcat("bus", rest);
    }
  }

  /** Every spoken bus question is recognised, with or without `next`, whatever follows. */
  lemma PhraseMatches(o: Opener, my: bool, next: bool, rest: string)
    ensures Matches(Phrase(o, my, next, rest))
  {
    var v := (if next then "next " else "") + ("bus" + rest);
    var u := (if my then "my " else "the ") + v;
    OpenerParses(o, u);
    OwnerParses(my, v);
    BusParses(next, rest);
  }

  lemma AfterOpenerLower(t: string)
    ensures AfterOpener(LowerStr(t)).Some? == AfterOpener(t).Some?
    ensures AfterOpener(t).Some? ==> AfterOpener(LowerStr(t)) == Some(LowerStr(AfterOpener(t).value))
  {
    HasPrefixCILower(t, "when is ");
    HasPrefixCILower(t, "when's ");
    HasPrefixCILower(t, "how long until ");
    if AfterOpener(t).Some? {
      var n := if HasPrefixCI(t, "when is ") then 8 else if HasPrefixCI(t, "when's ") then 7 else 15;
      LowerStrSlice(t, n, |t|);
      assert LowerStr(t)[n..] == LowerStr(t[n..]);
    }
  }

  lemma AfterOwnerLower(u: string)
    ensures AfterOwner(LowerStr(u)).Some? == AfterOwner(u).Some?
    ensures AfterOwner(u).Some? ==> AfterOwner(LowerStr(u)) == Some(LowerStr(AfterOwner(u).value))
  {
    HasPrefixCILower(u, "my ");
    HasPrefixCILower(u, "the ");
    if AfterOwner(u).Some? {
      var n := if HasPrefixCI(u, "my ") then 3 else 4;
      LowerStrSlice(u, n, |u|);
      assert LowerStr(u)[n..] == LowerStr(u[n..]);
    }
  }

  /** The recogniser ignores case. */
  lemma MatchesIgnoresCase(t: string)
    ensures Matches(LowerStr(t)) == Matches(t)
  {
    AfterOpenerLower(t);
    if AfterOpener(t).Some? {
      var u := AfterOpener(t).value;
      AfterOwnerLower(u);
      if AfterOwner(u).Some? {
        var v := AfterOwner(u).value;
        HasPrefixCILower(v, "next bus");
        HasPrefixCILower(v, "bus");
      }
    }
  }
}
