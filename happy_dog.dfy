/** The dog-care intent: `DOG_REGEX`
      /^i (just )?((fed|gave|said) (olive|all of)\s*(her )?(itch )?(food|medicine|meds|medication)?)$/i
    as a recogniser, and `parseHappyDog`, which tells a feeding from a medication. */
module HappyDog {
  import opened Wrappers
  import opened Text

  datatype Feeding = Feed | Med

  /** `i `: what follows it. */
  function MatchI(t: string): Option<string> {
    if HasPrefixCI(t, "i ") then Some(t[2..]) else None
  }

  /** An optional word and its space, such as `(just )?`. Each optional word of the pattern is
      followed by something that cannot start with it, so the greedy choice is the only one that
      can lead to a match. */
  function SkipOptional(u: string, word: string): string {
    if HasPrefixCI(u, word) then u[|word|..] else u
  }

  /** `(fed|gave|said) `. */
  function MatchVerb(u: string): Option<string> {
    if HasPrefixCI(u, "fed ") then Some(u[4..])
    else if HasPrefixCI(u, "gave ") then Some(u[5..])
    else if HasPrefixCI(u, "said ") then Some(u[5..])
    else None
  }

  /** `(olive|all of)`. */
  function MatchObject(u: string): Option<string> {
    if HasPrefixCI(u, "olive") then Some(u[5..])
    else if HasPrefixCI(u, "all of") then Some(u[6..])
    else None
  }

  /** `s` equals `w` up to case. */
  predicate EqualsCI(s: string, w: string) {
    |s| == |w| && HasPrefixCI(s, w)
  }

  /** `(food|medicine|meds|medication)?$`: the rest is empty or exactly one of the words. */
  predicate FinalWord(u: string) {
    u == [] || EqualsCI(u, "food") || EqualsCI(u, "medicine") || EqualsCI(u, "meds")
    || EqualsCI(u, "medication")
  }

  /** What is left after `\s*(her )?(itch )?`. */
  function AfterObject(v: string): string {
    SkipOptional(SkipOptional(SkipSpaces(v), "her "), "itch ")
  }

  /** `DOG_REGEX.test`: the pattern is anchored at both ends, so the whole transcript must be a
      dog-care phrase. */
  predicate DogMatches(t: string) {
    && MatchI(t).Some?
    && MatchVerb(SkipOptional(MatchI(t).value, "just ")).Some?
    && MatchObject(MatchVerb(SkipOptional(MatchI(t).value, "just ")).value).Some?
    && FinalWord(AfterObject(MatchObject(MatchVerb(SkipOptional(MatchI(t).value, "just ")).value).value))
  }

  /** `med.find((word) => transcript.includes(word))` over `['meds', 'medicine', 'medication']`:
      a case-sensitive substring test. */
  predicate MentionsMed(t: string) {
    Contains(t, "meds") || Contains(t, "medicine") || Contains(t, "medication")
  }

  /** `parseHappyDog`: `None` stands for the `{}` of a transcript that does not match. */
  function ParseHappyDog(transcript: string): Option<Feeding> {
    if !DogMatches(transcript) then None
    else if MentionsMed(transcript) then Some(Med)
    else Some(Feed)
  }

  // ---------------------------------------------------------------------------------------
  // Dog-care phrases as spoken.

  datatype Verb = Fed | Gave | Said
  datatype Object = Olive | AllOf
  datatype Food = FoodWord | Medicine | Meds | Medication

  datatype DogPhrase = DogPhrase(just: bool, verb: Verb, target: Object, her: bool, itch: bool,
                                 food: Option<Food>)

  function VerbWord(v: Verb): string {
    match v
    case Fed => "fed"
    case Gave => "gave"
    case Said => "said"
  }

  function ObjectWord(o: Object): string {
    match o
    case Olive => "olive"
    case AllOf => "all of"
  }

  /** The food word, in lower case or, when `shout` holds, in upper case. */
  function FoodText(f: Food, shout: bool): string {
    match f
    case FoodWord => if shout then "FOOD" else "food"
    case Medicine => if shout then "MEDICINE" else "medicine"
    case Meds => if shout then "MEDS" else "meds"
    case Medication => if shout then "MEDICATION" else "medication"
  }

  predicate IsMedicine(f: Food) {
    f != FoodWord
  }

  function Optional(present: bool, word: string): string {
    if present then word else ""
  }

  function FoodPart(p: DogPhrase, shout: bool): string {
    if p.food.Some? then FoodText(p.food.value, shout) else ""
  }

  function ItchPart(p: DogPhrase, shout: bool): string {
    Optional(p.itch, "itch ") + FoodPart(p, shout)
  }

  function HerPart(p: DogPhrase, shout: bool): string {
    Optional(p.her, "her ") + ItchPart(p, shout)
  }

  /** What follows the object: nothing, or a space, `her `, `itch ` and the food word as chosen. */
  function Ending(p: DogPhrase, shout: bool): string {
    if !p.her && !p.itch && p.food.None? then "" else " " + HerPart(p, shout)
  }

  function Phrase(p: DogPhrase, shout: bool): string {
    "i " + (Optional(p.just, "just ") + (VerbWord(p.verb) + (" " + (ObjectWord(p.target) + Ending(p, shout)))))
  }

  lemma OptionalTaken(present: bool, word: string, rest: string)
    requires word != [] && (!present ==> rest == [] || Lower(rest[0]) != Lower(word[0]))
    ensures SkipOptional(Optional(present, word) + rest, word) == rest
  {
    if present {
      PrefixCIOfConcat(word, rest);
    } else {
      assert Optional(present, word) + rest == rest;
    }
  }

  lemma VerbParses(v: Verb, rest: string)
    ensures MatchVerb(VerbWord(v) + (" " + rest)) == Some(rest)
  {
    var t := VerbWord(v) + (" " + rest);
    assert t == (VerbWord(v) + " ") + rest;
    PrefixCIOfConcat(VerbWord(v) + " ", rest);
    if v != Fed {
      assert Lower(t[0]) != Lower("fed "[0]);
    }
    if v == Said {
      assert Lower(t[0]) != Lower("gave "[0]);
    }
  }

  lemma ObjectParses(o: Object, rest: string)
    ensures MatchObject(ObjectWord(o) + rest) == Some(rest)
  {
    var t := ObjectWord(o) + rest;
    PrefixCIOfConcat(ObjectWord(o), rest);
    if o == AllOf {
      assert Lower(t[0]) != Lower("olive"[0]);
    }
  }

  lemma FoodIsFinal(f: Food, shout: bool)
    ensures FinalWord(FoodText(f, shout))
  {
    var w := FoodText(f, shout);
    match f
    case FoodWord => assert EqualsCI(w, "food");
    case Medicine => assert EqualsCI(w, "medicine");
    case Meds => assert EqualsCI(w, "meds");
    case Medication => assert EqualsCI(w, "medication");
  }

  lemma FoodPartIsFinal(p: DogPhrase, shout: bool)
    ensures FinalWord(FoodPart(p, shout))
  {
    if p.food.Some? {
      FoodIsFinal(p.food.value, shout);
    }
  }

  lemma ItchPartSkips(p: DogPhrase, shout: bool)
    ensures SkipOptional(ItchPart(p, shout), "itch ") == FoodPart(p, shout)
  {
    var food := FoodPart(p, shout);
    assert food == [] || food[0] in "fmFM";
    OptionalTaken(p.itch, "itch ", food);
  }

  lemma HerPartSkips(p: DogPhrase, shout: bool)
    ensures SkipOptional(HerPart(p, shout), "her ") == ItchPart(p, shout)
  {
    var rest := ItchPart(p, shout);
    assert FoodPart(p, shout) == [] || FoodPart(p, shout)[0] in "fmFM";
    assert rest == [] || rest[0] in "ifmFM";
    OptionalTaken(p.her, "her ", rest);
  }

  lemma EndingIsFinal(p: DogPhrase, shout: bool)
    ensures FinalWord(AfterObject(Ending(p, shout)))
  {
    if p.her || p.itch || p.food.Some? {
      var body := HerPart(p, shout);
      assert FoodPart(p, shout) == [] || FoodPart(p, shout)[0] in "fmFM";
      assert body != [] && body[0] in "hifmFM";
      SkipOneSpace(body);
      HerPartSkips(p, shout);
      ItchPartSkips(p, shout);
    }
    FoodPartIsFinal(p, shout);
  }

  /** Every dog-care phrase is accepted, whatever the case of its food word. */
  lemma PhraseMatches(p: DogPhrase, shout: bool)
    ensures DogMatches(Phrase(p, shout))
  {
    var t := Phrase(p, shout);
    var afterI := Optional(p.just, "just ") + (VerbWord(p.verb) + (" " + (ObjectWord(p.target) + Ending(p, shout))));
    PrefixCIOfConcat("i ", afterI);
    OptionalTaken(p.just, "just ", VerbWord(p.verb) + (" " + (ObjectWord(p.target) + Ending(p, shout))));
    VerbParses(p.verb, ObjectWord(p.target) + Ending(p, shout));
    ObjectParses(p.target, Ending(p, shout));
    EndingIsFinal(p, shout);
  }

  /** No spoken word of a phrase contains a lower-case `m`, except a lower-case medicine word. */
  lemma NoLowerMUnlessMedicine(p: DogPhrase, shout: bool)
    requires p.food.None? || !IsMedicine(p.food.value) || shout
    ensures 'm' !in Phrase(p, shout)
  {
    assert 'm' !in FoodPart(p, shout);
    assert 'm' !in ItchPart(p, shout);
    assert 'm' !in HerPart(p, shout);
    assert 'm' !in Ending(p, shout);
    assert 'm' !in ObjectWord(p.target) && 'm' !in VerbWord(p.verb);
  }

  predicate EndsWith(s: string, w: string) {
    |w| <= |s| && s[|s| - |w|..] == w
  }

  lemma EndsWithPrefixed(a: string, b: string, w: string)
    requires EndsWith(b, w)
    ensures EndsWith(a + b, w)
  {
    assert (a + b)[|a + b| - |w|..] == b[|b| - |w|..];
  }

  lemma PhraseEndsWithFood(p: DogPhrase, shout: bool)
    requires p.food.Some?
    ensures EndsWith(Phrase(p, shout), FoodPart(p, shout))
  {
    var f := FoodPart(p, shout);
    assert EndsWith(f, f);
    EndsWithPrefixed(Optional(p.itch, "itch "), f, f);
    EndsWithPrefixed(Optional(p.her, "her "), ItchPart(p, shout), f);
    EndsWithPrefixed(" ", HerPart(p, shout), f);
    EndsWithPrefixed(ObjectWord(p.target), Ending(p, shout), f);
    EndsWithPrefixed(" ", ObjectWord(p.target) + Ending(p, shout), f);
    EndsWithPrefixed(VerbWord(p.verb), " " + (ObjectWord(p.target) + Ending(p, shout)), f);
    EndsWithPrefixed(Optional(p.just, "just "), VerbWord(p.verb) + (" " + (ObjectWord(p.target) + Ending(p, shout))), f);
    EndsWithPrefixed("i ", Optional(p.just, "just ") + (VerbWord(p.verb) + (" " + (ObjectWord(p.target) + Ending(p, shout)))), f);
  }

  lemma MedWordOccurs(p: DogPhrase)
    requires p.food.Some? && IsMedicine(p.food.value)
    ensures MentionsMed(Phrase(p, false))
  {
    var t := Phrase(p, false);
    var w := FoodPart(p, false);
    PhraseEndsWithFood(p, false);
    assert OccursAt(t, w, |t| - |w|);
    assert w == "meds" || w == "medicine" || w == "medication";
  }

  /** Round trip: a spoken dog-care phrase is accepted, and classified as a medication exactly
      when it names a medicine in lower case. A medicine named in upper case (`"MEDS"`) still
      classifies as a feeding, because the medicine test is case-sensitive while the pattern is
      not. */
  lemma ClassifyPhrase(p: DogPhrase, shout: bool)
    ensures ParseHappyDog(Phrase(p, shout))
            == Some(if !shout && p.food.Some? && IsMedicine(p.food.value) then Med else Feed)
  {
    PhraseMatches(p, shout);
    if !shout && p.food.Some? && IsMedicine(p.food.value) {
      MedWordOccurs(p);
    } else {
      NoLowerMUnlessMedicine(p, shout);
      NotContainsWithoutFirstChar(Phrase(p, shout), "meds");
      NotContainsWithoutFirstChar(Phrase(p, shout), "medicine");
      NotContainsWithoutFirstChar(Phrase(p, shout), "medication");
    }
  }

  // ---------------------------------------------------------------------------------------
  // Case-insensitivity of the pattern.

  lemma SkipOptionalLower(u: string, word: string)
    ensures SkipOptional(LowerStr(u), word) == LowerStr(SkipOptional(u, word))
  {
    HasPrefixCILower(u, word);
    if HasPrefixCI(u, word) {
      LowerStrSlice(u, |word|, |u|);
      assert LowerStr(u)[|word|..] == LowerStr(u[|word|..]);
    }
  }

  lemma MatchILower(t: string)
    ensures MatchI(LowerStr(t)) == (if MatchI(t).Some? then Some(LowerStr(MatchI(t).value)) else None)
  {
    HasPrefixCILower(t, "i ");
    if HasPrefixCI(t, "i ") {
      LowerStrSlice(t, 2, |t|);
      assert LowerStr(t)[2..] == LowerStr(t[2..]);
    }
  }

  lemma MatchVerbLower(u: string)
    ensures MatchVerb(LowerStr(u)) == (if MatchVerb(u).Some? then Some(LowerStr(MatchVerb(u).value)) else None)
  {
    HasPrefixCILower(u, "fed ");
    HasPrefixCILower(u, "gave ");
    HasPrefixCILower(u, "said ");
    if MatchVerb(u).Some? {
      var n := if HasPrefixCI(u, "fed ") then 4 else 5;
      LowerStrSlice(u, n, |u|);
      assert LowerStr(u)[n..] == LowerStr(u[n..]);
    }
  }

  lemma MatchObjectLower(u: string)
    ensures MatchObject(LowerStr(u)) == (if MatchObject(u).Some? then Some(LowerStr(MatchObject(u).value)) else None)
  {
    HasPrefixCILower(u, "olive");
    HasPrefixCILower(u, "all of");
    if MatchObject(u).Some? {
      var n := if HasPrefixCI(u, "olive") then 5 else 6;
      LowerStrSlice(u, n, |u|);
      assert LowerStr(u)[n..] == LowerStr(u[n..]);
    }
  }

  lemma FinalWordLower(u: string)
    ensures FinalWord(LowerStr(u)) == FinalWord(u)
  {
    HasPrefixCILower(u, "food");
    HasPrefixCILower(u, "medicine");
    HasPrefixCILower(u, "meds");
    HasPrefixCILower(u, "medication");
  }

  lemma AfterObjectLower(v: string)
    ensures AfterObject(LowerStr(v)) == LowerStr(AfterObject(v))
  {
    SkipSpacesLower(v);
    SkipOptionalLower(SkipSpaces(v), "her ");
    SkipOptionalLower(SkipOptional(SkipSpaces(v), "her "), "itch ");
  }

  /** The pattern ignores case: a transcript matches exactly when its lower-cased form does. */
  lemma DogMatchesIgnoresCase(t: string)
    ensures DogMatches(LowerStr(t)) == DogMatches(t)
  {
    MatchILower(t);
    if MatchI(t).Some? {
      var u := MatchI(t).value;
      SkipOptionalLower(u, "just ");
      MatchVerbLower(SkipOptional(u, "just "));
      if MatchVerb(SkipOptional(u, "just ")).Some? {
        var v := MatchVerb(SkipOptional(u, "just ")).value;
        MatchObjectLower(v);
        if MatchObject(v).Some? {
          AfterObjectLower(MatchObject(v).value);
          FinalWordLower(AfterObject(MatchObject(v).value));
        }
      }
    }
  }
}
