/** `sentenceCase`: the first character upper-cased, the rest as given. */
module Utils {
  import opened Wrappers
  import opened Text

  /** `sentenceCase(str)`. On `''`, `str[0]` is `undefined` and `.toUpperCase()` throws. */
  function SentenceCase(str: string): (r: Result<string, JsError>)
    ensures str == [] <==> r == Err(TypeError)
    ensures r.Ok? ==> |r.value| == |str| && r.value[0] == Upper(str[0]) && r.value[1..] == str[1..]
  {
    if str == [] then Err(TypeError) else Ok([Upper(str[0])] + str[1..])
  }

  /** Applying it twice is applying it once. */
  lemma SentenceCaseIdempotent(str: string)
    requires str != []
    ensures SentenceCase(SentenceCase(str).value) == SentenceCase(str)
  {
  }

  /** It leaves a string alone exactly when its first character is not a lower-case letter. */
  lemma SentenceCaseFixedPoints(str: string)
    requires str != []
    ensures SentenceCase(str) == Ok(str) <==> !('a' <= str[0] <= 'z')
  {
    if 'a' <= str[0] <= 'z' {
      assert SentenceCase(str).value[0] != str[0];
    } else {
      assert SentenceCase(str).value == str;
    }
  }
}
