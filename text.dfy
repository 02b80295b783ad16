/** The JavaScript string primitives the assistant's text logic relies on: the `\s` class (which is
    also what `String.prototype.trim` strips), line terminators (which `.` does not match), the
    `\w` class, ASCII case mapping, `replace(/\s+/g, ' ')`, `includes`, `indexOf`, `substring`,
    `Array.prototype.join` and number-to-string conversion. */
module Text {
  import opened Wrappers

  /** Membership in JavaScript's `\s`: WhiteSpace plus LineTerminator. */
  predicate IsSpace(c: char) {
    c == '\t' || c == '\n' || c == '\U{000B}' || c == '\U{000C}' || c == '\r' || c == ' '
    || c == '\U{00A0}' || c == '\U{1680}' || ('\U{2000}' <= c <= '\U{200A}')
    || c == '\U{2028}' || c == '\U{2029}' || c == '\U{202F}' || c == '\U{205F}'
    || c == '\U{3000}' || c == '\U{FEFF}'
  }

  /** The characters a regular-expression `.` refuses to match. */
  predicate IsLineTerminator(c: char) {
    c == '\n' || c == '\r' || c == '\U{2028}' || c == '\U{2029}'
  }

  /** Membership in `\w` (the same set with or without the `i` flag when `u` is absent). */
  predicate IsWordChar(c: char) {
    ('a' <= c <= 'z') || ('A' <= c <= 'Z') || ('0' <= c <= '9') || c == '_'
  }

  function Lower(c: char): char {
    if 'A' <= c <= 'Z' then (c as int + 32) as char else c
  }

  function Upper(c: char): char {
    if 'a' <= c <= 'z' then (c as int - 32) as char else c
  }

  function LowerStr(s: string): (r: string)
    ensures |r| == |s|
    ensures forall i :: 0 <= i < |s| ==> r[i] == Lower(s[i])
  {
    if s == [] then [] else [Lower(s[0])] + LowerStr(s[1..])
  }

  lemma LowerKeepsClasses(c: char)
    ensures IsSpace(Lower(c)) == IsSpace(c)
    ensures IsLineTerminator(Lower(c)) == IsLineTerminator(c)
    ensures IsWordChar(Lower(c)) == IsWordChar(c)
    ensures Lower(Lower(c)) == Lower(c)
  {
  }

  lemma {:induction false} LowerStrSlice(s: string, a: nat, b: nat)
    requires a <= b <= |s|
    ensures LowerStr(s)[a..b] == LowerStr(s[a..b])
  {
    var l := LowerStr(s[a..b]);
    assert forall i :: 0 <= i < b - a ==> l[i] == Lower(s[a + i]);
  }

  lemma {:induction false} LowerStrDrop(s: string, e: nat)
    requires e <= |s|
    ensures LowerStr(s)[e..] == LowerStr(s[e..])
  {
    var l := LowerStr(s[e..]);
    assert forall i :: 0 <= i < |s| - e ==> l[i] == Lower(s[e + i]);
  }

  lemma LowerStrConcat(s: string, t: string)
    ensures LowerStr(s + t) == LowerStr(s) + LowerStr(t)
  {
  }

  lemma LowerStrIdempotent(s: string)
    ensures LowerStr(LowerStr(s)) == LowerStr(s)
  {
    forall i | 0 <= i < |s| {
      LowerKeepsClasses(s[i]);
    }
  }

  predicate NoLineTerminator(s: string) {
    forall i :: 0 <= i < |s| ==> !IsLineTerminator(s[i])
  }

  /** `w` occurs at the start of `s` under the `i` flag: both sides are case-folded. */
  predicate HasPrefixCI(s: string, w: string) {
    |w| <= |s| && forall i :: 0 <= i < |w| ==> Lower(s[i]) == Lower(w[i])
  }

  predicate HasPrefix(s: string, w: string) {
    |w| <= |s| && s[..|w|] == w
  }

  lemma PrefixCIOfConcat(w: string, rest: string)
    ensures HasPrefixCI(w + rest, w)
    ensures (w + rest)[|w|..] == rest
  {
  }

  /** Drops the leading run of `\s`: what a greedy `\s*` consumes. */
  function SkipSpaces(s: string): (r: string)
    ensures |r| <= |s| && r == s[|s| - |r|..]
    ensures r == [] || !IsSpace(r[0])
    ensures forall i :: 0 <= i < |s| - |r| ==> IsSpace(s[i])
  {
    if s != [] && IsSpace(s[0]) then
      var r := SkipSpaces(s[1..]);
      assert forall i :: 1 <= i < |s| - |r| ==> s[i] == s[1..][i - 1];
      r
    else s
  }

  lemma SkipOneSpace(w: string)
    requires w != [] && !IsSpace(w[0])
    ensures SkipSpaces(" " + w) == w
  {
    assert (" " + w)[1..] == w;
  }

  function TrimEnd(s: string): (r: string)
    ensures |r| <= |s| && r == s[..|r|]
    ensures r == [] || !IsSpace(r[|r| - 1])
    ensures forall i :: |r| <= i < |s| ==> IsSpace(s[i])
  {
    if s != [] && IsSpace(s[|s| - 1]) then
      var r := TrimEnd(s[..|s| - 1]);
      assert forall i :: |r| <= i < |s| - 1 ==> s[i] == s[..|s| - 1][i];
      r
    else s
  }

  /** `String.prototype.trim`. */
  function Trim(s: string): (r: string)
    ensures r == [] || (!IsSpace(r[0]) && !IsSpace(r[|r| - 1]))
    ensures |r| <= |s|
  {
    SkipSpaces(TrimEnd(s))
  }

  predicate Trimmed(s: string) {
    s == [] || (!IsSpace(s[0]) && !IsSpace(s[|s| - 1]))
  }

  lemma TrimOfTrimmed(s: string)
    requires Trimmed(s)
    ensures Trim(s) == s
  {
  }

  lemma {:induction false} SkipSpacesLower(s: string)
    ensures SkipSpaces(LowerStr(s)) == LowerStr(SkipSpaces(s))
  {
    if s != [] {
      var l := LowerStr(s);
      LowerKeepsClasses(s[0]);
      assert l[0] == Lower(s[0]);
      if IsSpace(s[0]) {
        LowerStrSlice(s, 1, |s|);
        assert SkipSpaces(l) == SkipSpaces(l[1..]);
        assert SkipSpaces(s) == SkipSpaces(s[1..]);
        SkipSpacesLower(s[1..]);
      }
    }
  }

  lemma {:induction false} TrimEndLower(s: string)
    ensures TrimEnd(LowerStr(s)) == LowerStr(TrimEnd(s))
  {
    if s != [] {
      var l := LowerStr(s);
      var n := |s| - 1;
      LowerKeepsClasses(s[n]);
      assert l[n] == Lower(s[n]);
      if IsSpace(s[n]) {
        LowerStrSlice(s, 0, n);
        assert TrimEnd(l) == TrimEnd(l[..n]);
        assert TrimEnd(s) == TrimEnd(s[..n]);
        TrimEndLower(s[..n]);
      }
    }
  }

  lemma TrimLower(s: string)
    ensures Trim(LowerStr(s)) == LowerStr(Trim(s))
  {
    TrimEndLower(s);
    SkipSpacesLower(TrimEnd(s));
  }

  lemma NoLineTerminatorLower(s: string)
    ensures NoLineTerminator(LowerStr(s)) == NoLineTerminator(s)
  {
    forall i | 0 <= i < |s| {
      LowerKeepsClasses(s[i]);
    }
  }

  lemma NoLineTerminatorConcat(s: string, t: string)
    requires NoLineTerminator(s) && NoLineTerminator(t)
    ensures NoLineTerminator(s + t)
  {
    forall i | 0 <= i < |s + t|
      ensures !IsLineTerminator((s + t)[i])
    {
      if i >= |s| {
        assert (s + t)[i] == t[i - |s|];
      }
    }
  }

  lemma HasPrefixCILower(s: string, w: string)
    ensures HasPrefixCI(LowerStr(s), w) == HasPrefixCI(s, w)
  {
    forall i | 0 <= i < |s| {
      LowerKeepsClasses(s[i]);
    }
  }

  /** Lower-casing keeps a case-insensitive prefix, and what follows it is lower-cased too. */
  lemma LowerAfterPrefix(s: string, w: string)
    ensures HasPrefixCI(LowerStr(s), w) == HasPrefixCI(s, w)
    ensures HasPrefixCI(s, w) ==> LowerStr(s)[|w|..] == LowerStr(s[|w|..])
  {
    HasPrefixCILower(s, w);
    if HasPrefixCI(s, w) {
      LowerStrSlice(s, |w|, |s|);
    }
  }

  /** A greedy `\w+` or `\w*`: the leading run of word characters. */
  function TakeWord(s: string): (r: string)
    ensures |r| <= |s| && r == s[..|r|]
    ensures forall i :: 0 <= i < |r| ==> IsWordChar(r[i])
    ensures |r| < |s| ==> !IsWordChar(s[|r|])
  {
    if s == [] || !IsWordChar(s[0]) then [] else [s[0]] + TakeWord(s[1..])
  }

  /** A non-empty run of word characters. */
  predicate IsWord(value: string) {
    value != [] && forall i :: 0 <= i < |value| ==> IsWordChar(value[i])
  }

  lemma TakeWholeWord(value: string, rest: string)
    requires IsWord(value)
    requires rest == [] || !IsWordChar(rest[0])
    ensures TakeWord(value + rest) == value
  {
    assert (value + rest)[..|value|] == value;
  }

  /** Lower-casing does not move the end of a word: the run of the lower-cased text is the
      lower-cased run. */
  lemma {:induction false} TakeWordLower(s: string)
    ensures TakeWord(LowerStr(s)) == LowerStr(TakeWord(s))
  {
    if s != [] {
      LowerKeepsClasses(s[0]);
      assert LowerStr(s)[1..] == LowerStr(s[1..]);
      TakeWordLower(s[1..]);
    }
  }

  /** `replace(/\s+/g, ' ')`: every maximal run of `\s` becomes one space. */
  function Collapse(s: string): (r: string)
    ensures r == [] <==> s == []
    ensures s != [] && !IsSpace(s[0]) ==> r[0] == s[0]
    ensures s != [] && IsSpace(s[0]) ==> r[0] == ' '
    ensures forall i :: 0 <= i < |r| && IsSpace(r[i]) ==> r[i] == ' '
    ensures forall i :: 0 <= i < |r| - 1 && r[i] == ' ' ==> r[i + 1] != ' '
    decreases |s|
  {
    if s == [] then []
    else if IsSpace(s[0]) then [' '] + Collapse(SkipSpaces(s))
    else [s[0]] + Collapse(s[1..])
  }

  /** Lower-casing commutes with collapsing whitespace. */
  lemma {:induction false} CollapseLower(s: string)
    ensures Collapse(LowerStr(s)) == LowerStr(Collapse(s))
    decreases |s|
  {
    if s != [] {
      var l := LowerStr(s);
      LowerKeepsClasses(s[0]);
      assert l[0] == Lower(s[0]);
      if IsSpace(s[0]) {
        SkipSpacesLower(s);
        CollapseLower(SkipSpaces(s));
        LowerStrConcat([' '], Collapse(SkipSpaces(s)));
      } else {
        LowerStrSlice(s, 1, |s|);
        assert l[1..] == LowerStr(s[1..]);
        CollapseLower(s[1..]);
        LowerStrConcat([s[0]], Collapse(s[1..]));
      }
    }
  }

  /** Every `\s` character is a plain space and no two are adjacent: what `Collapse` produces. */
  predicate SingleSpaced(s: string) {
    forall i :: 0 <= i < |s| && IsSpace(s[i]) ==> s[i] == ' ' && (i + 1 < |s| ==> !IsSpace(s[i + 1]))
  }

  lemma SingleSpacedTail(s: string)
    requires s != [] && SingleSpaced(s)
    ensures SingleSpaced(s[1..])
    ensures IsSpace(s[0]) ==> s[0] == ' ' && SkipSpaces(s) == s[1..]
  {
    forall i | 0 <= i < |s[1..]| && IsSpace(s[1..][i])
      ensures s[1..][i] == ' ' && (i + 1 < |s[1..]| ==> !IsSpace(s[1..][i + 1]))
    {
      assert s[1..][i] == s[i + 1];
    }
    if IsSpace(s[0]) && |s| > 1 {
      assert !IsSpace(s[1]);
      assert SkipSpaces(s[1..]) == s[1..];
    }
  }

  /** On a single-spaced text `Collapse` keeps the first character and goes on with the rest. */
  lemma CollapseStep(s: string)
    requires s != [] && SingleSpaced(s)
    ensures SingleSpaced(s[1..])
    ensures Collapse(s) == [s[0]] + Collapse(s[1..])
  {
    SingleSpacedTail(s);
  }

  lemma {:induction false} CollapseSingleSpaced(s: string)
    requires SingleSpaced(s)
    ensures Collapse(s) == s
    decreases |s|
  {
    if s != [] {
      CollapseStep(s);
      CollapseSingleSpaced(s[1..]);
      HeadThenRest(s);
    }
  }

  lemma HeadThenRest(s: string)
    requires s != []
    ensures [s[0]] + s[1..] == s
  {
  }

  lemma CollapseIsSingleSpaced(s: string)
    ensures SingleSpaced(Collapse(s))
  {
    var r := Collapse(s);
    forall i | 0 <= i < |r| && IsSpace(r[i]) && i + 1 < |r|
      ensures !IsSpace(r[i + 1])
    {
      assert r[i] == ' ';
    }
  }

  /** `Collapse` keeps a last character that is not a space. */
  lemma {:induction false} CollapseKeepsLast(s: string)
    requires s != [] && !IsSpace(s[|s| - 1])
    ensures Collapse(s) != [] && !IsSpace(Collapse(s)[|Collapse(s)| - 1])
    decreases |s|
  {
    if IsSpace(s[0]) {
      var rest := SkipSpaces(s);
      assert rest != [];
      assert rest[|rest| - 1] == s[|s| - 1];
      CollapseKeepsLast(rest);
    } else if |s| > 1 {
      assert s[1..][|s[1..]| - 1] == s[|s| - 1];
      CollapseKeepsLast(s[1..]);
    }
  }

  lemma SingleSpacedConcat(a: string, b: string)
    requires SingleSpaced(a) && SingleSpaced(b)
    requires a == [] || b == [] || !IsSpace(a[|a| - 1]) || !IsSpace(b[0])
    ensures SingleSpaced(a + b)
  {
    var s := a + b;
    forall i | 0 <= i < |s| && IsSpace(s[i])
      ensures s[i] == ' ' && (i + 1 < |s| ==> !IsSpace(s[i + 1]))
    {
      if i < |a| {
        assert s[i] == a[i];
        if i + 1 < |a| {
          assert s[i + 1] == a[i + 1];
        } else if i + 1 < |s| {
          assert s[i + 1] == b[0];
        }
      } else {
        assert s[i] == b[i - |a|];
        if i + 1 < |s| {
          assert s[i + 1] == b[i - |a| + 1];
        }
      }
    }
  }

  /** Two single-spaced pieces joined by one space, neither with whitespace at the join. */
  lemma SingleSpacedJoin(a: string, b: string)
    requires SingleSpaced(a) && SingleSpaced(b)
    requires a != [] && b != [] && !IsSpace(a[|a| - 1]) && !IsSpace(b[0])
    ensures SingleSpaced(a + (" " + b))
    ensures (a + (" " + b))[0] == a[0] && (a + (" " + b))[|a| + |b|] == b[|b| - 1]
  {
    SingleSpacedConcat(" ", b);
    SingleSpacedConcat(a, " " + b);
  }

  /** `w` occurs in `s` starting at position `i`. */
  predicate OccursAt(s: string, w: string, i: int) {
    0 <= i && i + |w| <= |s| && s[i..i + |w|] == w
  }

  /** `String.prototype.includes`. */
  predicate Contains(s: string, w: string) {
    exists i :: 0 <= i <= |s| - |w| && OccursAt(s, w, i)
  }

  lemma NotContainsWithoutFirstChar(s: string, w: string)
    requires w != [] && w[0] !in s
    ensures !Contains(s, w)
  {
  }

  /** `String.prototype.indexOf`: the first position of `w` in `s`, or -1. */
  function IndexOf(s: string, w: string): (r: int)
    ensures r >= -1
    ensures r == -1 <==> !Contains(s, w)
    ensures r >= 0 ==> OccursAt(s, w, r)
    ensures r >= 0 ==> forall j :: 0 <= j < r ==> !OccursAt(s, w, j)
  {
    IndexFrom(s, w, 0)
  }

  function IndexFrom(s: string, w: string, from: nat): (r: int)
    requires forall j :: 0 <= j < from ==> !OccursAt(s, w, j)
    ensures r >= -1
    ensures r == -1 <==> !Contains(s, w)
    ensures r >= 0 ==> from <= r && OccursAt(s, w, r)
    ensures r >= 0 ==> forall j :: 0 <= j < r ==> !OccursAt(s, w, j)
    decreases |s| + 1 - from
  {
    if from + |w| > |s| then
      assert forall j :: from <= j ==> !OccursAt(s, w, j);
      -1
    else if s[from..from + |w|] == w then
      assert OccursAt(s, w, from);
      from
    else IndexFrom(s, w, from + 1)
  }

  /** `String.prototype.substring(start, end)`: both bounds clamped to `[0, |s|]`, swapped when
      out of order. */
  function Substring(s: string, start: int, end: int): (r: string)
    ensures 0 <= start <= end <= |s| ==> r == s[start..end]
  {
    var a := if start < 0 then 0 else if start > |s| then |s| else start;
    var b := if end < 0 then 0 else if end > |s| then |s| else end;
    if a <= b then s[a..b] else s[b..a]
  }

  function DigitChar(d: nat): char
    requires d < 10
  {
    "0123456789"[d]
  }

  /** Decimal rendering of a non-negative integer. */
  function NatToString(n: nat): (r: string)
    ensures |r| >= 1
    ensures forall i :: 0 <= i < |r| ==> '0' <= r[i] <= '9'
  {
    if n < 10 then [DigitChar(n)] else NatToString(n / 10) + [DigitChar(n % 10)]
  }

  /** `String(n)` for an integer-valued number. */
  function IntToString(n: int): string {
    if n < 0 then "-" + NatToString(-n) else NatToString(n)
  }

  /** `Array.prototype.join(sep)` over already-rendered elements. */
  function Join(xs: seq<string>, sep: string): string {
    if xs == [] then "" else if |xs| == 1 then xs[0] else Join(xs[..|xs| - 1], sep) + sep + xs[|xs| - 1]
  }
}
