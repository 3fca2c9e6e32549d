/**
 * The string-extraction part of `loadTwitchToken`: given the text of the token
 * file, find the OAuth token in it.  Two regular-expression searches are made,
 * in order, and the first that matches wins:
 *   1. `/oauth:([a-zA-Z0-9]+)/` -- the alphanumeric run after the leftmost
 *      `oauth:` that is followed by at least one alphanumeric;
 *   2. `/([a-zA-Z0-9]{30,})/`    -- the leftmost run of 30 or more alphanumerics;
 * otherwise the result is null (`None`).
 *
 * A JavaScript regex search tries start positions from left to right and the
 * `+` / `{30,}` quantifiers are greedy with nothing after them, so each match is
 * determined by its leftmost start position and then runs as far as the
 * alphanumerics go.  That is how the functions below are written.
 */
module TokenLoader {
  import opened Wrappers

  const OauthPrefix: string := "oauth:"
  /** Minimum length of a bare token in the fallback search. */
  const MinBareLength: nat := 30

  /** The character class `[a-zA-Z0-9]`. */
  predicate IsAlnum(c: char) {
    ('a' <= c <= 'z') || ('A' <= c <= 'Z') || ('0' <= c <= '9')
  }

  predicate AllAlnum(t: string) {
    forall k :: 0 <= k < |t| ==> IsAlnum(t[k])
  }

  /** Length of the run of alphanumerics that starts at position `i`. */
  function AlnumRun(s: string, i: nat): (n: nat)
    requires i <= |s|
    ensures i + n <= |s|
    ensures forall k :: i <= k < i + n ==> IsAlnum(s[k])
    ensures i + n == |s| || !IsAlnum(s[i + n])
    decreases |s| - i
  {
    if i < |s| && IsAlnum(s[i]) then 1 + AlnumRun(s, i + 1) else 0
  }

  /** The first pattern matches at position `i`: `oauth:` and then one alphanumeric. */
  predicate OauthAt(s: string, i: nat) {
    i + |OauthPrefix| < |s| && s[i..i + |OauthPrefix|] == OauthPrefix && IsAlnum(s[i + |OauthPrefix|])
  }

  /** The fallback pattern matches at position `i`: 30 or more alphanumerics start there. */
  predicate LongRunAt(s: string, i: nat) {
    i <= |s| && AlnumRun(s, i) >= MinBareLength
  }

  /** Leftmost start position at or after `from` where the first pattern matches. */
  function FindOauth(s: string, from: nat): (r: Option<nat>)
    ensures r.Some? ==> from <= r.value && OauthAt(s, r.value)
    ensures r.Some? ==> forall j :: from <= j < r.value ==> !OauthAt(s, j)
    ensures r.None? ==> forall j :: from <= j ==> !OauthAt(s, j)
    decreases |s| - from
  {
    if from + |OauthPrefix| >= |s| then None
    else if OauthAt(s, from) then Some(from)
    else FindOauth(s, from + 1)
  }

  /** Leftmost start position at or after `from` where the fallback pattern matches. */
  function FindLongRun(s: string, from: nat): (r: Option<nat>)
    requires from <= |s|
    ensures r.Some? ==> from <= r.value && LongRunAt(s, r.value)
    ensures r.Some? ==> forall j :: from <= j < r.value ==> !LongRunAt(s, j)
    ensures r.None? ==> forall j :: from <= j ==> !LongRunAt(s, j)
    decreases |s| - from
  {
    if from + MinBareLength > |s| then None
    else if LongRunAt(s, from) then Some(from)
    else FindLongRun(s, from + 1)
  }

  /** Where the token lies in the text: the half-open span `[start, end)`. */
  datatype Span = Span(start: nat, end: nat)

  function TokenSpan(text: string): (r: Option<Span>)
    ensures r.Some? ==> r.value.start < r.value.end <= |text|
  {
    match FindOauth(text, 0)
    case Some(i) =>
      var start := i + |OauthPrefix|;
      Some(Span(start, start + AlnumRun(text, start)))
    case None =>
      match FindLongRun(text, 0)
      case Some(i) => Some(Span(i, i + AlnumRun(text, i)))
      case None => None
  }

  /** `loadTwitchToken` after the file has been read: the token, or null. */
  function ExtractToken(text: string): (r: Option<string>)
    ensures r.Some? ==> |r.value| > 0 && AllAlnum(r.value)
  {
    match TokenSpan(text)
    case Some(sp) => Some(text[sp.start..sp.end])
    case None => None
  }

  /** The returned token is a maximal alphanumeric run of the text, and it
      really is the text between the ends of its span. */
  lemma SpanIsMaximalRun(text: string)
    requires TokenSpan(text).Some?
    ensures var sp := TokenSpan(text).value;
      ExtractToken(text) == Some(text[sp.start..sp.end]) &&
      AllAlnum(text[sp.start..sp.end]) &&
      (sp.end == |text| || !IsAlnum(text[sp.end]))
  {
  }

  /** First pattern: whenever `oauth:` followed by an alphanumeric occurs, the
      token starts right after the leftmost such `oauth:`, so the prefix itself
      is never part of the token, and it runs to the end of the alphanumerics. */
  lemma OauthWins(text: string, i: nat)
    requires OauthAt(text, i)
    ensures FindOauth(text, 0).Some?
    ensures var first := FindOauth(text, 0).value;
      first <= i &&
      text[first..first + |OauthPrefix|] == OauthPrefix &&
      (forall j: nat :: j < first ==> !OauthAt(text, j)) &&
      TokenSpan(text) == Some(Span(first + |OauthPrefix|, first + |OauthPrefix| + AlnumRun(text, first + |OauthPrefix|)))
  {
  }

  /** The fallback is used only when the first pattern matches nowhere, and it
      then yields the whole of the first maximal alphanumeric run that has 30
      or more characters: the run does not extend to the left of its start. */
  lemma {:induction false} FallbackIsFirstLongRun(text: string)
    requires forall j :: !OauthAt(text, j)
    requires FindLongRun(text, 0).Some?
    ensures var i := FindLongRun(text, 0).value;
      TokenSpan(text) == Some(Span(i, i + AlnumRun(text, i))) &&
      AlnumRun(text, i) >= MinBareLength &&
      (i == 0 || !IsAlnum(text[i - 1]))
  {
    var i := FindLongRun(text, 0).value;
    FindOauthNone(text);
    if i > 0 {
      // leftmost: no long run starts one position earlier
      assert !LongRunAt(text, i - 1);
    }
  }

  lemma FindOauthNone(text: string)
    requires forall j :: !OauthAt(text, j)
    ensures FindOauth(text, 0).None?
  {
  }

  /** The result is null exactly when neither pattern matches anywhere. */
  lemma {:induction false} NullIffNoMatch(text: string)
    ensures ExtractToken(text).None? <==>
      (forall j :: !OauthAt(text, j)) && (forall j :: !LongRunAt(text, j))
  {
    var a := FindOauth(text, 0);
    var b := FindLongRun(text, 0);
    if a.Some? {
      assert OauthAt(text, a.value);
    } else if b.Some? {
      assert LongRunAt(text, b.value);
    }
  }

  /** A non-null result consists of alphanumerics only, so it never contains
      the `:` of the `oauth:` prefix, let alone the prefix itself. */
  lemma TokenHasNoPrefix(text: string)
    requires ExtractToken(text).Some?
    ensures ':' !in ExtractToken(text).value
  {
    assert !IsAlnum(':');
  }
}
