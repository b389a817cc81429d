/** The gateway's silent-response classifier: isSilentResponse of
    packages/whatsapp-gateway/index.js with V2 enabled, on UTF-16 code units. */
module SilentResponse {
  import opened Text

  // The sentinels, in lower case: "no_reply", "[no reply needed]", "no reply needed".
  const TOKEN := [110, 111, 95, 114, 101, 112, 108, 121]
  const BARE := [110, 111, 32, 114, 101, 112, 108, 121, 32, 110, 101, 101, 100, 101, 100]
  const BRACKETED := [91, 110, 111, 32, 114, 101, 112, 108, 121, 32, 110, 101, 101, 100, 101, 100, 93]

  predicate IsSentinel(s: seq<int>) {
    s == TOKEN || s == BRACKETED || s == BARE
  }

  // . , ; : ! ?
  predicate Punctuation(u: int) {
    u == 46 || u == 44 || u == 59 || u == 58 || u == 33 || u == 63
  }

  predicate Strippable(u: int) {
    JsSpace(u) || Punctuation(u) || u > 0x7F
  }

  /** toLowerCase, as far as the verdict can see it: the ASCII letters, and the Kelvin
      sign U+212A, the only other unit whose lower case ends in an ASCII word unit. */
  function LowerUnit(u: int): int {
    if 65 <= u <= 90 then u + 32 else if u == 0x212A then 107 else u
  }

  function Lower(s: seq<int>): (r: seq<int>)
    ensures |r| == |s|
  {
    seq(|s|, i requires 0 <= i < |s| => LowerUnit(s[i]))
  }

  // [a-z0-9_]
  predicate Word(u: int) {
    97 <= u <= 122 || 48 <= u <= 57 || u == 95
  }

  // The text before a sentinel does not run into it.
  predicate Boundary(prefix: seq<int>) {
    prefix == [] || !Word(LowerUnit(prefix[|prefix| - 1]))
  }

  /** text[a..b] is a sentinel in any letter case with only strippable units after it. */
  predicate SentinelAt(text: seq<int>, a: nat, b: nat) {
    a <= b <= |text| && IsSentinel(Lower(text[a..b])) && All(text[b..], Strippable)
  }

  predicate SilentAt(text: seq<int>, a: nat, b: nat) {
    SentinelAt(text, a, b) && Boundary(text[..a])
  }

  /** What the classifier decides: the text is a prefix that is empty or ends in a non-word
      unit, then a sentinel, then strippable units. */
  ghost predicate Silent(text: seq<int>) {
    exists a: nat, b: nat :: SilentAt(text, a, b)
  }

  // ---- the verdict in so many words ----

  // The word in any mixture of cases.
  predicate Reads(s: seq<int>, word: string) {
    |s| == |word| && forall i :: 0 <= i < |s| ==> SameLetter(s[i], word[i])
  }

  predicate SameLetter(u: int, c: char) {
    u == c as int || ('a' <= c <= 'z' && u == c as int - 32)
  }

  // An ASCII letter, a digit or an underscore; the Kelvin sign lowers to a letter.
  predicate RunsOn(u: int) {
    || 'a' as int <= u <= 'z' as int || 'A' as int <= u <= 'Z' as int
    || '0' as int <= u <= '9' as int || u == '_' as int || u == 0x212A
  }

  predicate MayFollow(u: int) {
    JsSpace(u) || u in Codes(".,;:!?") || u > 127
  }

  predicate SaysNothing(text: seq<int>, a: nat, b: nat) {
    && a <= b <= |text|
    && (Reads(text[a..b], "no_reply") || Reads(text[a..b], "no reply needed") || Reads(text[a..b], "[no reply needed]"))
    && (forall i :: b <= i < |text| ==> MayFollow(text[i]))
    && (a > 0 ==> !RunsOn(text[a - 1]))
  }

  lemma Spelled()
    ensures TOKEN == Codes("no_reply") && BARE == Codes("no reply needed") && BRACKETED == Codes("[no reply needed]")
  {
  }

  lemma ReadsMeans(s: seq<int>, word: string)
    requires forall i :: 0 <= i < |word| ==> word[i] <= '~' && word[i] != 'k' && !('A' <= word[i] <= 'Z')
    ensures Reads(s, word) <==> Lower(s) == Codes(word)
  {
    if Lower(s) == Codes(word) {
      forall i | 0 <= i < |s| ensures SameLetter(s[i], word[i]) {
        assert Lower(s)[i] == Codes(word)[i];
      }
    }
    if Reads(s, word) {
      forall i | 0 <= i < |s| ensures Lower(s)[i] == Codes(word)[i] {
        assert SameLetter(s[i], word[i]);
      }
    }
  }

  // ---- the end of a text once its strippable tail is dropped ----

  function StripEnd(s: seq<int>): seq<int> {
    TrimEnd(s, Strippable)
  }

  lemma SentinelUnits(text: seq<int>, a: nat, b: nat)
    requires a <= b <= |text| && IsSentinel(Lower(text[a..b]))
    ensures a < b
    ensures !Strippable(text[b - 1]) && !JsSpace(text[a])
    ensures b - a == 8 || b - a == 15 || b - a == 17
    ensures b - a == 8 <==> LowerUnit(text[b - 1]) == 121
    ensures b - a == 15 <==> LowerUnit(text[b - 1]) == 100
    ensures b - a == 17 <==> LowerUnit(text[b - 1]) == 93
  {
    var s := text[a..b];
    assert Lower(s)[0] == LowerUnit(s[0]);
    assert Lower(s)[|s| - 1] == LowerUnit(s[|s| - 1]);
    assert s[0] == text[a] && s[|s| - 1] == text[b - 1];
  }

  /** A sentinel with strippable units after it ends exactly where stripping stops. */
  lemma SentinelEnd(text: seq<int>, a: nat, b: nat)
    requires SentinelAt(text, a, b)
    ensures b == |StripEnd(text)|
  {
    SentinelUnits(text, a, b);
    TrimEndUnique(text, Strippable, b);
  }

  lemma FollowMeans(text: seq<int>, b: nat)
    requires b <= |text|
    ensures All(text[b..], Strippable) <==> forall i :: b <= i < |text| ==> MayFollow(text[i])
  {
    StopsSpelled();
    assert forall i :: b <= i < |text| ==> text[i] == text[b..][i - b];
    forall i | 0 <= i < |text[b..]| ensures Strippable(text[b..][i]) <==> MayFollow(text[b + i]) {
    }
  }

  lemma StopsSpelled()
    ensures forall u :: u in Codes(".,;:!?") <==> Punctuation(u)
  {
    var c := Codes(".,;:!?");
    assert c[0] == 46 && c[1] == 44 && c[2] == 59 && c[3] == 58 && c[4] == 33 && c[5] == 63;
  }

  lemma SaysNothingMeans(text: seq<int>, a: nat, b: nat)
    ensures SilentAt(text, a, b) <==> SaysNothing(text, a, b)
  {
    if a <= b <= |text| {
      Spelled();
      ReadsMeans(text[a..b], "no_reply");
      ReadsMeans(text[a..b], "no reply needed");
      ReadsMeans(text[a..b], "[no reply needed]");
      FollowMeans(text, b);
      assert a > 0 ==> text[..a][a - 1] == text[a - 1];
    }
  }

  /** A text is silent if and only if it ends, but for white space, stops and anything past
      ASCII, in one of the three sentinels in any letter case that no word runs into. */
  lemma SilentMeans(text: seq<int>)
    ensures Silent(text) <==> exists a: nat, b: nat :: SaysNothing(text, a, b)
  {
    forall a: nat, b: nat ensures SilentAt(text, a, b) <==> SaysNothing(text, a, b) {
      SaysNothingMeans(text, a, b);
    }
  }

  /** There is at most one sentinel at the end of a text. */
  lemma SentinelUnique(text: seq<int>, a: nat, b: nat, a': nat, b': nat)
    requires SentinelAt(text, a, b) && SentinelAt(text, a', b')
    ensures a == a' && b == b'
  {
    SentinelEnd(text, a, b);
    SentinelEnd(text, a', b');
    SentinelUnits(text, a, b);
    SentinelUnits(text, a', b');
  }

  lemma GrownAt(text: seq<int>, tail: seq<int>, a: nat, b: nat)
    requires All(tail, Strippable) && a <= b <= |text|
    ensures SilentAt(text + tail, a, b) <==> SilentAt(text, a, b)
  {
    var whole := text + tail;
    assert whole[a..b] == text[a..b] && whole[..a] == text[..a];
    assert whole[b..] == text[b..] + tail;
    assert forall i :: 0 <= i < |text[b..]| ==> text[b..][i] == whole[b..][i];
  }

  /** Appending strippable units never changes the verdict. */
  lemma AppendStrippable(text: seq<int>, tail: seq<int>)
    requires All(tail, Strippable)
    ensures Silent(text + tail) <==> Silent(text)
  {
    if Silent(text) {
      var a: nat, b: nat :| SilentAt(text, a, b);
      GrownAt(text, tail, a, b);
    }
    if Silent(text + tail) {
      var a: nat, b: nat :| SilentAt(text + tail, a, b);
      SentinelUnits(text + tail, a, b);
      assert b <= |text|;
      GrownAt(text, tail, a, b);
    }
  }

  lemma ShiftedAt(lead: seq<int>, text: seq<int>, a: nat, b: nat)
    requires All(lead, JsSpace) && a <= b <= |text|
    ensures SilentAt(lead + text, a + |lead|, b + |lead|) <==> SilentAt(text, a, b)
  {
    var whole, k := lead + text, |lead|;
    assert whole[a + k..b + k] == text[a..b] && whole[b + k..] == text[b..];
    assert whole[..a + k] == lead + text[..a];
  }

  /** White space in front never changes the verdict either. */
  lemma PrependSpace(lead: seq<int>, text: seq<int>)
    requires All(lead, JsSpace)
    ensures Silent(lead + text) <==> Silent(text)
  {
    var k := |lead|;
    if Silent(text) {
      var a: nat, b: nat :| SilentAt(text, a, b);
      ShiftedAt(lead, text, a, b);
    }
    if Silent(lead + text) {
      var a: nat, b: nat :| SilentAt(lead + text, a, b);
      SentinelUnits(lead + text, a, b);
      assert k <= a;
      ShiftedAt(lead, text, a - k, b - k);
    }
  }

  /** Trimming is invisible to the verdict. */
  lemma TrimInvisible(text: seq<int>)
    ensures Silent(text) <==> Silent(Trim(text, JsSpace))
  {
    TrimShape(text, JsSpace);
    var t, k := Trim(text, JsSpace), Lead(text, JsSpace);
    var tail := text[k + |t|..];
    assert All(tail, Strippable) by {
      forall i | 0 <= i < |tail| ensures Strippable(tail[i]) { assert JsSpace(tail[i]); }
    }
    assert text == text[..k] + (t + tail);
    PrependSpace(text[..k], t + tail);
    AppendStrippable(t, tail);
  }

  // ---- the code ----

  // String.prototype.codePointAt
  function CodePointAt(s: seq<int>, i: nat): int
    requires i < |s|
  {
    if 0xD800 <= s[i] <= 0xDBFF && i + 1 < |s| && 0xDC00 <= s[i + 1] <= 0xDFFF
    then (s[i] - 0xD800) * 0x400 + (s[i + 1] - 0xDC00) + 0x10000
    else s[i]
  }

  /** The backward, surrogate-aware walk strips exactly the maximal strippable suffix. */
  method StripTrailingNoise(trimmed: seq<int>) returns (end: nat)
    ensures end <= |trimmed| && trimmed[..end] == StripEnd(trimmed)
  {
    end := |trimmed|;
    assert trimmed[..end] == trimmed;
    var strippable := true;
    while end > 0 && strippable
      invariant end <= |trimmed|
      invariant StripEnd(trimmed) == StripEnd(trimmed[..end])
      invariant !strippable ==> end > 0 && !Strippable(trimmed[end - 1])
      decreases end, strippable
    {
      var unitStart := end - 1;
      var lowUnit := trimmed[unitStart];
      if 0xDC00 <= lowUnit <= 0xDFFF && unitStart > 0 {
        var highUnit := trimmed[unitStart - 1];
        if 0xD800 <= highUnit <= 0xDBFF {
          unitStart := unitStart - 1;
        }
      }
      var c := CodePointAt(trimmed, unitStart);
      strippable := JsSpace(c) || Punctuation(c) || c > 0x7F;
      if strippable {
        StripStep(trimmed, end);
        if unitStart + 2 == end {
          StripStep(trimmed, end - 1);
        }
        end := unitStart;
      }
    }
  }

  lemma StripStep(s: seq<int>, end: nat)
    requires 0 < end <= |s|
    ensures Strippable(s[end - 1]) ==> StripEnd(s[..end]) == StripEnd(s[..end - 1])
  {
    assert s[..end][..end - 1] == s[..end - 1];
  }

  predicate EndsWith(s: seq<int>, needle: seq<int>) {
    |needle| <= |s| && s[|s| - |needle|..] == needle
  }

  // One pass of the needle loop over the lower-cased, stripped text.
  predicate NeedleHit(lower: seq<int>, needle: seq<int>) {
    EndsWith(lower, needle) &&
    (|lower| == |needle| || !Word(lower[|lower| - |needle| - 1]))
  }

  /** A needle hit on the stripped text is a silent decomposition of the trimmed text. */
  lemma NeedleIsSentinel(trimmed: seq<int>, end: nat, needle: seq<int>)
    requires end <= |trimmed| && trimmed[..end] == StripEnd(trimmed)
    requires IsSentinel(needle)
    ensures NeedleHit(Lower(trimmed[..end]), needle) <==>
            |needle| <= end && SilentAt(trimmed, end - |needle|, end)
                            && Lower(trimmed[end - |needle|..end]) == needle
  {
    TrimEndShape(trimmed, Strippable);
    if |needle| <= end {
      var a := end - |needle|;
      var lower := Lower(trimmed[..end]);
      assert lower[a..] == Lower(trimmed[a..end]);
      assert a > 0 ==> lower[a - 1] == LowerUnit(trimmed[..a][a - 1]);
    }
  }

  method IsSilentResponse(text: seq<int>) returns (silent: bool)
    ensures silent <==> Silent(text)
  {
    TrimInvisible(text);
    var trimmed := Trim(text, JsSpace);
    if text == [] || trimmed == [] {
      assert !Silent([]) by {
        if a: nat, b: nat :| SilentAt([], a, b) { SentinelUnits([], a, b); }
      }
      return false;
    }
    var end := StripTrailingNoise(trimmed);
    var stripped := trimmed[..end];
    var lower := Lower(stripped);
    NeedleIsSentinel(trimmed, end, TOKEN);
    NeedleIsSentinel(trimmed, end, BRACKETED);
    NeedleIsSentinel(trimmed, end, BARE);
    if Silent(trimmed) {
      var a: nat, b: nat :| SilentAt(trimmed, a, b);
      SentinelEnd(trimmed, a, b);
      SentinelUnits(trimmed, a, b);
    }
    if lower == TOKEN || lower == BRACKETED || lower == BARE {
      return true;
    }
    silent := NeedleHit(lower, TOKEN) || NeedleHit(lower, BRACKETED) || NeedleHit(lower, BARE);
  }
}
