/** The kernel's silent-response detector (crates/librefang-runtime/src/silent_response.rs),
    which the gateway's classifier is documented to mirror, and the exact set of texts on
    which the two disagree.  Kernel texts are sequences of Unicode scalar values. */
module SilentKernel {
  import opened Text
  import opened SilentResponse
  import opened Utf8

  // char::is_ascii_whitespace leaves out the vertical tab.
  predicate AsciiSpace(c: int) {
    c == 9 || c == 10 || c == 12 || c == 13 || c == 32
  }

  predicate Noise(c: int) {
    AsciiSpace(c) || Punctuation(c) || c > 0x7F
  }

  function AsciiLowerOf(c: int): int {
    if 65 <= c <= 90 then c + 32 else c
  }

  function AsciiLower(s: seq<int>): (r: seq<int>)
    ensures |r| == |s|
  {
    seq(|s|, i requires 0 <= i < |s| => AsciiLowerOf(s[i]))
  }

  predicate AsciiBoundary(prefix: seq<int>) {
    prefix == [] || !Word(AsciiLowerOf(prefix[|prefix| - 1]))
  }

  /** What may follow a sentinel: noise, then the white space that trimming removed. */
  ghost predicate NoiseTail(tail: seq<int>) {
    exists c: nat :: c <= |tail| && All(tail[..c], Noise) && All(tail[c..], WhiteSpace)
  }

  ghost predicate KernelSilentAt(text: seq<int>, a: nat, b: nat) {
    && a <= b <= |text|
    && IsSentinel(AsciiLower(text[a..b]))
    && NoiseTail(text[b..])
    && if AsciiLower(text[a..b]) == BARE then All(text[..a], WhiteSpace) else AsciiBoundary(text[..a])
  }

  /** What the detector decides: like the gateway's verdict, except that the bare phrase
      must be the whole message. */
  ghost predicate KernelSilent(text: seq<int>) {
    exists a: nat, b: nat :: KernelSilentAt(text, a, b)
  }

  // ---- the code ----

  method StripTrailingNoise(s: seq<int>) returns (end: nat)
    ensures end <= |s| && s[..end] == TrimEnd(s, Noise)
  {
    end := |s|;
    assert s[..end] == s;
    while end > 0 && Noise(s[end - 1])
      invariant end <= |s| && TrimEnd(s, Noise) == TrimEnd(s[..end], Noise)
    {
      assert s[..end][..end - 1] == s[..end - 1];
      end := end - 1;
    }
  }

  predicate AsciiNeedleHit(s: seq<int>, needle: seq<int>) {
    EndsWith(AsciiLower(s), needle) && AsciiBoundary(s[..|s| - |needle|])
  }

  method IsSilentResponse(text: seq<int>) returns (silent: bool)
    ensures silent <==> KernelSilent(text)
  {
    var trimmed := Trim(text, WhiteSpace);
    if text == [] || trimmed == [] {
      BlankIsNotSilent(text);
      return false;
    }
    var end := StripTrailingNoise(trimmed);
    var stripped := trimmed[..end];
    if KernelSilent(text) {
      var a: nat, b: nat :| KernelSilentAt(text, a, b);
      KernelSilentIsHit(text, a, b);
    }
    var lower := AsciiLower(stripped);
    if lower == TOKEN || lower == BRACKETED || lower == BARE {
      HitIsKernelSilent(text, lower);
      return true;
    }
    silent := AsciiNeedleHit(stripped, TOKEN) || AsciiNeedleHit(stripped, BRACKETED);
    if silent {
      HitIsKernelSilent(text, if AsciiNeedleHit(stripped, TOKEN) then TOKEN else BRACKETED);
    }
  }

  function Stripped(text: seq<int>): seq<int> {
    TrimEnd(Trim(text, WhiteSpace), Noise)
  }

  lemma KernelUnits(text: seq<int>, a: nat, b: nat)
    requires a <= b <= |text| && IsSentinel(AsciiLower(text[a..b]))
    ensures a < b
    ensures !Noise(text[b - 1]) && !WhiteSpace(text[b - 1]) && !WhiteSpace(text[a])
  {
    var s := text[a..b];
    assert AsciiLower(s)[0] == AsciiLowerOf(s[0]);
    assert AsciiLower(s)[|s| - 1] == AsciiLowerOf(s[|s| - 1]);
    assert s[0] == text[a] && s[|s| - 1] == text[b - 1];
  }

  lemma BlankIsNotSilent(text: seq<int>)
    requires Trim(text, WhiteSpace) == []
    ensures !KernelSilent(text)
  {
    TrimShape(text, WhiteSpace);
    var k := Lead(text, WhiteSpace);
    assert text == text[..k] + text[k..];
    forall a: nat, b: nat ensures !KernelSilentAt(text, a, b) {
      if a <= b <= |text| && IsSentinel(AsciiLower(text[a..b])) {
        KernelUnits(text, a, b);
      }
    }
  }

  /** Where stripping and trimming leave a text that ends in a sentinel. */
  lemma StripsToSentinel(text: seq<int>, a: nat, b: nat)
    requires a <= b <= |text| && IsSentinel(AsciiLower(text[a..b])) && NoiseTail(text[b..])
    ensures var k := Lead(text, WhiteSpace);
            k <= a && Stripped(text) == text[k..b]
  {
    KernelUnits(text, a, b);
    var tail := text[b..];
    var c: nat :| c <= |tail| && All(tail[..c], Noise) && All(tail[c..], WhiteSpace);
    TrimEndInside(text, a, b, c);
    StripsAt(text, a, b, c);
  }

  lemma AllWithin(text: seq<int>, b: nat, c: nat, m: nat)
    requires b <= m <= b + c <= |text| && All(text[b..][..c], Noise)
    ensures All(text[b..m], Noise)
  {
    forall i | 0 <= i < m - b ensures Noise(text[b..m][i]) {
      assert text[b..m][i] == text[b..][..c][i];
    }
  }

  lemma StripsAt(text: seq<int>, a: nat, b: nat, c: nat)
    requires a < b <= |text| && b + c <= |text| && !Noise(text[b - 1])
    requires All(text[b..][..c], Noise)
    requires Lead(text, WhiteSpace) <= a
    requires b <= Lead(text, WhiteSpace) + |Trim(text, WhiteSpace)| <= b + c
    ensures Stripped(text) == text[Lead(text, WhiteSpace)..b]
  {
    TrimShape(text, WhiteSpace);
    var k, t := Lead(text, WhiteSpace), Trim(text, WhiteSpace);
    AllWithin(text, b, c, k + |t|);
    StripsWithin(text, k, t, b);
  }

  lemma StripsWithin(text: seq<int>, k: nat, t: seq<int>, b: nat)
    requires k < b <= k + |t| <= |text| && t == text[k..k + |t|]
    requires !Noise(text[b - 1]) && All(text[b..k + |t|], Noise)
    ensures TrimEnd(t, Noise) == text[k..b]
  {
    CutTwice(text, k, t, b - k);
    assert t[b - k - 1] == text[b - 1];
    TrimEndUnique(t, Noise, b - k);
  }

  lemma TrimEndInside(text: seq<int>, a: nat, b: nat, c: nat)
    requires a < b <= |text| && b + c <= |text|
    requires !WhiteSpace(text[b - 1]) && !WhiteSpace(text[a])
    requires All(text[b..][c..], WhiteSpace)
    ensures Lead(text, WhiteSpace) <= a
    ensures b <= Lead(text, WhiteSpace) + |Trim(text, WhiteSpace)| <= b + c
  {
    TrimShape(text, WhiteSpace);
    var k, t := Lead(text, WhiteSpace), Trim(text, WhiteSpace);
    var m := k + |t|;
    assert b <= m;
    assert t[|t| - 1] == text[m - 1];
    assert text[b..][c..] == text[b + c..];
    assert m <= b + c;
  }

  lemma KernelSilentIsHit(text: seq<int>, a: nat, b: nat)
    requires KernelSilentAt(text, a, b)
    ensures var s := Stripped(text);
            || AsciiLower(s) == BARE
            || AsciiNeedleHit(s, TOKEN) || AsciiNeedleHit(s, BRACKETED)
  {
    StripsToSentinel(text, a, b);
    var k, s := Lead(text, WhiteSpace), Stripped(text);
    SentinelPieces(text, k, a, b, s);
    if AsciiLower(text[a..b]) == BARE {
      LeadOfBlank(text, a);
      assert AsciiLower(s)[0..] == AsciiLower(s);
    }
  }

  // The stripped text, which runs from k to b, ends in what stands from a to b.
  lemma SentinelPieces(text: seq<int>, k: nat, a: nat, b: nat, s: seq<int>)
    requires k <= a <= b <= |text| && s == text[k..b]
    ensures AsciiLower(s)[a - k..] == AsciiLower(text[a..b])
    ensures AsciiBoundary(text[..a]) ==> AsciiBoundary(s[..a - k])
    ensures EndsWith(AsciiLower(s), AsciiLower(text[a..b])) && |s| - |AsciiLower(text[a..b])| == a - k
  {
    assert s[a - k..] == text[a..b];
    assert k < a ==> s[..a - k][a - k - 1] == text[..a][a - 1];
  }

  lemma LeadOfBlank(text: seq<int>, a: nat)
    requires a < |text| && All(text[..a], WhiteSpace)
    ensures Lead(text, WhiteSpace) >= a
  {
    TrimStartShape(text, WhiteSpace);
  }

  lemma HitIsKernelSilent(text: seq<int>, needle: seq<int>)
    requires IsSentinel(needle)
    requires AsciiLower(Stripped(text)) == needle || (needle != BARE && AsciiNeedleHit(Stripped(text), needle))
    ensures KernelSilent(text)
  {
    var k, s := Lead(text, WhiteSpace), Stripped(text);
    StrippedShape(text);
    var b := k + |s|;
    var a := b - |needle|;
    assert text[a..b] == s[|s| - |needle|..];
    assert AsciiLower(text[a..b]) == AsciiLower(s)[|s| - |needle|..];
    assert s[..|s| - |needle|] == text[k..a];
    if a == k {
      assert a > 0 ==> WhiteSpace(text[..a][a - 1]);
    } else {
      assert text[..a][a - 1] == text[k..a][a - k - 1];
    }
    assert KernelSilentAt(text, a, b);
  }

  lemma StrippedShape(text: seq<int>)
    ensures var k, s := Lead(text, WhiteSpace), Stripped(text);
            && k + |s| <= |text| && s == text[k..k + |s|]
            && All(text[..k], WhiteSpace) && NoiseTail(text[k + |s|..])
  {
    TrimShape(text, WhiteSpace);
    var k, t := Lead(text, WhiteSpace), Trim(text, WhiteSpace);
    TrimEndShape(t, Noise);
    NoiseAfter(text, k, t, |Stripped(text)|);
  }

  lemma NoiseAfter(text: seq<int>, k: nat, t: seq<int>, n: nat)
    requires n <= |t| && k + |t| <= |text| && t == text[k..k + |t|]
    requires All(t[n..], Noise) && All(text[k + |t|..], WhiteSpace)
    ensures t[..n] == text[k..k + n] && NoiseTail(text[k + n..])
  {
    CutTwice(text, k, t, n);
    SplitTail(text, k + n, k + |t|);
  }

  lemma CutTwice(text: seq<int>, k: nat, t: seq<int>, n: nat)
    requires n <= |t| && k + |t| <= |text| && t == text[k..k + |t|]
    ensures t[..n] == text[k..k + n] && t[n..] == text[k + n..k + |t|]
  {
  }

  lemma SplitTail(text: seq<int>, b: nat, c: nat)
    requires b <= c <= |text| && All(text[b..c], Noise) && All(text[c..], WhiteSpace)
    ensures NoiseTail(text[b..])
  {
    assert text[b..][..c - b] == text[b..c];
    assert text[b..][c - b..] == text[c..];
  }

  // ---- UTF-16: the gateway sees the same text as code units ----

  function Units(c: int): seq<int> {
    if c < 0x10000 then [c] else [0xD800 + (c - 0x10000) / 0x400, 0xDC00 + (c - 0x10000) % 0x400]
  }

  function Utf16(t: seq<int>): seq<int> {
    if t == [] then [] else Utf16(t[..|t| - 1]) + Units(t[|t| - 1])
  }

  predicate Ascii(c: int) {
    0 <= c < 0x80
  }

  predicate AllAscii(s: seq<int>) {
    forall i :: 0 <= i < |s| ==> Ascii(s[i])
  }

  lemma AsciiUnit(t: seq<int>, h: seq<int>, z: int) returns (q: seq<int>)
    requires AllScalar(t) && Utf16(t) == h + [z] && Ascii(z)
    ensures t == q + [z] && AllScalar(q) && Utf16(q) == h
  {
    var m := |t| - 1;
    q := t[..m];
    assert (h + [z])[|h|] == z;
    assert Utf16(t) == Utf16(q) + [t[m]];
    assert (h + [z])[..|h|] == h;
  }

  lemma Unsnoc(h: seq<int>, x: seq<int>)
    requires x != []
    ensures h + x == (h + x[..|x| - 1]) + [x[|x| - 1]]
  {
    assert x == x[..|x| - 1] + [x[|x| - 1]];
  }

  /** A run of ASCII units at the end is a run of the same scalars at the end. */
  lemma {:induction false} AsciiTail(t: seq<int>, h: seq<int>, x: seq<int>) returns (q: seq<int>)
    requires AllScalar(t) && AllAscii(x) && Utf16(t) == h + x
    ensures t == q + x && AllScalar(q) && Utf16(q) == h
  {
    if x == [] {
      q := t;
      assert h + x == h;
    } else {
      var n := |x| - 1;
      var y, z := x[..n], x[n];
      Unsnoc(h, x);
      var r := AsciiUnit(t, h + y, z);
      q := AsciiTail(r, h, y);
      Unsnoc(q, x);
    }
  }

  lemma Utf16Snoc(t: seq<int>, c: int)
    ensures Utf16(t + [c]) == Utf16(t) + Units(c)
  {
    assert (t + [c])[..|t|] == t;
  }

  lemma {:induction false} Utf16Tail(t: seq<int>, x: seq<int>)
    requires AllAscii(x)
    ensures Utf16(t + x) == Utf16(t) + x
  {
    if x == [] {
      assert t + x == t && Utf16(t) + x == Utf16(t);
    } else {
      var n := |x| - 1;
      var y, z := x[..n], x[n];
      assert x == y + [z] && Ascii(z);
      calc {
        Utf16(t + x);
        { assert t + x == (t + y) + [z]; }
        Utf16((t + y) + [z]);
        { Utf16Snoc(t + y, z); }
        Utf16(t + y) + [z];
        { Utf16Tail(t, y); }
        (Utf16(t) + y) + [z];
        { assert (Utf16(t) + y) + [z] == Utf16(t) + x; }
        Utf16(t) + x;
      }
    }
  }

  lemma SentinelIsAscii(s: seq<int>)
    requires IsSentinel(Lower(s))
    ensures AllAscii(s)
  {
    forall i | 0 <= i < |s| ensures Ascii(s[i]) {
      assert Lower(s)[i] == LowerUnit(s[i]);
      assert 0 < Lower(s)[i] < 0x80 && Lower(s)[i] != 107;
    }
  }

  lemma BoundaryUtf16(p: seq<int>)
    requires AllScalar(p)
    ensures Boundary(Utf16(p)) <==> Boundary(p)
  {
    if p != [] {
      var c := p[|p| - 1];
      assert Utf16(p)[|Utf16(p)| - 1] == Units(c)[|Units(c)| - 1];
    }
  }

  lemma SilentAtEnd(t: seq<int>, p: seq<int>, x: seq<int>)
    requires t == p + x && IsSentinel(Lower(x)) && Boundary(p)
    ensures Silent(t)
  {
    assert t[|p|..|t|] == x && t[..|p|] == p;
    assert SilentAt(t, |p|, |t|);
  }

  lemma SilentAtSolidEnd(t: seq<int>) returns (p: seq<int>, x: seq<int>)
    requires t != [] && !Strippable(t[|t| - 1]) && Silent(t)
    ensures t == p + x && IsSentinel(Lower(x)) && Boundary(p)
  {
    var a: nat, b: nat :| SilentAt(t, a, b);
    SentinelEnd(t, a, b);
    p, x := t[..a], t[a..b];
  }

  /** The gateway's verdict on the UTF-16 form is its rule read over scalar values. */
  lemma {:induction false} SilentUtf16(t: seq<int>)
    requires AllScalar(t)
    ensures Silent(Utf16(t)) <==> Silent(t)
  {
    if t != [] {
      var m := |t| - 1;
      if Strippable(t[m]) {
        SilentUtf16(t[..m]);
        AppendStrippable(t[..m], [t[m]]);
        assert t == t[..m] + [t[m]];
        AppendStrippable(Utf16(t[..m]), Units(t[m]));
      } else {
        SolidForward(t);
        SolidBackward(t);
      }
    }
  }

  lemma SolidForward(t: seq<int>)
    requires AllScalar(t) && t != [] && !Strippable(t[|t| - 1])
    ensures Silent(Utf16(t)) ==> Silent(t)
  {
    if Silent(Utf16(t)) {
      var p, x := SilentAtSolidEnd(Utf16(t));
      UnitsToScalars(t, p, x);
    }
  }

  lemma UnitsToScalars(t: seq<int>, p: seq<int>, x: seq<int>)
    requires AllScalar(t) && Utf16(t) == p + x && IsSentinel(Lower(x)) && Boundary(p)
    ensures Silent(t)
  {
    SentinelIsAscii(x);
    var q := AsciiTail(t, p, x);
    BoundaryUtf16(q);
    SilentAtEnd(t, q, x);
  }

  lemma SolidBackward(t: seq<int>)
    requires AllScalar(t) && t != [] && !Strippable(t[|t| - 1])
    ensures Silent(t) ==> Silent(Utf16(t))
  {
    if Silent(t) {
      var p, x := SilentAtSolidEnd(t);
      ScalarsToUnits(p, x);
    }
  }

  lemma ScalarsToUnits(p: seq<int>, x: seq<int>)
    requires AllScalar(p + x) && IsSentinel(Lower(x)) && Boundary(p)
    ensures Silent(Utf16(p + x))
  {
    SentinelIsAscii(x);
    Utf16Tail(p, x);
    assert AllScalar(p) by { assert p == (p + x)[..|p|]; }
    BoundaryUtf16(p);
    SilentAtEnd(Utf16(p + x), Utf16(p), x);
  }

  // ---- where the two layers disagree ----

  /** Only the gateway takes the bare phrase as a suffix of other text. */
  ghost predicate BareAfterText(t: seq<int>) {
    exists a: nat, b: nat :: SilentAt(t, a, b) && b - a == |BARE| && !All(t[..a], WhiteSpace)
  }

  /** A vertical tab inside the noise stops the kernel's strip but not the gateway's. */
  predicate TabThenMore(tail: seq<int>) {
    exists i, j :: 0 <= i < j < |tail| && tail[i] == 11 && !WhiteSpace(tail[j])
  }

  ghost predicate TabbedNoise(t: seq<int>) {
    exists a: nat, b: nat :: SilentAt(t, a, b) && TabThenMore(t[b..])
  }

  /** The Kelvin sign lower-cases to an ASCII word unit in the gateway only. */
  ghost predicate KelvinBefore(t: seq<int>) {
    exists a: nat, b: nat :: SentinelAt(t, a, b) && b - a != |BARE| && a > 0 && t[a - 1] == 0x212A
                             && !TabThenMore(t[b..])
  }

  lemma NoiseTailIff(tail: seq<int>)
    ensures NoiseTail(tail) ==> All(tail, Strippable)
    ensures All(tail, Strippable) ==> (NoiseTail(tail) <==> !TabThenMore(tail))
  {
    if NoiseTail(tail) {
      var c: nat :| c <= |tail| && All(tail[..c], Noise) && All(tail[c..], WhiteSpace);
      forall i | 0 <= i < |tail| ensures Strippable(tail[i]) && (tail[i] == 11 ==> c <= i) {
        if i < c { assert tail[..c][i] == tail[i]; } else { assert tail[c..][i - c] == tail[i]; }
      }
      forall j | c <= j < |tail| ensures WhiteSpace(tail[j]) {
        assert tail[c..][j - c] == tail[j];
      }
    } else if All(tail, Strippable) {
      TrimEndShape(tail, WhiteSpace);
      var c := |TrimEnd(tail, WhiteSpace)|;
      assert !All(tail[..c], Noise);
      var i :| 0 <= i < c && !Noise(tail[..c][i]);
      assert tail[i] == 11 && i < c - 1;
    }
  }

  lemma SameSentinel(s: seq<int>, needle: seq<int>)
    requires IsSentinel(needle)
    ensures Lower(s) == needle <==> AsciiLower(s) == needle
  {
    assert forall i :: 0 <= i < |s| ==> (Lower(s)[i] == AsciiLower(s)[i] || s[i] == 0x212A);
    assert forall i :: 0 <= i < |needle| ==> needle[i] != 107 && needle[i] != 0x212A;
    if s != [] && Lower(s) != AsciiLower(s) {
      var i :| 0 <= i < |s| && Lower(s)[i] != AsciiLower(s)[i];
      assert Lower(s)[i] == 107 && AsciiLower(s)[i] == 0x212A;
    }
  }

  lemma KernelAt(t: seq<int>, a: nat, b: nat)
    ensures KernelSilentAt(t, a, b) <==>
            && SentinelAt(t, a, b) && !TabThenMore(t[b..])
            && if b - a == |BARE| then All(t[..a], WhiteSpace) else AsciiBoundary(t[..a])
  {
    if a <= b <= |t| {
      SameSentinel(t[a..b], TOKEN);
      SameSentinel(t[a..b], BRACKETED);
      SameSentinel(t[a..b], BARE);
      NoiseTailIff(t[b..]);
    }
  }

  /** On a text that does end in a sentinel, the two verdicts spelled out. */
  lemma VerdictsAt(t: seq<int>, a: nat, b: nat)
    requires SentinelAt(t, a, b)
    ensures Silent(t) <==> Boundary(t[..a])
    ensures KernelSilent(t) <==> KernelSilentAt(t, a, b)
  {
    if Silent(t) {
      var a', b' :| SilentAt(t, a', b');
      SentinelUnique(t, a, b, a', b');
    }
    if KernelSilent(t) {
      var a': nat, b': nat :| KernelSilentAt(t, a', b');
      KernelAt(t, a', b');
      SentinelUnique(t, a, b, a', b');
    }
    if Boundary(t[..a]) {
      assert SilentAt(t, a, b);
    }
  }

  lemma BoundaryOfSpace(p: seq<int>)
    ensures All(p, WhiteSpace) ==> Boundary(p)
    ensures Boundary(p) ==> AsciiBoundary(p)
    ensures AsciiBoundary(p) ==> Boundary(p) || p[|p| - 1] == 0x212A
    ensures p != [] && p[|p| - 1] == 0x212A ==> AsciiBoundary(p) && !Boundary(p)
  {
  }

  /** The gateway mirrors the kernel exactly on the texts outside three families:
      the layers disagree if and only if one of them applies. */
  lemma LayersDisagree(t: seq<int>)
    requires AllScalar(t)
    ensures (Silent(Utf16(t)) <==> KernelSilent(t)) <==>
            !(BareAfterText(t) || TabbedNoise(t) || KelvinBefore(t))
  {
    SilentUtf16(t);
    if a: nat, b: nat :| SentinelAt(t, a, b) {
      VerdictsAt(t, a, b);
      KernelAt(t, a, b);
      BoundaryOfSpace(t[..a]);
      FamiliesAt(t, a, b);
    } else {
      forall a: nat, b: nat ensures !KernelSilentAt(t, a, b) {
        KernelAt(t, a, b);
      }
    }
  }

  lemma FamiliesAt(t: seq<int>, a: nat, b: nat)
    requires SentinelAt(t, a, b)
    ensures BareAfterText(t) <==> Boundary(t[..a]) && b - a == |BARE| && !All(t[..a], WhiteSpace)
    ensures TabbedNoise(t) <==> Boundary(t[..a]) && TabThenMore(t[b..])
    ensures KelvinBefore(t) <==> b - a != |BARE| && a > 0 && t[a - 1] == 0x212A && !TabThenMore(t[b..])
  {
    forall a': nat, b': nat | SentinelAt(t, a', b') ensures a' == a && b' == b {
      SentinelUnique(t, a, b, a', b');
    }
    assert Boundary(t[..a]) <==> SilentAt(t, a, b);
  }

  /** Each family is inhabited: "x no reply needed", "NO_REPLY" with a vertical tab and a
      full stop after it, and "no_reply" right after a Kelvin sign. */
  lemma FamiliesInhabited()
    ensures BareAfterText([120, 32] + BARE)
    ensures TabbedNoise(TOKEN + [11, 46])
    ensures KelvinBefore([0x212A] + TOKEN)
  {
    assert Lower(TOKEN) == TOKEN && Lower(BARE) == BARE;
    var bare := [120, 32] + BARE;
    assert bare[2..17] == BARE && bare[..2] == [120, 32] && bare[17..] == [];
    assert SilentAt(bare, 2, 17) && !WhiteSpace(bare[..2][0]);
    var tabbed := TOKEN + [11, 46];
    assert tabbed[0..8] == TOKEN && tabbed[8..] == [11, 46];
    assert SilentAt(tabbed, 0, 8);
    assert tabbed[8..][0] == 11 && !WhiteSpace(tabbed[8..][1]);
    var kelvin := [0x212A] + TOKEN;
    assert kelvin[1..9] == TOKEN && kelvin[9..] == [];
    assert SentinelAt(kelvin, 1, 9);
  }
}
