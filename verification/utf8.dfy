/** UTF-8 as the stream readers see it: an encoder, the strict decoder behind Rust's from_utf8,
    and the streaming decoder of JavaScript, which puts U+FFFD in place of malformed bytes and
    keeps an incomplete code point back until its remaining bytes arrive. */
module Utf8 {
  import opened Text

  predicate IsScalar(c: int) {
    0 <= c < 0xD800 || 0xE000 <= c < 0x110000
  }

  predicate AllScalar(t: seq<int>) {
    forall i :: 0 <= i < |t| ==> IsScalar(t[i])
  }

  function Encode1(c: int): seq<int> {
    if c < 0x80 then [c]
    else
      var q := c / 0x40;
      if c < 0x800 then [0xC0 + q, 0x80 + c % 0x40]
      else
        var r := q / 0x40;
        if c < 0x10000 then [0xE0 + r, 0x80 + q % 0x40, 0x80 + c % 0x40]
        else [0xF0 + r / 0x40, 0x80 + r % 0x40, 0x80 + q % 0x40, 0x80 + c % 0x40]
  }

  function Encode(t: seq<int>): seq<int> {
    if t == [] then [] else Encode1(t[0]) + Encode(t[1..])
  }

  // Length of the sequence a lead byte announces; 0 for a byte that cannot lead.
  function Width(lead: int): nat {
    if 0 <= lead < 0x80 then 1
    else if 0xC2 <= lead < 0xE0 then 2
    else if 0xE0 <= lead < 0xF0 then 3
    else if 0xF0 <= lead < 0xF5 then 4
    else 0
  }

  predicate Continuation(b: int) {
    0x80 <= b < 0xC0
  }

  function Value2(b0: int, b1: int): int {
    if Continuation(b1) then (b0 - 0xC0) * 0x40 + (b1 - 0x80) else -1
  }

  function Value3(b0: int, b1: int, b2: int): int {
    if !Continuation(b1) || !Continuation(b2) then -1
    else
      var c := ((b0 - 0xE0) * 0x40 + (b1 - 0x80)) * 0x40 + (b2 - 0x80);
      if 0x800 <= c && IsScalar(c) then c else -1
  }

  function Value4(b0: int, b1: int, b2: int, b3: int): int {
    if !Continuation(b1) || !Continuation(b2) || !Continuation(b3) then -1
    else
      var c := (((b0 - 0xF0) * 0x40 + (b1 - 0x80)) * 0x40 + (b2 - 0x80)) * 0x40 + (b3 - 0x80);
      if 0x10000 <= c && IsScalar(c) then c else -1
  }

  // The code point a complete sequence stands for; -1 when it is malformed or overlong.
  function Value(b: seq<int>): int
    requires b != [] && |b| == Width(b[0])
  {
    if |b| == 1 then b[0]
    else if |b| == 2 then Value2(b[0], b[1])
    else if |b| == 3 then Value3(b[0], b[1], b[2])
    else Value4(b[0], b[1], b[2], b[3])
  }

  // A whole well-formed code point stands at the front.
  predicate Ready(b: seq<int>) {
    b != [] && Width(b[0]) > 0 && Width(b[0]) <= |b| && Value(b[..Width(b[0])]) >= 0
  }

  /** The strict decoder: as many code points as are well formed; the bytes from the first one
      that is incomplete or malformed are left over. */
  function Decode(b: seq<int>): (r: (seq<int>, seq<int>)) {
    if !Ready(b) then ([], b)
    else
      var w := Width(b[0]);
      var (text, pending) := Decode(b[w..]);
      ([Value(b[..w])] + text, pending)
  }

  function Decoded(b: seq<int>): seq<int> { Decode(b).0 }
  function Pending(b: seq<int>): seq<int> { Decode(b).1 }

  predicate ValidUtf8(b: seq<int>) {
    Pending(b) == []
  }

  lemma ReadyAppend(a: seq<int>, b: seq<int>)
    requires Ready(a)
    ensures Ready(a + b)
    ensures var w := Width(a[0]); (a + b)[..w] == a[..w] && (a + b)[w..] == a[w..] + b
  {
    assert (a + b)[..Width(a[0])] == a[..Width(a[0])];
  }

  /** The text does not depend on where the byte stream was cut. */
  lemma {:induction false} DecodeAppend(a: seq<int>, b: seq<int>)
    ensures Decoded(a + b) == Decoded(a) + Decoded(Pending(a) + b)
    ensures Pending(a + b) == Pending(Pending(a) + b)
  {
    if Ready(a) {
      var w := Width(a[0]);
      ReadyAppend(a, b);
      DecodeAppend(a[w..], b);
      assert Decoded(a + b) == [Value(a[..w])] + Decoded(a[w..] + b);
    } else {
      assert [] + Decoded(a + b) == Decoded(a + b);
    }
  }

  lemma Encode1Ready(c: int)
    requires IsScalar(c)
    ensures var e := Encode1(c); e != [] && Width(e[0]) == |e| && Value(e) == c
  {
  }

  /** Decoding undoes encoding. */
  lemma {:induction false} DecodeEncode(t: seq<int>)
    requires AllScalar(t)
    ensures Decode(Encode(t)) == (t, [])
  {
    if t != [] {
      var e, rest := Encode1(t[0]), Encode(t[1..]);
      Encode1Ready(t[0]);
      assert (e + rest)[..|e|] == e && (e + rest)[|e|..] == rest;
      DecodeEncode(t[1..]);
      assert [t[0]] + t[1..] == t;
    }
  }

  lemma Rejoin(q: int, d: int)
    requires 0 <= d < 0x40
    ensures (q * 0x40 + d) / 0x40 == q && (q * 0x40 + d) % 0x40 == d
  {
  }

  lemma ValueEncode1(b: seq<int>)
    requires b != [] && |b| == Width(b[0]) && Value(b) >= 0
    ensures IsScalar(Value(b)) && Encode1(Value(b)) == b
  {
    if |b| == 2 {
      Rejoin(b[0] - 0xC0, b[1] - 0x80);
    } else if |b| == 3 {
      var r := b[0] - 0xE0;
      Rejoin(r, b[1] - 0x80);
      Rejoin(r * 0x40 + (b[1] - 0x80), b[2] - 0x80);
    } else if |b| == 4 {
      var r := (b[0] - 0xF0) * 0x40 + (b[1] - 0x80);
      Rejoin(b[0] - 0xF0, b[1] - 0x80);
      Rejoin(r, b[2] - 0x80);
      Rejoin(r * 0x40 + (b[2] - 0x80), b[3] - 0x80);
    }
  }

  /** Encoding undoes decoding: the valid byte streams are exactly the encoded texts. */
  lemma {:induction false} EncodeDecode(b: seq<int>)
    ensures AllScalar(Decoded(b)) && Encode(Decoded(b)) + Pending(b) == b
  {
    if Ready(b) {
      var w := Width(b[0]);
      ValueEncode1(b[..w]);
      EncodeDecode(b[w..]);
      var t := Decoded(b);
      assert t[1..] == Decoded(b[w..]);
      assert b == b[..w] + b[w..];
      assert (b[..w] + Encode(t[1..])) + Pending(b) == b[..w] + (Encode(t[1..]) + Pending(b));
    }
  }

  lemma Encode1High(c: int, i: nat)
    requires IsScalar(c) && i < |Encode1(c)|
    ensures Encode1(c)[i] < 0x80 ==> |Encode1(c)| == 1 && Encode1(c)[i] == c
  {
  }

  lemma {:induction false} EncodeAppend(a: seq<int>, b: seq<int>)
    ensures Encode(a + b) == Encode(a) + Encode(b)
  {
    if a == [] {
      assert a + b == b;
    } else {
      EncodeAppend(a[1..], b);
      assert (a + b)[1..] == a[1..] + b;
      Reassociate(Encode1(a[0]), Encode(a[1..]), Encode(b));
    }
  }

  lemma EncodeInjective(s: seq<int>, t: seq<int>)
    requires AllScalar(s) && AllScalar(t) && Encode(s) == Encode(t)
    ensures s == t
  {
    DecodeEncode(s);
    DecodeEncode(t);
  }

  // ---- the decoder that substitutes ----

  const REPLACEMENT := 0xFFFD

  // The bytes that may come second after a lead byte: no overlong form, surrogate or value
  // past U+10FFFF can be completed.
  predicate SecondOk(lead: int, b: int) {
    Continuation(b) &&
    (lead == 0xE0 ==> b >= 0xA0) && (lead == 0xED ==> b < 0xA0) &&
    (lead == 0xF0 ==> b >= 0x90) && (lead == 0xF4 ==> b < 0x90)
  }

  // How many bytes at the front one U+FFFD stands for: the longest start of a well-formed
  // sequence that the next byte breaks off.  0 while nothing is malformed yet.
  function Broken(b: seq<int>): (n: nat)
    requires b != []
    ensures n <= |b|
  {
    var w := Width(b[0]);
    if w == 0 then 1
    else if w >= 2 && |b| >= 2 && !SecondOk(b[0], b[1]) then 1
    else if w >= 3 && |b| >= 3 && !Continuation(b[2]) then 2
    else if w == 4 && |b| >= 4 && !Continuation(b[3]) then 3
    else 0
  }

  function Lossy(b: seq<int>): (r: (seq<int>, seq<int>)) {
    if b == [] then ([], [])
    else if Broken(b) > 0 then
      var (text, pending) := Lossy(b[Broken(b)..]);
      ([REPLACEMENT] + text, pending)
    else if |b| < Width(b[0]) then ([], b)
    else
      var w := Width(b[0]);
      var (text, pending) := Lossy(b[w..]);
      ([Value(b[..w])] + text, pending)
  }

  function LossyText(b: seq<int>): seq<int> { Lossy(b).0 }
  function LossyPending(b: seq<int>): seq<int> { Lossy(b).1 }

  /** A sequence that has all its bytes is either broken or well formed, never both. */
  lemma BrokenOrReady(b: seq<int>)
    requires b != []
    ensures Broken(b) > 0 ==> !Ready(b)
    ensures Broken(b) == 0 && Width(b[0]) <= |b| ==> Ready(b)
  {
    var w := Width(b[0]);
    if 0 < w <= |b| {
      WholeValue(b[..w]);
      assert Broken(b) == Broken(b[..w]);
    }
  }

  lemma WholeValue(b: seq<int>)
    requires b != [] && |b| == Width(b[0])
    ensures Broken(b) == 0 <==> Value(b) >= 0
  {
  }

  lemma BrokenAppend(a: seq<int>, b: seq<int>)
    requires a != [] && (Broken(a) > 0 || Width(a[0]) <= |a|)
    ensures Broken(a + b) == Broken(a)
  {
  }

  /** However the bytes are cut, the text and the bytes still pending are the same: also
      inside a malformed sequence. */
  lemma {:induction false} LossyAppend(a: seq<int>, b: seq<int>)
    ensures LossyText(a + b) == LossyText(a) + LossyText(LossyPending(a) + b)
    ensures LossyPending(a + b) == LossyPending(LossyPending(a) + b)
  {
    if a == [] {
      assert a + b == b;
    } else if Broken(a) == 0 && |a| < Width(a[0]) {
      assert [] + LossyText(a + b) == LossyText(a + b);
    } else {
      var n := if Broken(a) > 0 then Broken(a) else Width(a[0]);
      BrokenAppend(a, b);
      CutInFirst(a, b, n);
      LossyAppend(a[n..], b);
      LossyStep(a);
      LossyStep(a + b);
    }
  }

  // One code point, or one replacement, is taken off the front.
  lemma LossyStep(b: seq<int>)
    requires b != [] && (Broken(b) > 0 || Width(b[0]) <= |b|)
    ensures var n := if Broken(b) > 0 then Broken(b) else Width(b[0]);
            var c := if Broken(b) > 0 then REPLACEMENT else Value(b[..Width(b[0])]);
            0 < n <= |b| && LossyText(b) == [c] + LossyText(b[n..]) && LossyPending(b) == LossyPending(b[n..])
  {
  }

  /** On well-formed input nothing is replaced. */
  lemma {:induction false} LossyValid(b: seq<int>)
    requires ValidUtf8(b)
    ensures Lossy(b) == (Decoded(b), [])
  {
    if b != [] {
      BrokenOrReady(b);
      LossyValid(b[Width(b[0])..]);
    }
  }

  lemma {:induction false} PendingIsIncomplete(b: seq<int>)
    ensures var p := LossyPending(b); p == [] || (Broken(p) == 0 && |p| < Width(p[0]))
  {
    if b != [] && (Broken(b) > 0 || Width(b[0]) <= |b|) {
      LossyStep(b);
      PendingIsIncomplete(b[if Broken(b) > 0 then Broken(b) else Width(b[0])..]);
    }
  }

  // The text once the stream is over: an unfinished sequence becomes one replacement.
  function Flushed(b: seq<int>): seq<int> {
    LossyText(b) + if LossyPending(b) == [] then [] else [REPLACEMENT]
  }

  lemma LineStart(c: seq<int>)
    ensures LossyText(NEWLINE + c) == NEWLINE + LossyText(c) && LossyPending(NEWLINE + c) == LossyPending(c)
  {
    LossyStep(NEWLINE + c);
    assert (NEWLINE + c)[1..] == c;
  }

  lemma BrokenAt(p: seq<int>, line: seq<int>)
    requires p != [] && Broken(p) == 0 && |p| < Width(p[0]) && line != [] && line[0] == 10
    ensures Broken(p + line) == |p| && (p + line)[|p|..] == line
  {
  }

  lemma BrokenOff(p: seq<int>, line: seq<int>)
    requires p != [] && Broken(p) == 0 && |p| < Width(p[0]) && line != [] && line[0] == 10
    ensures LossyText(p + line) == [REPLACEMENT] + LossyText(line) && LossyPending(p + line) == LossyPending(line)
  {
    BrokenAt(p, line);
    LossyStep(p + line);
  }

  /** Malformed bytes spoil nothing beyond their own line: decoding starts afresh after every
      newline byte. */
  lemma DamageIsLocal(b: seq<int>, c: seq<int>)
    ensures LossyText(b + (NEWLINE + c)) == Flushed(b) + (NEWLINE + LossyText(c))
    ensures LossyPending(b + (NEWLINE + c)) == LossyPending(c)
  {
    PendingIsIncomplete(b);
    LossyAppend(b, NEWLINE + c);
    LineStart(c);
    if LossyPending(b) == [] {
      assert [] + (NEWLINE + c) == NEWLINE + c;
    } else {
      BrokenOff(LossyPending(b), NEWLINE + c);
    }
  }
}
