/** strings.TrimSpace of Go, which works on the bytes of a string: it takes white-space code
    points off both ends and stops at the first byte that begins, or ends, no such code point,
    malformed bytes included. */
module GoStrings {
  import opened Text
  import opened Utf8

  // The bytes are one well-formed code point that is white space.
  predicate IsSpace(b: seq<int>) {
    b != [] && |b| == Width(b[0]) && Value(b) >= 0 && WhiteSpace(Value(b))
  }

  // How many bytes the white space at the front takes; no such code point takes more than three.
  function FrontSpace(s: seq<int>): (n: nat)
    ensures n <= |s|
  {
    if |s| >= 1 && IsSpace(s[..1]) then 1
    else if |s| >= 2 && IsSpace(s[..2]) then 2
    else if |s| >= 3 && IsSpace(s[..3]) then 3
    else 0
  }

  predicate SpaceEnds(s: seq<int>, n: nat) {
    n <= |s| && IsSpace(s[|s| - n..])
  }

  function BackSpace(s: seq<int>): (n: nat)
    ensures n <= |s|
  {
    if SpaceEnds(s, 1) then 1 else if SpaceEnds(s, 2) then 2 else if SpaceEnds(s, 3) then 3 else 0
  }

  function TrimLeft(s: seq<int>): seq<int> {
    if FrontSpace(s) == 0 then s else TrimLeft(s[FrontSpace(s)..])
  }

  function TrimRight(s: seq<int>): seq<int> {
    if BackSpace(s) == 0 then s else TrimRight(s[..|s| - BackSpace(s)])
  }

  function TrimSpace(s: seq<int>): seq<int> {
    TrimRight(TrimLeft(s))
  }

  // ---- on valid text this is trimming by code points ----

  lemma SpaceIsShort(c: int)
    requires WhiteSpace(c)
    ensures IsScalar(c) && |Encode1(c)| <= 3
  {
  }

  lemma IsSpaceEncode1(c: int)
    requires IsScalar(c)
    ensures IsSpace(Encode1(c)) <==> WhiteSpace(c)
  {
    Encode1Ready(c);
  }

  lemma Encode1Shape(c: int)
    requires IsScalar(c)
    ensures var e := Encode1(c);
            && 1 <= |e| <= 4 && |e| == Width(e[0]) && !Continuation(e[0])
            && forall i :: 1 <= i < |e| ==> Continuation(e[i])
  {
  }

  // A well-formed sequence has continuation bytes after its lead byte, and only there.
  lemma NotSpace(b: seq<int>, i: nat)
    requires i < |b| && (Continuation(b[i]) <==> i == 0)
    ensures !IsSpace(b)
  {
  }

  lemma FrontWrong(c: int, rest: seq<int>, k: nat)
    requires IsScalar(c) && 1 <= k <= |Encode1(c) + rest| && k != |Encode1(c)|
    ensures !IsSpace((Encode1(c) + rest)[..k])
  {
    Encode1Shape(c);
    assert (Encode1(c) + rest)[..k][0] == Encode1(c)[0];
  }

  lemma FrontSpaceOf(c: int, rest: seq<int>)
    requires IsScalar(c)
    ensures FrontSpace(Encode1(c) + rest) == if WhiteSpace(c) then |Encode1(c)| else 0
  {
    var e, s := Encode1(c), Encode1(c) + rest;
    Encode1Shape(c);
    assert s[..|e|] == e;
    IsSpaceEncode1(c);
    if WhiteSpace(c) {
      SpaceIsShort(c);
    }
    forall k | 1 <= k <= |s| && k != |e| ensures !IsSpace(s[..k]) {
      FrontWrong(c, rest, k);
    }
  }

  lemma {:induction false} TrimLeftText(t: seq<int>)
    requires AllScalar(t)
    ensures TrimLeft(Encode(t)) == Encode(TrimStart(t, WhiteSpace))
  {
    if t != [] {
      FrontSpaceOf(t[0], Encode(t[1..]));
      Encode1Shape(t[0]);
      if WhiteSpace(t[0]) {
        TrimLeftText(t[1..]);
        assert Encode(t)[|Encode1(t[0])|..] == Encode(t[1..]);
      }
    }
  }

  lemma BackWrong(p: seq<int>, e: seq<int>, c: int, k: nat)
    requires IsScalar(c) && e == Encode1(c) && 1 <= k <= |p| + |e| && k != |e|
    ensures !SpaceEnds(p + e, k)
  {
    var b := (p + e)[|p| + |e| - k..];
    Encode1Shape(c);
    if k < |e| {
      assert b[0] == e[|e| - k];
      NotSpace(b, 0);
    } else {
      assert b[k - |e|] == e[0];
      NotSpace(b, k - |e|);
    }
  }

  lemma BackRight(p: seq<int>, e: seq<int>, c: int)
    requires IsScalar(c) && e == Encode1(c)
    ensures SpaceEnds(p + e, |e|) <==> WhiteSpace(c)
  {
    assert (p + e)[|p + e| - |e|..] == e;
    IsSpaceEncode1(c);
    Encode1Shape(c);
  }

  lemma BackSpaceOf(p: seq<int>, e: seq<int>, c: int)
    requires IsScalar(c) && e == Encode1(c)
    ensures BackSpace(p + e) == if WhiteSpace(c) then |e| else 0
  {
    Encode1Shape(c);
    BackRight(p, e, c);
    if WhiteSpace(c) {
      SpaceIsShort(c);
    }
    forall k | 1 <= k <= |p| + |e| && k != |e| ensures !SpaceEnds(p + e, k) {
      BackWrong(p, e, c, k);
    }
  }

  lemma EncodeSnoc(t: seq<int>, c: int)
    ensures Encode(t + [c]) == Encode(t) + Encode1(c)
  {
    EncodeAppend(t, [c]);
    assert [c][1..] == [] && Encode([]) == [];
    assert Encode1(c) + [] == Encode1(c);
  }

  lemma {:induction false} TrimRightText(t: seq<int>)
    requires AllScalar(t)
    ensures TrimRight(Encode(t)) == Encode(TrimEnd(t, WhiteSpace))
  {
    if t != [] {
      var n := |t| - 1;
      var p, c := t[..n], t[n];
      assert t == p + [c];
      EncodeSnoc(p, c);
      BackSpaceOf(Encode(p), Encode1(c), c);
      Encode1Shape(c);
      if WhiteSpace(c) {
        TrimRightText(p);
        assert Encode(t)[..|Encode(t)| - |Encode1(c)|] == Encode(p);
      }
    }
  }

  lemma {:induction false} TrimStartScalar(t: seq<int>)
    requires AllScalar(t)
    ensures AllScalar(TrimStart(t, WhiteSpace))
  {
    if t != [] { TrimStartScalar(t[1..]); }
  }

  /** On well-formed text, trimming the bytes is trimming the code points. */
  lemma TrimSpaceText(t: seq<int>)
    requires AllScalar(t)
    ensures TrimSpace(Encode(t)) == Encode(Trim(t, WhiteSpace))
  {
    TrimLeftText(t);
    TrimStartScalar(t);
    TrimRightText(TrimStart(t, WhiteSpace));
  }
}
