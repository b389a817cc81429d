/** Sequences of code units or code points, and the white-space sets of the
    languages the repository is written in.  A text is a `seq<int>`: UTF-16 code
    units for JavaScript strings, Unicode scalar values for Rust and Go strings. */
module Text {

  // The set stripped by String.prototype.trim and matched by \s in JavaScript.
  predicate JsSpace(c: int) {
    9 <= c <= 13 || c == 32 || c == 0xA0 || c == 0x1680 || 0x2000 <= c <= 0x200A ||
    c == 0x2028 || c == 0x2029 || c == 0x202F || c == 0x205F || c == 0x3000 || c == 0xFEFF
  }

  // The Unicode White_Space property: Rust's char::is_whitespace, Go's unicode.IsSpace.
  predicate WhiteSpace(c: int) {
    9 <= c <= 13 || c == 32 || c == 0x85 || c == 0xA0 || c == 0x1680 || 0x2000 <= c <= 0x200A ||
    c == 0x2028 || c == 0x2029 || c == 0x202F || c == 0x205F || c == 0x3000
  }

  // The code units of an ASCII literal.
  function Codes(s: string): (r: seq<int>)
    ensures |r| == |s|
  {
    seq(|s|, i requires 0 <= i < |s| => s[i] as int)
  }

  function TrimStart(s: seq<int>, space: int -> bool): seq<int> {
    if s == [] || !space(s[0]) then s else TrimStart(s[1..], space)
  }

  function TrimEnd(s: seq<int>, space: int -> bool): seq<int> {
    if s == [] || !space(s[|s| - 1]) then s else TrimEnd(s[..|s| - 1], space)
  }

  function Trim(s: seq<int>, space: int -> bool): seq<int> {
    TrimEnd(TrimStart(s, space), space)
  }

  // How much white space Trim takes off the front.
  function Lead(s: seq<int>, space: int -> bool): nat {
    if s == [] || !space(s[0]) then 0 else 1 + Lead(s[1..], space)
  }

  predicate All(s: seq<int>, space: int -> bool) {
    forall i :: 0 <= i < |s| ==> space(s[i])
  }

  lemma {:induction false} TrimStartShape(s: seq<int>, space: int -> bool)
    ensures var k := Lead(s, space);
            && k <= |s| && TrimStart(s, space) == s[k..]
            && All(s[..k], space)
            && (k < |s| ==> !space(s[k]))
  {
    if s != [] && space(s[0]) {
      TrimStartShape(s[1..], space);
      var k := Lead(s[1..], space);
      assert s[1..][k..] == s[k + 1..];
      assert s[..k + 1] == [s[0]] + s[1..][..k];
    }
  }

  lemma {:induction false} TrimEndShape(s: seq<int>, space: int -> bool)
    ensures var t := TrimEnd(s, space);
            && |t| <= |s| && t == s[..|t|]
            && All(s[|t|..], space)
            && (t != [] ==> !space(t[|t| - 1]))
  {
    if s != [] && space(s[|s| - 1]) {
      var n := |s| - 1;
      TrimEndShape(s[..n], space);
      var t := TrimEnd(s[..n], space);
      assert s[|t|..] == s[..n][|t|..] + [s[n]];
    }
  }

  lemma {:induction false} TrimEndUnique(s: seq<int>, space: int -> bool, b: nat)
    requires b <= |s| && All(s[b..], space) && (b > 0 ==> !space(s[b - 1]))
    ensures TrimEnd(s, space) == s[..b]
  {
    if b == |s| {
      assert s[..b] == s;
    } else {
      var n := |s| - 1;
      assert s[b..][n - b] == s[n];
      assert s[..n][b..] == s[b..][..n - b];
      TrimEndUnique(s[..n], space, b);
      assert s[..n][..b] == s[..b];
    }
  }

  lemma TrimShape(s: seq<int>, space: int -> bool)
    ensures var t, k := Trim(s, space), Lead(s, space);
            && k + |t| <= |s|
            && t == s[k..k + |t|]
            && All(s[..k], space)
            && All(s[k + |t|..], space)
            && (t != [] ==> !space(t[0]) && !space(t[|t| - 1]))
  {
    TrimStartShape(s, space);
    TrimEndShape(TrimStart(s, space), space);
    var t, k := Trim(s, space), Lead(s, space);
    assert s[k..][..|t|] == s[k..k + |t|];
    assert s[k..][|t|..] == s[k + |t|..];
  }

  /** The trimmed text is the unique stretch that has only white space around it and
      neither begins nor ends with white space. */
  lemma TrimUnique(s: seq<int>, space: int -> bool, a: nat, b: nat)
    requires a < b <= |s|
    requires All(s[..a], space) && All(s[b..], space)
    requires !space(s[a]) && !space(s[b - 1])
    ensures Trim(s, space) == s[a..b]
  {
    TrimShape(s, space);
    var t, k := Trim(s, space), Lead(s, space);
    assert !(a < k);
    assert s[k] == t[0];
    assert s[k + |t| - 1] == t[|t| - 1];
  }

  /** Trimming a stretch of blank text leaves nothing. */
  lemma TrimBlank(s: seq<int>, space: int -> bool)
    requires All(s, space)
    ensures Trim(s, space) == []
  {
    TrimShape(s, space);
    var t := Trim(s, space);
  }

  lemma {:induction false} TrimDropLast(s: seq<int>, space: int -> bool)
    requires s != [] && space(s[|s| - 1])
    ensures Trim(s, space) == Trim(s[..|s| - 1], space)
  {
    var n := |s| - 1;
    if !space(s[0]) {
      assert !space(s[..n][0]);
    } else if n > 0 {
      TrimDropLast(s[1..], space);
      assert s[1..][..n - 1] == s[..n][1..];
    }
  }

  lemma SliceOfTail<T>(s: seq<T>, a: nat, b: nat)
    requires 1 <= a <= b <= |s|
    ensures s[1..][a - 1..b - 1] == s[a..b]
  {
  }

  lemma SliceOfFront<T>(s: seq<T>, a: nat, b: nat)
    requires a <= b < |s|
    ensures s[..|s| - 1][a..b] == s[a..b]
  {
  }

  /** White space around a text does not change what is left of it. */
  lemma {:induction false} TrimPadded(s: seq<int>, space: int -> bool, a: nat, b: nat)
    requires a <= b <= |s|
    requires All(s[..a], space) && All(s[b..], space)
    ensures Trim(s, space) == Trim(s[a..b], space)
  {
    if a > 0 {
      TrimPadded(s[1..], space, a - 1, b - 1);
      SliceOfTail(s, a, b);
    } else if b < |s| {
      TrimDropLast(s, space);
      TrimPadded(s[..|s| - 1], space, a, b);
      SliceOfFront(s, a, b);
    } else {
      assert s[a..b] == s;
    }
  }

  /** A prefix of a text trims to no more than the whole text does. */
  lemma TrimOfPrefix(s: seq<int>, space: int -> bool, n: nat)
    requires n <= |s|
    ensures |Trim(s[..n], space)| <= |Trim(s, space)|
  {
    TrimShape(s[..n], space);
    var t, k := Trim(s[..n], space), Lead(s[..n], space);
    if t != [] {
      assert t[0] == s[k] && t[|t| - 1] == s[k + |t| - 1];
      SolidInside(s, space, k);
      SolidInside(s, space, k + |t| - 1);
    }
  }

  lemma SolidInside(s: seq<int>, space: int -> bool, q: nat)
    requires q < |s| && !space(s[q])
    ensures Lead(s, space) <= q < Lead(s, space) + |Trim(s, space)|
  {
    TrimShape(s, space);
    var m := Lead(s, space) + |Trim(s, space)|;
    forall i | m <= i < |s| ensures space(s[i]) {
      assert s[i] == s[m..][i - m];
    }
  }

  lemma Reassociate<T>(a: seq<T>, b: seq<T>, c: seq<T>)
    ensures (a + b) + c == a + (b + c)
  {
  }

  lemma CutInFirst<T>(a: seq<T>, b: seq<T>, n: nat)
    requires n <= |a|
    ensures (a + b)[..n] == a[..n] && (a + b)[n..] == a[n..] + b
  {
  }

  lemma LastApart<T>(a: seq<T>, b: seq<T>)
    requires b != []
    ensures a + b == (a + b[..|b| - 1]) + [b[|b| - 1]] && b == b[..|b| - 1] + [b[|b| - 1]]
  {
  }

  function Flatten<T>(parts: seq<seq<T>>): seq<T> {
    if parts == [] then [] else Flatten(parts[..|parts| - 1]) + parts[|parts| - 1]
  }

  lemma {:induction false} FlattenConcat<T>(xs: seq<seq<T>>, ys: seq<seq<T>>)
    ensures Flatten(xs + ys) == Flatten(xs) + Flatten(ys)
  {
    if ys == [] {
      assert xs + ys == xs;
    } else {
      var n := |ys| - 1;
      FlattenConcat(xs, ys[..n]);
      assert (xs + ys)[..|xs + ys| - 1] == xs + ys[..n];
    }
  }

  lemma FlattenCut<T>(parts: seq<seq<T>>, n: nat)
    requires n <= |parts|
    ensures Flatten(parts) == Flatten(parts[..n]) + Flatten(parts[n..])
    ensures n == |parts| ==> Flatten(parts) == Flatten(parts[..n])
  {
    FlattenConcat(parts[..n], parts[n..]);
    assert parts == parts[..n] + parts[n..];
    assert n == |parts| ==> parts == parts[..n];
  }

  predicate StartsWith(s: seq<int>, prefix: seq<int>) {
    prefix <= s
  }

  /** String.prototype.split: the parts between the non-overlapping occurrences of sep,
      found from the left.  The last part is what follows the last occurrence. */
  function Split(s: seq<int>, sep: seq<int>): (parts: seq<seq<int>>)
    requires sep != []
    ensures parts != []
  {
    if |s| < |sep| then [s]
    else if sep <= s then [[]] + Split(s[|sep|..], sep)
    else
      var rest := Split(s[1..], sep);
      [[s[0]] + rest[0]] + rest[1..]
  }

  function Complete(s: seq<int>, sep: seq<int>): seq<seq<int>>
    requires sep != []
  {
    var parts := Split(s, sep);
    parts[..|parts| - 1]
  }

  function Rest(s: seq<int>, sep: seq<int>): seq<int>
    requires sep != []
  {
    var parts := Split(s, sep);
    parts[|parts| - 1]
  }

  /** Cutting a stream anywhere, even inside a separator or a run of separators, and
      carrying the unfinished part over gives the parts of the uncut stream. */
  lemma {:induction false} SplitAppend(x: seq<int>, y: seq<int>, sep: seq<int>)
    requires sep != []
    ensures Split(x + y, sep) == Complete(x, sep) + Split(Rest(x, sep) + y, sep)
  {
    var n := |sep|;
    var carry := Rest(x, sep) + y;
    if |x| < n {
      assert Complete(x, sep) == [] && Rest(x, sep) == x;
      assert [] + Split(x + y, sep) == Split(x + y, sep);
    } else if sep <= x {
      SplitAppend(x[n..], y, sep);
      CutInFirst(x, y, n);
      assert Complete(x, sep) == [[]] + Complete(x[n..], sep);
      assert Split(x + y, sep) == [[]] + (Complete(x[n..], sep) + Split(carry, sep));
    } else {
      SplitAppend(x[1..], y, sep);
      assert !(sep <= x + y) by { assert (x + y)[..n] == x[..n]; }
      assert (x + y)[1..] == x[1..] + y;
      SplitHead(x, y, sep);
    }
  }

  lemma {:induction false} SplitHead(x: seq<int>, y: seq<int>, sep: seq<int>)
    requires sep != [] && |x| >= |sep| && !(sep <= x) && !(sep <= x + y)
    requires Split(x[1..] + y, sep) == Complete(x[1..], sep) + Split(Rest(x[1..], sep) + y, sep)
    ensures Split(x + y, sep) == Complete(x, sep) + Split(Rest(x, sep) + y, sep)
  {
    var tail, whole := Split(x[1..], sep), Split(x[1..] + y, sep);
    if |tail| > 1 {
      assert (x + y)[1..] == x[1..] + y && (x + y)[0] == x[0];
      Regroup([x[0]], tail, Split(Rest(x[1..], sep) + y, sep), whole, Split(x, sep), Split(x + y, sep));
    } else {
      HeadOnly(x, sep);
      assert [] + Split(x + y, sep) == Split(x + y, sep);
    }
  }

  lemma HeadOnly(x: seq<int>, sep: seq<int>)
    requires sep != [] && |x| >= |sep| && !(sep <= x) && |Split(x[1..], sep)| == 1
    ensures Complete(x, sep) == [] && Rest(x, sep) == x
  {
    SplitSingle(x[1..], sep);
    assert [x[0]] + x[1..] == x;
  }

  // Gluing `a` to the first part, before and after more parts take the place of the last one.
  lemma Regroup(a: seq<int>, tail: seq<seq<int>>, more: seq<seq<int>>, whole: seq<seq<int>>,
                glued: seq<seq<int>>, result: seq<seq<int>>)
    requires |tail| > 1 && whole == tail[..|tail| - 1] + more
    requires glued == [a + tail[0]] + tail[1..] && result == [a + whole[0]] + whole[1..]
    ensures result == glued[..|glued| - 1] + more && glued[|glued| - 1] == tail[|tail| - 1]
  {
  }

  lemma {:induction false} SplitSingle(s: seq<int>, sep: seq<int>)
    requires sep != [] && |Split(s, sep)| == 1
    ensures Split(s, sep) == [s]
  {
    if |sep| <= |s| && !(sep <= s) {
      SplitSingle(s[1..], sep);
      assert s == [s[0]] + s[1..];
    }
  }

  /** The unfinished part holds no separator. */
  lemma RestIsSingle(x: seq<int>, sep: seq<int>)
    requires sep != []
    ensures Split(Rest(x, sep), sep) == [Rest(x, sep)]
  {
    SplitAppend(x, [], sep);
    assert x + [] == x && Rest(x, sep) + [] == Rest(x, sep);
    SplitSingle(Rest(x, sep), sep);
  }

  /** Putting the parts back with the separator between them restores the text. */
  lemma {:induction false} JoinSplit(s: seq<int>, sep: seq<int>)
    requires sep != []
    ensures Join(Split(s, sep), sep) == s
  {
    if |s| >= |sep| {
      if sep <= s {
        JoinSplit(s[|sep|..], sep);
        JoinBlank(Split(s[|sep|..], sep), sep);
        assert s == sep + s[|sep|..];
      } else {
        JoinSplit(s[1..], sep);
        JoinCons(s[0], Split(s[1..], sep), sep);
        assert s == [s[0]] + s[1..];
      }
    }
  }

  function Join(parts: seq<seq<int>>, sep: seq<int>): seq<int>
    requires parts != []
  {
    if |parts| == 1 then parts[0] else parts[0] + sep + Join(parts[1..], sep)
  }

  lemma JoinBlank(parts: seq<seq<int>>, sep: seq<int>)
    requires parts != []
    ensures Join([[]] + parts, sep) == sep + Join(parts, sep)
  {
    assert ([[]] + parts)[1..] == parts;
    assert [] + sep == sep;
  }

  lemma JoinCons(c: int, parts: seq<seq<int>>, sep: seq<int>)
    requires parts != []
    ensures Join([[c] + parts[0]] + parts[1..], sep) == [c] + Join(parts, sep)
  {
    var more := [[c] + parts[0]] + parts[1..];
    assert more[1..] == parts[1..];
    if |parts| > 1 {
      assert ([c] + parts[0]) + sep + Join(parts[1..], sep) == [c] + (parts[0] + sep + Join(parts[1..], sep));
    }
  }

  /** No complete part contains the separator, and neither does the unfinished one. */
  lemma {:induction false} PartsAreFree(s: seq<int>, sep: seq<int>, k: nat, i: nat)
    requires sep != [] && k < |Split(s, sep)| && i <= |Split(s, sep)[k]|
    ensures !(sep <= Split(s, sep)[k][i..])
  {
    if |s| >= |sep| {
      if sep <= s {
        if k > 0 {
          PartsAreFree(s[|sep|..], sep, k - 1, i);
        }
      } else {
        var rest := Split(s[1..], sep);
        if k > 0 {
          PartsAreFree(s[1..], sep, k, i);
        } else if i > 0 {
          PartsAreFree(s[1..], sep, 0, i - 1);
          assert ([s[0]] + rest[0])[i..] == rest[0][i - 1..];
        } else {
          FirstPart(s, sep);
        }
      }
    }
  }

  lemma {:induction false} FirstPart(s: seq<int>, sep: seq<int>)
    requires sep != []
    ensures Split(s, sep)[0] <= s
  {
    if |s| >= |sep| && !(sep <= s) {
      FirstPart(s[1..], sep);
    }
  }

  const NEWLINE := [10]

  lemma {:induction false} SplitPlain(p: seq<int>, s: seq<int>)
    requires forall i :: 0 <= i < |p| ==> p[i] != 10
    ensures Split(p + s, NEWLINE) == [p + Split(s, NEWLINE)[0]] + Split(s, NEWLINE)[1..]
  {
    if p == [] {
      var parts := Split(s, NEWLINE);
      assert p + s == s && p + parts[0] == parts[0];
      assert parts == [parts[0]] + parts[1..];
    } else {
      SplitPlain(p[1..], s);
      assert (p + s)[1..] == p[1..] + s;
      var first := Split(s, NEWLINE)[0];
      assert [p[0]] + (p[1..] + first) == p + first;
      assert !(NEWLINE <= p + s);
    }
  }

  lemma SplitNewline(s: seq<int>)
    ensures Split(NEWLINE + s, NEWLINE) == [[]] + Split(s, NEWLINE)
  {
    assert (NEWLINE + s)[1..] == s;
  }
}
