/** The streaming hold-back accumulator of packages/whatsapp-gateway/index.js
    (createHoldbackAccumulator): text is held until it is clearly not a silent reply. */
module Holdback {
  import opened Text
  import opened SilentResponse

  const HOLDBACK_MIN_CHARS: nat := 32

  // ---- SILENT_PREFIX_RE ----

  datatype Class = Letter(code: int) | Space | UnderscoreOrSpace | SpaceOrStop
  datatype Item = One(cls: Class) | Opt(cls: Class) | Many(cls: Class)

  predicate InClass(u: int, cls: Class) {
    match cls
    case Letter(code) => u == code || (97 <= code <= 122 && u == code - 32)
    case Space => JsSpace(u)
    case UnderscoreOrSpace => u == 95 || JsSpace(u)
    case SpaceOrStop => JsSpace(u) || u == 46 || u == 33 || u == 63
  }

  // The whole of s matches the concatenation of the items.
  predicate Matches(items: seq<Item>, s: seq<int>)
    decreases |s|, |items|
  {
    if items == [] then s == []
    else
      var taken := s != [] && InClass(s[0], items[0].cls);
      match items[0]
      case One(_) => taken && Matches(items[1..], s[1..])
      case Opt(_) => Matches(items[1..], s) || (taken && Matches(items[1..], s[1..]))
      case Many(_) => Matches(items[1..], s) || (taken && Matches(items, s[1..]))
  }

  // \s*\[?\s*no[_\s]?reply
  const HEAD: seq<Item> := [Many(Space), Opt(Letter(91)), Many(Space), One(Letter(110)), One(Letter(111)),
    Opt(UnderscoreOrSpace), One(Letter(114)), One(Letter(101)), One(Letter(112)), One(Letter(108)), One(Letter(121))]
  // \s*needed
  const NEEDED: seq<Item> := [Many(Space), One(Letter(110)), One(Letter(101)), One(Letter(101)), One(Letter(100)),
    One(Letter(101)), One(Letter(100))]
  // \s*\]?\s*[\s.!?]*
  const TAIL: seq<Item> := [Many(Space), Opt(Letter(93)), Many(Space), Many(SpaceOrStop)]

  predicate LooksLikeSentinel(buf: seq<int>) {
    Matches(HEAD + NEEDED + TAIL, buf) || Matches(HEAD + TAIL, buf)
  }

  // ---- the gate as a value ----

  datatype Acc = Acc(buf: seq<int>, flushed: bool, sent: seq<seq<int>>)

  const EMPTY := Acc([], false, [])

  ghost predicate Releasable(buf: seq<int>, minChars: nat) {
    |Trim(buf, JsSpace)| >= minChars && !LooksLikeSentinel(buf) && !Silent(buf)
  }

  // Nothing worth delivering: blank or silent.
  ghost predicate Quiet(text: seq<int>) {
    Trim(text, JsSpace) == [] || Silent(text)
  }

  ghost function Push(a: Acc, delta: seq<int>, minChars: nat): Acc {
    if delta == [] then a
    else if a.flushed then a.(sent := a.sent + [delta])
    else
      var buf := a.buf + delta;
      if Releasable(buf, minChars) then Acc(buf, true, a.sent + [buf]) else a.(buf := buf)
  }

  ghost function PushAll(deltas: seq<seq<int>>, minChars: nat): Acc {
    if deltas == [] then EMPTY
    else Push(PushAll(deltas[..|deltas| - 1], minChars), deltas[|deltas| - 1], minChars)
  }

  ghost predicate EndsSilent(a: Acc) {
    !a.flushed && Quiet(a.buf)
  }

  ghost function End(a: Acc): Acc {
    if a.flushed || Quiet(a.buf) then a else Acc(a.buf, true, a.sent + [a.buf])
  }

  // ---- the code ----

  class Accumulator {
    const minChars: nat
    var buf: seq<int>
    var flushed: bool
    var sent: seq<seq<int>>    // the arguments of the onFlush calls, in order
    var silenced: seq<seq<int>> // the arguments of the onSilent calls

    ghost function Value(): Acc
      reads this
    {
      Acc(buf, flushed, sent)
    }

    constructor (minChars: nat)
      ensures this.minChars == minChars && Value() == EMPTY && silenced == []
    {
      this.minChars := minChars;
      buf, flushed, sent, silenced := [], false, [], [];
    }

    method OnFlush(text: seq<int>)
      modifies this`sent
      ensures sent == old(sent) + [text]
    {
      sent := sent + [text];
    }

    method PushDelta(delta: seq<int>)
      modifies this
      ensures Value() == Push(old(Value()), delta, minChars)
      ensures silenced == old(silenced)
    {
      if delta == [] {
        return;
      }
      if flushed {
        OnFlush(delta);
        return;
      }
      buf := buf + delta;
      var looksLikeSentinel := LooksLikeSentinel(buf);
      var silent := SilentResponse.IsSilentResponse(buf);
      if |Trim(buf, JsSpace)| >= minChars && !looksLikeSentinel && !silent {
        flushed := true;
        OnFlush(buf);
      }
    }

    method Finish() returns (silent: bool, didFlush: bool)
      modifies this
      ensures silent <==> EndsSilent(old(Value()))
      ensures didFlush <==> !silent
      ensures Value() == End(old(Value()))
      ensures silenced == if silent then old(silenced) + [buf] else old(silenced)
    {
      if flushed {
        return false, true;
      }
      var sentinel := SilentResponse.IsSilentResponse(buf);
      if |Trim(buf, JsSpace)| == 0 || sentinel {
        silenced := silenced + [buf];
        return true, false;
      }
      flushed := true;
      OnFlush(buf);
      return false, true;
    }
  }

  // ---- what every run keeps ----

  /** Up to the first flush the buffer is the whole text so far; from then on every unit
      received has been forwarded, in order.  The gate opens at the first non-empty delta
      after which the accumulated text is releasable. */
  lemma {:induction false} RunShape(deltas: seq<seq<int>>, minChars: nat)
    ensures var a := PushAll(deltas, minChars);
            && (a.flushed ==> Flatten(a.sent) == Flatten(deltas))
            && (!a.flushed ==> a.sent == [] && a.buf == Flatten(deltas))
            && (a.flushed <==> Opened(deltas, minChars))
  {
    if deltas != [] {
      var n := |deltas| - 1;
      var before, d := deltas[..n], deltas[n];
      RunShape(before, minChars);
      var a := PushAll(before, minChars);
      if a.flushed {
        FlattenConcat(a.sent, [d]);
        WholeInOne(d);
        assert d == [] ==> Flatten(before) + d == Flatten(before);
      } else {
        assert a.sent + [a.buf + d] == [a.buf + d];
        WholeInOne(a.buf + d);
        assert d == [] ==> a.buf + d == a.buf;
      }
    }
  }

  // After some non-empty delta the text accumulated so far was releasable.
  ghost predicate Opened(deltas: seq<seq<int>>, minChars: nat) {
    deltas != [] &&
    var n := |deltas| - 1;
    Opened(deltas[..n], minChars) || (deltas[n] != [] && Releasable(Flatten(deltas), minChars))
  }

  /** All or nothing: a finished stream has either delivered exactly the text it received,
      or delivered nothing and the whole text is blank or silent. */
  lemma AllOrNothing(deltas: seq<seq<int>>, minChars: nat)
    ensures var a := PushAll(deltas, minChars);
            if EndsSilent(a) then End(a).sent == [] && (Trim(Flatten(deltas), JsSpace) == [] || Silent(Flatten(deltas)))
            else Flatten(End(a).sent) == Flatten(deltas)
  {
    RunShape(deltas, minChars);
    var a := PushAll(deltas, minChars);
    assert [a.buf][..0] == [];
    assert a.sent == [] ==> a.sent + [a.buf] == [a.buf];
    assert Flatten([a.buf]) == a.buf;
  }

  ghost predicate ReleasesSome(text: seq<int>, minChars: nat) {
    exists n: nat :: 0 < n <= |text| && Releasable(text[..n], minChars)
  }

  lemma {:induction false} HeldWhenNothingReleases(deltas: seq<seq<int>>, text: seq<int>, minChars: nat)
    requires Flatten(deltas) <= text && !ReleasesSome(text, minChars)
    ensures !Opened(deltas, minChars)
  {
    if deltas != [] {
      var n, whole := |deltas| - 1, Flatten(deltas);
      var before := Flatten(deltas[..n]);
      assert before == whole[..|before|];
      assert before <= text;
      HeldWhenNothingReleases(deltas[..n], text, minChars);
      assert whole == text[..|whole|];
    }
  }

  /** A text is kept silent under every chunking exactly when it is blank or silent and no
      non-empty prefix of it could be released. */
  lemma SilentUnderEveryChunking(text: seq<int>, minChars: nat)
    ensures (forall deltas | Flatten(deltas) == text :: EndsSilent(PushAll(deltas, minChars)))
            <==> (Trim(text, JsSpace) == [] || Silent(text)) && !ReleasesSome(text, minChars)
  {
    if Quiet(text) && !ReleasesSome(text, minChars) {
      forall deltas | Flatten(deltas) == text ensures EndsSilent(PushAll(deltas, minChars)) {
        HeldWhenNothingReleases(deltas, text, minChars);
        RunShape(deltas, minChars);
      }
    } else if !Quiet(text) {
      WholeInOne(text);
      RunShape([text], minChars);
      assert !EndsSilent(PushAll([text], minChars));
    } else {
      var n: nat :| 0 < n <= |text| && Releasable(text[..n], minChars);
      CutAt(text, n, minChars);
    }
  }

  lemma CutAt(text: seq<int>, n: nat, minChars: nat)
    requires 0 < n <= |text| && Releasable(text[..n], minChars)
    ensures var cut := [text[..n], text[n..]];
            Flatten(cut) == text && PushAll(cut, minChars).flushed
  {
    var head := text[..n];
    var cut := [head, text[n..]];
    WholeInOne(head);
    assert cut[..1] == [head];
    assert Opened([head], minChars);
    RunShape([head], minChars);
  }

  lemma WholeInOne(text: seq<int>)
    ensures Flatten([text]) == text
  {
    assert [text][..0] == [];
  }

  // White space, one sentinel in any letter case, then any run of strippable units.
  predicate SentinelText(text: seq<int>, lead: seq<int>, sentinel: seq<int>, tail: seq<int>) {
    && text == lead + sentinel + tail
    && All(lead, JsSpace) && IsSentinel(Lower(sentinel)) && All(tail, Strippable)
  }

  lemma NothingReleases(text: seq<int>, lead: seq<int>, sentinel: seq<int>, tail: seq<int>, minChars: nat)
    requires SentinelText(text, lead, sentinel, tail) && minChars >= 16
    ensures Silent(text) && !ReleasesSome(text, minChars)
  {
    forall n: nat | 0 < n <= |text| ensures !Releasable(text[..n], minChars) {
      if n >= |lead| + |sentinel| {
        SentinelPrefix(lead, sentinel, tail, n);
      } else if n == |lead| + 16 {
        CutBeforeBracket(lead, sentinel, tail);
      } else {
        ShortPrefix(lead, sentinel, tail, n);
      }
    }
    SentinelPrefix(lead, sentinel, tail, |text|);
    assert text[..|text|] == text;
  }

  /** No partial sentinel leaks: such a text is kept silent however it is cut, for every
      threshold of at least 16 (the default is 32). */
  lemma NoPartialSentinelLeaks(lead: seq<int>, sentinel: seq<int>, tail: seq<int>,
                               deltas: seq<seq<int>>, minChars: nat)
    requires SentinelText(Flatten(deltas), lead, sentinel, tail) && minChars >= 16
    ensures EndsSilent(PushAll(deltas, minChars)) && End(PushAll(deltas, minChars)).sent == []
  {
    var text := Flatten(deltas);
    NothingReleases(text, lead, sentinel, tail, minChars);
    HeldWhenNothingReleases(deltas, text, minChars);
    RunShape(deltas, minChars);
  }

  // Every sentinel text is kept silent under every chunking.
  ghost predicate NeverLeaks(minChars: nat) {
    forall lead, sentinel, tail, deltas :: SentinelText(Flatten(deltas), lead, sentinel, tail) ==>
      EndsSilent(PushAll(deltas, minChars))
  }

  /** And 16 is the exact bound: at 15 or less the bracketed sentinel leaks when it arrives as
      "[no reply neede" and "d]". */
  lemma SafeThresholdIff(minChars: nat)
    ensures NeverLeaks(minChars) <==> minChars >= 16
  {
    if minChars >= 16 {
      forall lead, sentinel, tail, deltas | SentinelText(Flatten(deltas), lead, sentinel, tail)
        ensures EndsSilent(PushAll(deltas, minChars))
      {
        NoPartialSentinelLeaks(lead, sentinel, tail, deltas, minChars);
      }
    } else {
      LeaksAtFifteen(minChars);
    }
  }

  lemma LeaksAtFifteen(minChars: nat)
    requires minChars <= 15
    ensures !NeverLeaks(minChars)
  {
    CutReleases(minChars);
    CutAt(BRACKETED, 15, minChars);
    BracketedAlone();
    LeakShows([], BRACKETED, [], [BRACKETED[..15], BRACKETED[15..]], minChars);
  }

  lemma BracketedAlone()
    ensures SentinelText(BRACKETED, [], BRACKETED, [])
  {
    assert [] + BRACKETED + [] == BRACKETED;
    assert Lower(BRACKETED) == BRACKETED;
  }

  lemma LeakShows(lead: seq<int>, sentinel: seq<int>, tail: seq<int>, deltas: seq<seq<int>>, minChars: nat)
    requires SentinelText(Flatten(deltas), lead, sentinel, tail) && PushAll(deltas, minChars).flushed
    ensures !NeverLeaks(minChars)
  {
    assert !EndsSilent(PushAll(deltas, minChars));
  }

  lemma CutReleases(minChars: nat)
    requires minChars <= 15
    ensures Releasable(BRACKETED[..15], minChars)
  {
    var s := BRACKETED[..15];
    assert s[14] == 101 && s[0] == 91;
    TrimUnique(s, JsSpace, 0, 15);
    assert s[0..15] == s;
    forall a: nat, b: nat ensures !SilentAt(s, a, b) {
      EndsInE(s, a, b);
    }
    NoMatchInE(s);
  }

  // No sentinel ends in an "e".
  lemma EndsInE(s: seq<int>, a: nat, b: nat)
    requires s != [] && s[|s| - 1] == 101
    ensures !SentinelAt(s, a, b)
  {
    if a <= b < |s| {
      assert s[b..][|s| - 1 - b] == 101;
    } else if a < b == |s| {
      var x := s[a..b];
      assert x[|x| - 1] == 101 && Lower(x)[|x| - 1] == 101;
    }
  }

  // ---- what the prefix expression matches ----

  /** A match of a concatenation is a match of its two parts. */
  lemma {:induction false} SplitMatch(xs: seq<Item>, ys: seq<Item>, s: seq<int>) returns (k: nat)
    requires Matches(xs + ys, s)
    ensures k <= |s| && Matches(xs, s[..k]) && Matches(ys, s[k..])
    decreases |s|, |xs|
  {
    if xs == [] {
      assert xs + ys == ys && s[0..] == s && s[..0] == [];
      return 0;
    }
    var items := xs + ys;
    assert items[0] == xs[0] && items[1..] == xs[1..] + ys;
    if !xs[0].One? && Matches(items[1..], s) {
      k := SplitMatch(xs[1..], ys, s);
    } else {
      var more := if xs[0].Many? then xs else xs[1..];
      k := SplitMatch(more, ys, s[1..]);
      assert s[1..][..k] == s[..k + 1][1..] && s[1..][k..] == s[k + 1..];
      assert s[..k + 1][0] == s[0];
      k := k + 1;
    }
  }

  /** And the other way round. */
  lemma {:induction false} JoinMatch(xs: seq<Item>, ys: seq<Item>, s: seq<int>, t: seq<int>)
    requires Matches(xs, s) && Matches(ys, t)
    ensures Matches(xs + ys, s + t)
    decreases |s|, |xs|
  {
    if xs == [] {
      assert xs + ys == ys && s + t == t;
    } else {
      var items := xs + ys;
      assert items[0] == xs[0] && items[1..] == xs[1..] + ys;
      if !xs[0].One? && Matches(xs[1..], s) {
        JoinMatch(xs[1..], ys, s, t);
      } else {
        assert (s + t)[1..] == s[1..] + t && (s + t)[0] == s[0];
        JoinMatch(if xs[0].Many? then xs else xs[1..], ys, s[1..], t);
      }
    }
  }

  // Every unit of a match is in the class of some item.
  lemma {:induction false} LastIsInClass(items: seq<Item>, s: seq<int>)
    requires Matches(items, s) && s != []
    ensures exists i :: 0 <= i < |items| && InClass(s[|s| - 1], items[i].cls)
    decreases |s|, |items|
  {
    if !items[0].One? && Matches(items[1..], s) {
      LastIsInClass(items[1..], s);
      var i :| 0 <= i < |items[1..]| && InClass(s[|s| - 1], items[1..][i].cls);
      assert items[i + 1] == items[1..][i];
    } else if |s| > 1 {
      var more := if items[0].Many? then items else items[1..];
      LastIsInClass(more, s[1..]);
      var i :| 0 <= i < |more| && InClass(s[1..][|s| - 2], more[i].cls);
      assert items[if items[0].Many? then i else i + 1] == more[i];
    }
  }

  // Behind an "e" the tail matches nothing, and the words before it end in "d" and "y".
  lemma EndsInTail(words: seq<Item>, last: Class, s: seq<int>)
    requires s != [] && s[|s| - 1] == 101 && !InClass(101, last)
    ensures !Matches(words + [One(last)] + TAIL, s)
  {
    if Matches(words + [One(last)] + TAIL, s) {
      var k := SplitMatch(words + [One(last)], TAIL, s);
      if k < |s| {
        LastIsInClass(TAIL, s[k..]);
      } else {
        var j := SplitMatch(words, [One(last)], s[..k]);
        assert s[..k] == s;
        OneUnit(last, s[..k][j..]);
      }
    }
  }

  lemma OneUnit(cls: Class, s: seq<int>)
    requires Matches([One(cls)], s)
    ensures |s| == 1 && InClass(s[0], cls)
  {
    assert [One(cls)][1..] == [];
  }

  lemma NoMatchInE(s: seq<int>)
    requires s != [] && s[|s| - 1] == 101
    ensures !LooksLikeSentinel(s)
  {
    var y, d := Letter(121), Letter(100);
    EndsInTail(HEAD[..10], y, s);
    assert HEAD[..10] + [One(y)] == HEAD;
    EndsInTail(HEAD + NEEDED[..6], d, s);
    assert HEAD + NEEDED[..6] + [One(d)] == HEAD + NEEDED;
  }

  // s spells the word, in any letter case.
  predicate CaseOf(s: seq<int>, word: seq<int>) {
    |s| == |word| && forall i :: 0 <= i < |s| ==> s[i] == word[i] || (97 <= word[i] <= 122 && s[i] == word[i] - 32)
  }

  function Letters(word: seq<int>): seq<Item> {
    if word == [] then [] else [One(Letter(word[0]))] + Letters(word[1..])
  }

  lemma CaseSlice(s: seq<int>, word: seq<int>, a: nat, b: nat)
    requires CaseOf(s, word) && a <= b <= |s|
    ensures CaseOf(s[a..b], word[a..b])
  {
  }

  const NO := [110, 111]
  const REPLY := [114, 101, 112, 108, 121]
  const NEED := [110, 101, 101, 100, 101, 100]

  // "[no reply needed"
  const CUT := [91, 110, 111, 32, 114, 101, 112, 108, 121, 32, 110, 101, 101, 100, 101, 100]

  lemma CutSpells()
    ensures CUT[1..3] == NO && CUT[3] == 32 && CUT[4..9] == REPLY && CUT[10..16] == NEED
  {
    assert CUT[1..3][0] == 110 && CUT[1..3][1] == 111;
    assert forall i :: 0 <= i < 5 ==> CUT[4..9][i] == CUT[4 + i] == REPLY[i];
    assert forall i :: 0 <= i < 6 ==> CUT[10..16][i] == CUT[10 + i] == NEED[i];
  }

  lemma LettersAre()
    ensures HEAD == [Many(Space), Opt(Letter(91)), Many(Space)] + (Letters(NO) + [Opt(UnderscoreOrSpace)] + Letters(REPLY))
    ensures NEEDED == [Many(Space)] + Letters(NEED)
  {
    LettersCons(NO);
    LettersCons(REPLY);
    LettersCons(NEED);
  }

  lemma {:induction false} LettersCons(word: seq<int>)
    ensures |Letters(word)| == |word| && forall i :: 0 <= i < |word| ==> Letters(word)[i] == One(Letter(word[i]))
  {
    if word != [] { LettersCons(word[1..]); }
  }

  // ---- the expression in so many words ----

  // Some of `last`, with at most one c in front, and white space in front of that.
  ghost predicate Around(c: char, last: int -> bool, s: seq<int>) {
    All(s, last) || exists i: nat :: AroundAt(c, last, s, i)
  }

  ghost predicate AroundAt(c: char, last: int -> bool, s: seq<int>, i: nat) {
    i < |s| && s[i] == c as int && All(s[..i], JsSpace) && All(s[i + 1..], last)
  }

  // "no" and "reply", with at most an underscore or a white-space unit between them.
  predicate NoReply(s: seq<int>) {
    || CaseOf(s, Codes("noreply"))
    || (|s| == 8 && CaseOf(s[..2], Codes("no")) && (s[2] == '_' as int || JsSpace(s[2])) && CaseOf(s[3..], Codes("reply")))
  }

  ghost predicate Needing(s: seq<int>) {
    exists i :: 0 <= i <= |s| && All(s[..i], JsSpace) && CaseOf(s[i..], Codes("needed"))
  }

  predicate SpaceOrMark(u: int) {
    JsSpace(u) || u == '.' as int || u == '!' as int || u == '?' as int
  }

  ghost predicate CutInto(s: seq<int>, a: nat, b: nat, c: nat) {
    a <= b <= c <= |s| && Around('[', JsSpace, s[..a]) && NoReply(s[a..b])
    && (b == c || Needing(s[b..c])) && Around(']', SpaceOrMark, s[c..])
  }

  lemma ManyMeans(cls: Class, s: seq<int>)
    ensures Matches([Many(cls)], s) <==> forall i :: 0 <= i < |s| ==> InClass(s[i], cls)
  {
    assert [Many(cls)][1..] == [];
    if s != [] {
      ManyMeans(cls, s[1..]);
      assert forall i :: 0 < i < |s| ==> s[i] == s[1..][i - 1];
    }
  }

  lemma OptMeans(cls: Class, s: seq<int>)
    ensures Matches([Opt(cls)], s) <==> s == [] || (|s| == 1 && InClass(s[0], cls))
  {
    assert [Opt(cls)][1..] == [];
  }

  lemma {:induction false} WordMeans(word: seq<int>, s: seq<int>)
    ensures Matches(Letters(word), s) <==> CaseOf(s, word)
  {
    if word != [] {
      assert Letters(word)[1..] == Letters(word[1..]);
      if s != [] {
        WordMeans(word[1..], s[1..]);
        assert forall i :: 0 < i < |s| ==> s[i] == s[1..][i - 1];
        assert forall i :: 0 < i < |word| ==> word[i] == word[1..][i - 1];
      }
    }
  }

  ghost predicate MatchAt(xs: seq<Item>, ys: seq<Item>, s: seq<int>, k: nat) {
    k <= |s| && Matches(xs, s[..k]) && Matches(ys, s[k..])
  }

  /** A text matches a concatenation exactly when it can be cut into a match of each part. */
  lemma MatchCut(xs: seq<Item>, ys: seq<Item>, s: seq<int>)
    ensures Matches(xs + ys, s) <==> exists k: nat :: MatchAt(xs, ys, s, k)
  {
    if Matches(xs + ys, s) {
      var k := SplitMatch(xs, ys, s);
      assert MatchAt(xs, ys, s, k);
    }
    if k: nat :| MatchAt(xs, ys, s, k) {
      JoinMatch(xs, ys, s[..k], s[k..]);
      assert s[..k] + s[k..] == s;
    }
  }

  // The items for a run of white space, an optional bracket, and a run of `cls`.
  lemma AroundMeans(c: char, cls: Class, last: int -> bool, s: seq<int>)
    requires c < 'a' && forall u :: InClass(u, cls) <==> last(u)
    requires forall u :: JsSpace(u) ==> last(u)
    ensures Matches([Many(Space)] + ([Opt(Letter(c as int))] + [Many(cls)]), s) <==> Around(c, last, s)
  {
    var opt := Letter(c as int);
    if Matches([Many(Space)] + ([Opt(opt)] + [Many(cls)]), s) {
      var k := SplitMatch([Many(Space)], [Opt(opt)] + [Many(cls)], s);
      var j := SplitMatch([Opt(opt)], [Many(cls)], s[k..]);
      ManyMeans(Space, s[..k]);
      OptMeans(opt, s[k..][..j]);
      ManyMeans(cls, s[k..][j..]);
      AroundFound(c, last, s, k, j);
    }
    if All(s, last) {
      AroundMatches(opt, cls, [], [], s);
      assert [] + ([] + s) == s;
    }
    if i: nat :| AroundAt(c, last, s, i) {
      AroundMatches(opt, cls, s[..i], [s[i]], s[i + 1..]);
      assert s[..i] + ([s[i]] + s[i + 1..]) == s;
    }
  }

  lemma AroundFound(c: char, last: int -> bool, s: seq<int>, k: nat, j: nat)
    requires k + j <= |s| && j <= 1 && All(s[..k], JsSpace) && All(s[k..][j..], last)
    requires j == 1 ==> s[k..][..j][0] == c as int
    requires forall u :: JsSpace(u) ==> last(u)
    ensures Around(c, last, s)
  {
    assert s[k..][j..] == s[k + j..];
    if j == 1 {
      assert AroundAt(c, last, s, k);
    } else {
      forall i | 0 <= i < |s| ensures last(s[i]) {
        if i < k { assert s[..k][i] == s[i]; } else { assert s[k..][i - k] == s[i]; }
      }
    }
  }

  lemma AroundMatches(opt: Class, cls: Class, x: seq<int>, y: seq<int>, z: seq<int>)
    requires All(x, JsSpace) && (y == [] || (|y| == 1 && InClass(y[0], opt))) && forall i :: 0 <= i < |z| ==> InClass(z[i], cls)
    ensures Matches([Many(Space)] + ([Opt(opt)] + [Many(cls)]), x + (y + z))
  {
    ManyMeans(Space, x);
    OptMeans(opt, y);
    ManyMeans(cls, z);
    JoinMatch([Opt(opt)], [Many(cls)], y, z);
    JoinMatch([Many(Space)], [Opt(opt)] + [Many(cls)], x, y + z);
  }

  // White space before a run that takes white space anyway adds nothing.
  lemma TwoRuns(s: seq<int>)
    ensures Matches([Many(Space)] + [Many(SpaceOrStop)], s) <==> Matches([Many(SpaceOrStop)], s)
  {
    if Matches([Many(Space)] + [Many(SpaceOrStop)], s) {
      var k := SplitMatch([Many(Space)], [Many(SpaceOrStop)], s);
      ManyMeans(Space, s[..k]);
      ManyMeans(SpaceOrStop, s[k..]);
      assert forall i :: 0 <= i < k ==> s[i] == s[..k][i];
      assert forall i :: k <= i < |s| ==> s[i] == s[k..][i - k];
      ManyMeans(SpaceOrStop, s);
    }
    if Matches([Many(SpaceOrStop)], s) {
      ManyMeans(Space, []);
      JoinMatch([Many(Space)], [Many(SpaceOrStop)], [], s);
      assert [] + s == s;
    }
  }

  lemma TailMeans(s: seq<int>)
    ensures Matches(TAIL, s) <==> Around(']', SpaceOrMark, s)
  {
    var front := [Many(Space), Opt(Letter(93))];
    assert TAIL == front + ([Many(Space)] + [Many(SpaceOrStop)]);
    assert front + [Many(SpaceOrStop)] == [Many(Space)] + ([Opt(Letter(93))] + [Many(SpaceOrStop)]);
    AroundMeans(']', SpaceOrStop, SpaceOrMark, s);
    MatchCut(front, [Many(Space)] + [Many(SpaceOrStop)], s);
    MatchCut(front, [Many(SpaceOrStop)], s);
    forall k: nat ensures MatchAt(front, [Many(Space)] + [Many(SpaceOrStop)], s, k) <==> MatchAt(front, [Many(SpaceOrStop)], s, k) {
      if k <= |s| { TwoRuns(s[k..]); }
    }
  }

  lemma NeededMeans(s: seq<int>)
    ensures Matches(NEEDED, s) <==> Needing(s)
  {
    LettersAre();
    WordsSpelled();
    MatchCut([Many(Space)], Letters(NEED), s);
    forall k: nat | k <= |s|
      ensures MatchAt([Many(Space)], Letters(NEED), s, k) <==> All(s[..k], JsSpace) && CaseOf(s[k..], Codes("needed"))
    {
      ManyMeans(Space, s[..k]);
      WordMeans(NEED, s[k..]);
    }
  }

  lemma WordsSpelled()
    ensures NO == Codes("no") && REPLY == Codes("reply") && NEED == Codes("needed") && NO + REPLY == Codes("noreply")
  {
  }

  lemma NoReplyMeans(s: seq<int>)
    ensures Matches(Letters(NO) + ([Opt(UnderscoreOrSpace)] + Letters(REPLY)), s) <==> NoReply(s)
  {
    WordsSpelled();
    if Matches(Letters(NO) + ([Opt(UnderscoreOrSpace)] + Letters(REPLY)), s) {
      var k := SplitMatch(Letters(NO), [Opt(UnderscoreOrSpace)] + Letters(REPLY), s);
      var j := SplitMatch([Opt(UnderscoreOrSpace)], Letters(REPLY), s[k..]);
      WordMeans(NO, s[..k]);
      OptMeans(UnderscoreOrSpace, s[k..][..j]);
      WordMeans(REPLY, s[k..][j..]);
      NoReplyFound(s, j);
    }
    if CaseOf(s, Codes("noreply")) {
      CaseSlice(s, NO + REPLY, 0, 2);
      CaseSlice(s, NO + REPLY, 2, 7);
      assert (NO + REPLY)[0..2] == NO && (NO + REPLY)[2..7] == REPLY;
      NoReplyMatches(s[0..2], [], s[2..7]);
      assert s[0..2] + ([] + s[2..7]) == s;
    }
    if |s| == 8 && CaseOf(s[..2], NO) && (s[2] == '_' as int || JsSpace(s[2])) && CaseOf(s[3..], REPLY) {
      NoReplyMatches(s[..2], [s[2]], s[3..]);
      assert s[..2] + ([s[2]] + s[3..]) == s;
    }
  }

  lemma NoReplyFound(s: seq<int>, j: nat)
    requires 2 + j <= |s| && j <= 1 && CaseOf(s[..2], NO) && CaseOf(s[2..][j..], REPLY)
    requires j == 1 ==> InClass(s[2..][..j][0], UnderscoreOrSpace)
    ensures NoReply(s)
  {
    WordsSpelled();
    assert s[2..][j..] == s[2 + j..];
    if j == 0 {
      assert s == s[..2] + s[2..];
      forall i | 0 <= i < 7 ensures s[i] == (NO + REPLY)[i] || (97 <= (NO + REPLY)[i] <= 122 && s[i] == (NO + REPLY)[i] - 32) {
        assert if i < 2 then s[i] == s[..2][i] else s[i] == s[2..][i - 2];
      }
    }
  }

  lemma NoReplyMatches(x: seq<int>, y: seq<int>, z: seq<int>)
    requires CaseOf(x, NO) && (y == [] || (|y| == 1 && InClass(y[0], UnderscoreOrSpace))) && CaseOf(z, REPLY)
    ensures Matches(Letters(NO) + ([Opt(UnderscoreOrSpace)] + Letters(REPLY)), x + (y + z))
  {
    WordMeans(NO, x);
    OptMeans(UnderscoreOrSpace, y);
    WordMeans(REPLY, z);
    JoinMatch([Opt(UnderscoreOrSpace)], Letters(REPLY), y, z);
    JoinMatch(Letters(NO), [Opt(UnderscoreOrSpace)] + Letters(REPLY), x, y + z);
  }

  const OPENING: seq<Item> := [Many(Space)] + ([Opt(Letter(91))] + [Many(Space)])
  const WORDS: seq<Item> := Letters(NO) + ([Opt(UnderscoreOrSpace)] + Letters(REPLY))

  lemma HeadIs()
    ensures HEAD == OPENING + WORDS
  {
    LettersAre();
    assert OPENING == [Many(Space), Opt(Letter(91)), Many(Space)];
    assert WORDS == Letters(NO) + [Opt(UnderscoreOrSpace)] + Letters(REPLY);
  }

  lemma HeadAt(s: seq<int>, a: nat)
    requires a <= |s|
    ensures MatchAt(OPENING, WORDS, s, a) <==> Around('[', JsSpace, s[..a]) && NoReply(s[a..])
  {
    AroundMeans('[', Space, JsSpace, s[..a]);
    NoReplyMeans(s[a..]);
  }

  lemma HeadMeans(s: seq<int>)
    ensures Matches(HEAD, s) <==> exists a: nat :: a <= |s| && Around('[', JsSpace, s[..a]) && NoReply(s[a..])
  {
    HeadIs();
    MatchCut(OPENING, WORDS, s);
    forall a: nat | a <= |s| ensures MatchAt(OPENING, WORDS, s, a) <==> Around('[', JsSpace, s[..a]) && NoReply(s[a..]) {
      HeadAt(s, a);
    }
  }

  lemma Slices(s: seq<int>, a: nat, b: nat, c: nat)
    requires a <= b <= c <= |s|
    ensures s[..c][..b] == s[..b] && s[..b][..a] == s[..a] && s[..b][a..] == s[a..b] && s[..c][b..] == s[b..c]
  {
  }

  lemma PrefixCuts(s: seq<int>)
    requires LooksLikeSentinel(s)
    ensures exists a: nat, b: nat, c: nat :: CutInto(s, a, b, c)
  {
    var b, c: nat := 0, 0;
    if Matches(HEAD + NEEDED + TAIL, s) {
      c := SplitMatch(HEAD + NEEDED, TAIL, s);
      b := SplitMatch(HEAD, NEEDED, s[..c]);
      NeededMeans(s[..c][b..]);
    } else {
      b := SplitMatch(HEAD, TAIL, s);
      c := b;
    }
    TailMeans(s[c..]);
    Slices(s, 0, b, c);
    HeadMeans(s[..b]);
    var a: nat :| a <= b && Around('[', JsSpace, s[..b][..a]) && NoReply(s[..b][a..]);
    Slices(s, a, b, c);
    assert CutInto(s, a, b, c);
  }

  lemma CutsMatch(s: seq<int>, a: nat, b: nat, c: nat)
    requires CutInto(s, a, b, c)
    ensures LooksLikeSentinel(s)
  {
    Slices(s, a, b, c);
    HeadMeans(s[..b]);
    TailMeans(s[c..]);
    if b == c {
      JoinMatch(HEAD, TAIL, s[..b], s[c..]);
      assert s[..b] + s[c..] == s;
    } else {
      NeededMeans(s[b..c]);
      JoinMatch(HEAD, NEEDED, s[..b], s[b..c]);
      JoinMatch(HEAD + NEEDED, TAIL, s[..b] + s[b..c], s[c..]);
      assert s[..b] + s[b..c] + s[c..] == s;
    }
  }

  /** The prefix expression matches white space around an optional "[", "no" and "reply" in any
      case with at most one separator, possibly "needed", and a closing that may hold a "]". */
  lemma PrefixMeans(s: seq<int>)
    ensures LooksLikeSentinel(s) <==> exists a: nat, b: nat, c: nat :: CutInto(s, a, b, c)
  {
    if LooksLikeSentinel(s) {
      PrefixCuts(s);
    }
    if a: nat, b: nat, c: nat :| CutInto(s, a, b, c) {
      CutsMatch(s, a, b, c);
    }
  }

  // "[no reply needed" in any case, with white space in front.
  lemma CutLooksLikeSentinel(lead: seq<int>, s: seq<int>)
    requires All(lead, JsSpace) && |s| == 16 && Lower(s) == CUT
    ensures LooksLikeSentinel(lead + s)
  {
    var t, n := lead + s, |lead|;
    LettersOf(s);
    WordsSpelled();
    assert t[..n + 1] == lead + [91] && AroundAt('[', JsSpace, t[..n + 1], n);
    CutNoReply(s);
    assert t[n + 1..n + 9] == s[1..9] && t[n + 9..n + 16] == s[9..] && t[n + 16..] == [];
    CutsMatch(t, n + 1, n + 9, n + 16);
  }

  lemma LettersOf(s: seq<int>)
    requires |s| == 16 && Lower(s) == CUT
    ensures CaseOf(s, CUT)
  {
    forall i | 0 <= i < 16
      ensures s[i] == CUT[i] || (97 <= CUT[i] <= 122 && s[i] == CUT[i] - 32)
    {
      assert Lower(s)[i] == LowerUnit(s[i]) == CUT[i];
    }
  }

  lemma CutNoReply(s: seq<int>)
    requires CaseOf(s, CUT)
    ensures NoReply(s[1..9]) && Needing(s[9..])
  {
    WordsSpelled();
    CutSpells();
    CaseSlice(s, CUT, 1, 3);
    CaseSlice(s, CUT, 4, 9);
    CaseSlice(s, CUT, 10, 16);
    assert s[1..9][..2] == s[1..3] && s[1..9][2] == s[3] && s[1..9][3..] == s[4..9];
    assert s[9..][1..] == s[10..16] && s[9..][..1] == [s[9]];
  }

  // The longest proper prefix, "[no reply needed", is held by the prefix expression.
  lemma CutBeforeBracket(lead: seq<int>, sentinel: seq<int>, tail: seq<int>)
    requires All(lead, JsSpace) && IsSentinel(Lower(sentinel)) && |sentinel| > 16
    ensures LooksLikeSentinel((lead + sentinel + tail)[..|lead| + 16])
  {
    assert |Lower(sentinel)| == |sentinel|;
    assert Lower(sentinel) == BRACKETED;
    var s := sentinel[..16];
    assert Lower(s) == Lower(sentinel)[..16] == CUT;
    CutLooksLikeSentinel(lead, s);
    assert (lead + sentinel + tail)[..|lead| + 16] == lead + s;
  }

  lemma ShortPrefix(lead: seq<int>, sentinel: seq<int>, tail: seq<int>, n: nat)
    requires All(lead, JsSpace) && IsSentinel(Lower(sentinel))
    requires n < |lead| + |sentinel| && n != |lead| + 16
    ensures |Trim((lead + sentinel + tail)[..n], JsSpace)| <= 15
  {
    var p := (lead + sentinel + tail)[..n];
    if n <= |lead| {
      assert p == lead[..n];
      TrimBlank(p, JsSpace);
    } else {
      assert p[..|lead|] == lead;
      assert p[n..] == [];
      TrimPadded(p, JsSpace, |lead|, n);
      TrimShape(p[|lead|..n], JsSpace);
      assert |sentinel| == |Lower(sentinel)| <= 17;
    }
  }

  lemma SentinelPrefix(lead: seq<int>, sentinel: seq<int>, tail: seq<int>, n: nat)
    requires All(lead, JsSpace) && IsSentinel(Lower(sentinel)) && All(tail, Strippable)
    requires |lead| + |sentinel| <= n <= |lead| + |sentinel| + |tail|
    ensures Silent((lead + sentinel + tail)[..n])
  {
    var p, a, b := (lead + sentinel + tail)[..n], |lead|, |lead| + |sentinel|;
    assert p[a..b] == sentinel;
    assert p[b..] == tail[..n - b];
    assert p[..a] == lead;
    assert Boundary(lead);
    assert SilentAt(p, a, b);
  }

  /** Below the threshold the outcome does not depend on the chunking at all. */
  lemma ShortTextIgnoresChunking(xs: seq<seq<int>>, ys: seq<seq<int>>, minChars: nat)
    requires Flatten(xs) == Flatten(ys) && |Trim(Flatten(xs), JsSpace)| < minChars
    ensures EndsSilent(PushAll(xs, minChars)) <==> Trim(Flatten(xs), JsSpace) == [] || Silent(Flatten(xs))
    ensures End(PushAll(xs, minChars)) == End(PushAll(ys, minChars))
  {
    var text := Flatten(xs);
    forall n: nat | 0 < n <= |text| ensures !Releasable(text[..n], minChars) {
      TrimOfPrefix(text, JsSpace, n);
    }
    HeldWhenNothingReleases(xs, text, minChars);
    HeldWhenNothingReleases(ys, text, minChars);
    RunShape(xs, minChars);
    RunShape(ys, minChars);
  }

  /** Past the threshold it can: this reply is silent when it arrives whole, but has already
      been forwarded when it arrives in these two pieces. */
  lemma LongReplyMayHaveLeaked()
    ensures HOLDBACK_MIN_CHARS == 32
    ensures var body := seq(32, i => 120);
            var suffix := Codes(" no_reply");
            && EndsSilent(PushAll([body + suffix], 32))
            && PushAll([body, suffix], 32).sent == [body, suffix]
  {
    var body := seq(HOLDBACK_MIN_CHARS, i => 120);
    var suffix := [32] + TOKEN;
    var whole := body + suffix;
    SilentResponse.Spelled();
    assert suffix == Codes(" no_reply");
    SuffixIsSilent(body);
    AppendedInOne(whole, HOLDBACK_MIN_CHARS);
    PlainBody(body);
    assert [body, suffix][..1] == [body];
    assert PushAll([body], HOLDBACK_MIN_CHARS) == Push(EMPTY, body, HOLDBACK_MIN_CHARS);
    assert [] + body == body;
  }

  lemma SuffixIsSilent(body: seq<int>)
    ensures Silent(body + ([32] + TOKEN))
  {
    var whole, n := body + ([32] + TOKEN), |body|;
    assert whole[n + 1..n + 9] == TOKEN && whole[n + 9..] == [] && whole[..n + 1][n] == 32;
    assert Lower(TOKEN) == TOKEN;
    assert SilentAt(whole, n + 1, n + 9);
  }

  lemma AppendedInOne(text: seq<int>, minChars: nat)
    requires Silent(text)
    ensures EndsSilent(PushAll([text], minChars))
  {
    WholeInOne(text);
    RunShape([text], minChars);
    assert [text][..0] == [];
  }

  lemma PlainBody(body: seq<int>)
    requires body == seq(HOLDBACK_MIN_CHARS, i => 120)
    ensures Releasable(body, HOLDBACK_MIN_CHARS)
  {
    TrimUnique(body, JsSpace, 0, 32);
    assert body[0..32] == body;
    forall a: nat, b: nat ensures !SilentAt(body, a, b) {
      if a <= b <= |body| && IsSentinel(Lower(body[a..b])) {
        SentinelUnits(body, a, b);
      }
    }
    NoPrefixMatch(body);
  }

  lemma NoPrefixMatch(s: seq<int>)
    requires s != [] && s[0] == 120
    ensures !LooksLikeSentinel(s)
  {
    var long, short := HEAD + NEEDED + TAIL, HEAD + TAIL;
    assert long[0] == short[0] == Many(Space);
    assert long[1..][0] == short[1..][0] == Opt(Letter(91));
    assert long[1..][1..][0] == short[1..][1..][0] == Many(Space);
    assert long[1..][1..][1..][0] == short[1..][1..][1..][0] == One(Letter(110));
    assert !Matches(long[1..][1..][1..], s) && !Matches(short[1..][1..][1..], s);
    assert !Matches(long[1..][1..], s) && !Matches(short[1..][1..], s);
    assert !Matches(long[1..], s) && !Matches(short[1..], s);
  }
}
