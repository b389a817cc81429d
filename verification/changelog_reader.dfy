/** The feed generator's changelog parser: parseEntries of web/scripts/gen-rss.ts. */
module ChangelogReader {
  import opened Options
  import opened Text

  // ---- the heading regex ----

  // Where ^ and $ may match in multi-line mode: next to \n, \r, U+2028 or U+2029.
  predicate Terminator(c: int) {
    c == 10 || c == 13 || c == 0x2028 || c == 0x2029
  }

  predicate IsDigit(c: int) {
    48 <= c <= 57
  }

  // \d{4}-\d{2}-\d{2}
  predicate IsDate(d: seq<int>) {
    |d| == 10 && forall i :: 0 <= i < 10 ==> if i == 4 || i == 7 then d[i] == 45 else IsDigit(d[i])
  }

  // Length of the run matched by [^\]]+
  function VersionRun(s: seq<int>): (n: nat)
    ensures n <= |s|
  {
    if s == [] || s[0] == 93 then 0 else 1 + VersionRun(s[1..])
  }

  function SpaceRun(s: seq<int>): (n: nat)
    ensures n <= |s|
  {
    TrimStartShape(s, JsSpace);
    Lead(s, JsSpace)
  }

  // \s*$ : give white space back until the rest begins with a line end.
  function LineEnd(s: seq<int>, k: nat): (r: int)
    requires k <= |s|
    ensures r <= k
  {
    if k == |s| || Terminator(s[k]) then k else if k == 0 then -1 else LineEnd(s, k - 1)
  }

  datatype Match = Match(version: seq<int>, date: seq<int>, length: nat)

  // \s*-\s*(\d{4}-\d{2}-\d{2})\s*$ after the closing bracket; `before` units precede it
  function MatchDate(version: seq<int>, before: nat, s: seq<int>): (m: Option<Match>)
    ensures m.Some? ==> before < m.value.length <= before + |s|
  {
    var w := SpaceRun(s);
    if w >= |s| || s[w] != 45 then None
    else
      var t := s[w + 1..];
      var x := SpaceRun(t);
      if |t| - x < 10 || !IsDate(t[x..x + 10]) then None
      else
        var g := t[x + 10..];
        var k := LineEnd(g, SpaceRun(g));
        if k < 0 then None else Some(Match(version, t[x..x + 10], before + w + 1 + x + 10 + k))
  }

  // ([^\]]+)\] and the rest, after the opening bracket; `before` units precede it
  function MatchVersion(before: nat, s: seq<int>): (m: Option<Match>)
    ensures m.Some? ==> before < m.value.length <= before + |s|
  {
    var n := VersionRun(s);
    if n == 0 || n >= |s| then None else MatchDate(s[..n], before + n + 1, s[n + 1..])
  }

  // ^##\s+\[([^\]]+)\]\s*-\s*(\d{4}-\d{2}-\d{2})\s*$ at the front of s
  function MatchHead(s: seq<int>): (m: Option<Match>)
    ensures m.Some? ==> 0 < m.value.length <= |s|
  {
    if !StartsWith(s, [35, 35]) then None
    else
      var w := SpaceRun(s[2..]);
      if w == 0 || 2 + w >= |s| || s[2 + w] != 91 then None
      else MatchVersion(2 + w + 1, s[2 + w + 1..])
  }

  // ---- re.exec in a loop ----

  // What matches at each position.
  type Finder = nat -> Option<Match>

  // A match is not empty and stays inside the text, which is n units long.
  ghost predicate Sane(at: Finder, n: nat) {
    forall i: nat :: at(i).Some? ==> 0 < at(i).value.length && i + at(i).value.length <= n
  }

  predicate AtStart(md: seq<int>, i: nat)
    requires i <= |md|
  {
    i == 0 || Terminator(md[i - 1])
  }

  function MatchAt(md: seq<int>, i: nat): (m: Option<Match>)
    ensures m.Some? ==> 0 < m.value.length && i + m.value.length <= |md|
  {
    if i < |md| && AtStart(md, i) then MatchHead(md[i..]) else None
  }

  function Headings(md: seq<int>): Finder {
    (i: nat) => MatchAt(md, i)
  }

  lemma HeadingsSane(md: seq<int>)
    ensures Sane(Headings(md), |md|)
  {
  }

  datatype Head = Head(index: nat, length: nat, version: seq<int>, date: seq<int>)

  function HeadOf(m: Match, index: nat): Head {
    Head(index, m.length, m.version, m.date)
  }

  // The first match at or after position i.
  function Exec(at: Finder, n: nat, i: nat): (h: Option<Head>)
    requires Sane(at, n) && i <= n
    ensures h.Some? ==> i <= h.value.index && 0 < h.value.length && h.value.index + h.value.length <= n
    decreases n - i
  {
    if i == n then None
    else if at(i).Some? then Some(HeadOf(at(i).value, i))
    else Exec(at, n, i + 1)
  }

  // Every match at or after position i, left to right.
  function Heads(at: Finder, n: nat, i: nat): seq<Head>
    requires Sane(at, n) && i <= n
    decreases n - i
  {
    if i == n then []
    else if at(i).Some? then [HeadOf(at(i).value, i)] + Heads(at, n, i + at(i).value.length)
    else Heads(at, n, i + 1)
  }

  lemma {:induction false} HeadsByExec(at: Finder, n: nat, i: nat)
    requires Sane(at, n) && i <= n
    ensures var h := Exec(at, n, i);
            Heads(at, n, i) == if h.None? then [] else [h.value] + Heads(at, n, h.value.index + h.value.length)
    decreases n - i
  {
    if i < n && at(i).None? {
      HeadsByExec(at, n, i + 1);
    }
  }

  // Matches lie one after the other inside the text.
  ghost predicate Laid(heads: seq<Head>, from: int, end: int) {
    && (forall i :: 0 <= i < |heads| ==> from <= heads[i].index && heads[i].index + heads[i].length <= end)
    && (forall i :: 0 < i < |heads| ==> heads[i - 1].index + heads[i - 1].length <= heads[i].index)
  }

  lemma LaidCons(h: Head, heads: seq<Head>, from: int, end: int)
    requires Laid(heads, h.index + h.length, end) && from <= h.index && h.index + h.length <= end
    ensures Laid([h] + heads, from, end)
  {
  }

  lemma {:induction false} HeadsLaid(at: Finder, n: nat, i: nat)
    requires Sane(at, n) && i <= n
    ensures Laid(Heads(at, n, i), i, n)
    decreases n - i
  {
    HeadsByExec(at, n, i);
    var h := Exec(at, n, i);
    if h.Some? {
      var j := h.value.index + h.value.length;
      HeadsLaid(at, n, j);
      LaidCons(h.value, Heads(at, n, j), i, n);
    }
  }

  // ---- slicing into entries ----

  datatype Entry = Entry(version: seq<int>, date: seq<int>, body: seq<int>)

  function EntryAt(md: seq<int>, heads: seq<Head>, i: nat): Entry
    requires i < |heads| && heads[i].index + heads[i].length <= |md|
    requires i + 1 < |heads| ==> heads[i].index + heads[i].length <= heads[i + 1].index <= |md|
  {
    var start := heads[i].index + heads[i].length;
    var end := if i + 1 < |heads| then heads[i + 1].index else |md|;
    Entry(heads[i].version, heads[i].date, Trim(md[start..end], JsSpace))
  }

  // Every heading of the text.
  function AllHeads(md: seq<int>): (heads: seq<Head>)
    ensures Laid(heads, 0, |md|)
  {
    HeadingsSane(md);
    HeadsLaid(Headings(md), |md|, 0);
    Heads(Headings(md), |md|, 0)
  }

  // The uncapped parse.
  function AllEntries(md: seq<int>): (r: seq<Entry>)
    ensures |r| == |AllHeads(md)|
  {
    Entries(md, AllHeads(md))
  }

  function Entries(md: seq<int>, heads: seq<Head>): (r: seq<Entry>)
    requires Laid(heads, 0, |md|)
    ensures |r| == |heads|
  {
    seq(|heads|, i requires 0 <= i < |heads| => EntryAt(md, heads, i))
  }

  /** With its scan cap, the parser returns exactly the first `max` entries of the uncapped
      parse, for every text. */
  method ParseEntries(md: seq<int>, max: nat) returns (out: seq<Entry>)
    ensures out == AllEntries(md)[..if max < |AllEntries(md)| then max else |AllEntries(md)|]
  {
    HeadingsSane(md);
    var heads := ScanHeads(Headings(md), |md|, max);
    out := SliceEntries(md, heads, AllHeads(md), max);
  }

  // An entry among the first `max` is sliced as if no heading had been left out.
  lemma CapIsHarmless(md: seq<int>, heads: seq<Head>, all: seq<Head>, i: nat, max: nat)
    requires Laid(all, 0, |md|) && heads <= all && i < |heads| && i < max
    requires heads == all || |heads| >= 2 * max
    ensures i + 1 < |heads| <==> i + 1 < |all|
    ensures heads[i] == all[i] && (i + 1 < |heads| ==> heads[i + 1] == all[i + 1])
    ensures Entries(md, all)[..i + 1] == Entries(md, all)[..i] + [EntryAt(md, all, i)]
  {
  }

  method SliceEntries(md: seq<int>, heads: seq<Head>, ghost all: seq<Head>, max: nat) returns (out: seq<Entry>)
    requires Laid(all, 0, |md|) && heads <= all
    requires heads == all || (|heads| >= 2 * max && |heads| > 0)
    ensures out == Entries(md, all)[..if max < |all| then max else |all|]
  {
    out := [];
    var i := 0;
    while i < |heads| && |out| < max
      invariant 0 <= i <= |heads| && i == |out| <= max
      invariant out == Entries(md, all)[..i]
    {
      CapIsHarmless(md, heads, all, i, max);
      var start := heads[i].index + heads[i].length;
      var end := if i + 1 < |heads| then heads[i + 1].index else |md|;
      var body := Trim(md[start..end], JsSpace);
      out := out + [Entry(heads[i].version, heads[i].date, body)];
      i := i + 1;
    }
  }

  lemma Advance<T>(done: seq<T>, left: seq<T>, x: T, more: seq<T>)
    requires left == [x] + more
    ensures done + left == (done + [x]) + more
  {
  }

  // The regex loop: stops at the end of the matches or once 2 * max have been seen.
  method ScanHeads(at: Finder, n: nat, max: nat) returns (heads: seq<Head>)
    requires Sane(at, n)
    ensures heads <= Heads(at, n, 0)
    ensures heads == Heads(at, n, 0) || (|heads| >= 2 * max && |heads| > 0)
  {
    heads := [];
    var pos := 0;
    ghost var all := Heads(at, n, 0);
    ghost var left := all;
    while true
      invariant pos <= n
      invariant left == Heads(at, n, pos) && heads + left == all
      decreases n - pos
    {
      HeadsByExec(at, n, pos);
      var m := Exec(at, n, pos);
      if m.None? {
        assert heads + [] == heads;
        return;
      }
      pos := m.value.index + m.value.length;
      ghost var more := Heads(at, n, pos);
      Advance(heads, left, m.value, more);
      heads := heads + [m.value];
      left := more;
      if |heads| >= max * 2 {
        return;
      }
    }
  }
}
