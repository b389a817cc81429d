/** The changelog writer: write_changelog of xtask/src/changelog.rs, on the text of the file. */
module ChangelogWriter {
  import opened Options
  import opened Text

  const HEADING := [35, 35, 32, 91]       // "## ["
  const DASH := [93, 32, 45, 32]          // "] - "
  // "_No notable changes._\n"
  const NO_CHANGES := [95, 78, 111, 32, 110, 111, 116, 97, 98, 108, 101, 32, 99, 104, 97, 110, 103, 101, 115, 46, 95, 10]
  // "# Changelog\n\n"
  const TITLE := [35, 32, 67, 104, 97, 110, 103, 101, 108, 111, 103, 10, 10]

  function Heading(version: seq<int>, date: seq<int>): seq<int> {
    HEADING + version + DASH + date
  }

  function VersionHeading(version: seq<int>): seq<int> {
    HEADING + version + [93]
  }

  function SectionText(version: seq<int>, date: seq<int>, classified: seq<int>): seq<int> {
    Heading(version, date) + [10, 10] + if classified == [] then NO_CHANGES else classified
  }

  // str::lines: a carriage return goes with the newline behind it, and stays at the very end.
  function StripCr(line: seq<int>): seq<int> {
    if line != [] && line[|line| - 1] == 13 then line[..|line| - 1] else line
  }

  function Lines(content: seq<int>): seq<seq<int>> {
    var lines, rest := Complete(content, NEWLINE), Rest(content, NEWLINE);
    seq(|lines|, i requires 0 <= i < |lines| => StripCr(lines[i])) + if rest == [] then [] else [rest]
  }

  // push_str(line); push('\n') for each line
  function Unlines(lines: seq<seq<int>>): seq<int> {
    if lines == [] then [] else lines[0] + NEWLINE + Unlines(lines[1..])
  }

  // Regex::find of (?m)^prefix: the first position at a line start where the text goes on
  // with the prefix, or -1.
  function FindLine(s: seq<int>, prefix: seq<int>, atStart: bool): int {
    if atStart && StartsWith(s, prefix) then 0
    else if s == [] then -1
    else
      var r := FindLine(s[1..], prefix, s[0] == 10);
      if r < 0 then -1 else r + 1
  }

  // ---- the scan for the section to replace ----

  datatype Scan = Scan(start: Option<nat>, end: Option<nat>)

  function ScanLine(sc: Scan, line: seq<int>, i: nat, versionHeading: seq<int>): Scan {
    if StartsWith(line, versionHeading) then sc.(start := Some(i))
    else if sc.start.Some? && sc.end.None? && StartsWith(line, HEADING) then sc.(end := Some(i))
    else sc
  }

  // The scan of `lines`, the first of which has index `i`.
  function ScanLines(sc: Scan, lines: seq<seq<int>>, i: nat, versionHeading: seq<int>): Scan
    decreases |lines|
  {
    if lines == [] then sc
    else ScanLines(ScanLine(sc, lines[0], i, versionHeading), lines[1..], i + 1, versionHeading)
  }

  lemma {:induction false} ScanRange(sc: Scan, lines: seq<seq<int>>, i: nat, versionHeading: seq<int>)
    requires sc.start.Some? ==> sc.start.value < i
    requires sc.end.Some? ==> sc.end.value < i
    ensures var r := ScanLines(sc, lines, i, versionHeading);
            && (r.start.Some? ==> r.start.value < i + |lines|)
            && (r.end.Some? ==> r.end.value < i + |lines|)
    decreases |lines|
  {
    if lines != [] {
      ScanRange(ScanLine(sc, lines[0], i, versionHeading), lines[1..], i + 1, versionHeading);
    }
  }

  function Assemble(lines: seq<seq<int>>, sc: Scan, section: seq<int>): seq<int>
    requires sc.start.Some? && sc.start.value <= |lines| && (sc.end.Some? ==> sc.end.value <= |lines|)
  {
    Unlines(lines[..sc.start.value]) + section + NEWLINE +
    if sc.end.Some? then Unlines(lines[sc.end.value..]) else []
  }

  const NO_SCAN := Scan(None, None)

  function Replaced(content: seq<int>, version: seq<int>, section: seq<int>): seq<int> {
    var lines := Lines(content);
    var sc := ScanLines(NO_SCAN, lines, 0, VersionHeading(version));
    ScanRange(NO_SCAN, lines, 0, VersionHeading(version));
    if sc.start.Some? then Assemble(lines, sc, section) else content
  }

  function Written(existing: Option<seq<int>>, version: seq<int>, date: seq<int>, classified: seq<int>): seq<int> {
    var section := SectionText(version, date, classified);
    if existing.None? then TITLE + section + NEWLINE
    else
      var content := existing.value;
      if FindLine(content, VersionHeading(version), true) >= 0 then Replaced(content, version, section)
      else
        var pos := FindLine(content, HEADING, true);
        if 0 <= pos <= |content| then content[..pos] + section + NEWLINE + content[pos..]
        else content + NEWLINE + section + NEWLINE
  }

  // ---- the code ----

  method PushLines(result: seq<int>, lines: seq<seq<int>>) returns (r: seq<int>)
    ensures r == result + Unlines(lines)
  {
    r := result;
    var i := 0;
    assert lines[0..] == lines;
    while i < |lines|
      invariant 0 <= i <= |lines| && r + Unlines(lines[i..]) == result + Unlines(lines)
    {
      assert lines[i..][0] == lines[i] && lines[i..][1..] == lines[i + 1..];
      assert r + (lines[i] + NEWLINE + Unlines(lines[i + 1..])) == (r + lines[i] + NEWLINE) + Unlines(lines[i + 1..]);
      r := r + lines[i] + NEWLINE;
      i := i + 1;
    }
  }

  method FindSection(lines: seq<seq<int>>, version: seq<int>) returns (start: Option<nat>, end: Option<nat>)
    ensures Scan(start, end) == ScanLines(NO_SCAN, lines, 0, VersionHeading(version))
  {
    start, end := None, None;
    var heading := VersionHeading(version);
    var i := 0;
    assert lines[0..] == lines;
    while i < |lines|
      invariant 0 <= i <= |lines|
      invariant ScanLines(NO_SCAN, lines, 0, heading) == ScanLines(Scan(start, end), lines[i..], i, heading)
    {
      assert lines[i..][0] == lines[i] && lines[i..][1..] == lines[i + 1..];
      if StartsWith(lines[i], heading) {
        start := Some(i);
      } else if start.Some? && end.None? && StartsWith(lines[i], HEADING) {
        end := Some(i);
      }
      i := i + 1;
    }
  }

  method PushSection(lines: seq<seq<int>>, sc: Scan, section: seq<int>) returns (written: seq<int>)
    requires sc.start.Some? && sc.start.value <= |lines| && (sc.end.Some? ==> sc.end.value <= |lines|)
    ensures written == Assemble(lines, sc, section)
  {
    written := PushLines([], lines[..sc.start.value]);
    written := written + section + NEWLINE;
    if sc.end.Some? {
      written := PushLines(written, lines[sc.end.value..]);
    }
  }

  method ReplaceSection(content: seq<int>, version: seq<int>, section: seq<int>) returns (written: seq<int>)
    ensures written == Replaced(content, version, section)
  {
    var lines := Lines(content);
    var start, end := FindSection(lines, version);
    ScanRange(NO_SCAN, lines, 0, VersionHeading(version));
    written := content;
    if start.Some? {
      written := PushSection(lines, Scan(start, end), section);
    }
  }

  method WriteChangelog(existing: Option<seq<int>>, version: seq<int>, date: seq<int>, classified: seq<int>)
    returns (written: seq<int>)
    ensures written == Written(existing, version, date, classified)
  {
    var section := SectionText(version, date, classified);
    if existing.None? {
      return TITLE + section + NEWLINE;
    }
    var content := existing.value;
    if FindLine(content, VersionHeading(version), true) >= 0 {
      written := ReplaceSection(content, version, section);
    } else {
      var pos := FindLine(content, HEADING, true);
      if 0 <= pos <= |content| {
        written := content[..pos] + section + NEWLINE + content[pos..];
      } else {
        written := content + NEWLINE + section + NEWLINE;
      }
    }
  }
}
