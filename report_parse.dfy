/** Parsing one daily Markdown report (scripts/generate-index.js): the
    `## H:MM` time entries, the title, the summary and the word count.

    A report is a string; `split('\n')` cuts it into lines. Each regular
    expression of the script is written out as the character test it
    performs, backtracking included. */
module ReportParse {

  import opened Wrappers
  import opened Strings

  /** One `{ time, content }` element of a report's `timeEntries`. */
  datatype TimeEntry = TimeEntry(time: string, content: string)

  // ---------------------------------------------------------------------
  // Time headings: /^##\s+(\d{1,2}:\d{2})$/

  /** `\d{1,2}:\d{2}` matching a whole string. */
  predicate IsClock(t: string) {
    || (|t| == 4 && IsDigit(t[0]) && t[1] == ':' && IsDigit(t[2]) && IsDigit(t[3]))
    || (|t| == 5 && IsDigit(t[0]) && IsDigit(t[1]) && t[2] == ':' && IsDigit(t[3]) && IsDigit(t[4]))
  }

  /** The time captured when a whole line matches `/^##\s+(\d{1,2}:\d{2})$/`.
      The greedy `\s+` must stop right before the first digit, since a digit
      is not white space; `$` (no multiline flag) is the end of the line. */
  function HeadingTime(line: string): (r: Option<string>)
    ensures r.Some? ==> IsClock(r.value)
  {
    if |line| >= 2 && line[..2] == "##" then
      var q := 2 + SpaceRun(line[2..]);
      if q > 2 && IsClock(line[q..]) then Some(line[q..]) else None
    else None
  }

  /** The heading line the desktop client writes, `## ` followed by a clock
      time, is recognised with that time. */
  lemma ClockHeading(time: string)
    requires IsClock(time)
    ensures HeadingTime("## " + time) == Some(time)
  {
    var line := "## " + time;
    assert line[..2] == "##";
    assert SpaceRun(line[2..]) == 1 by {
      assert line[2..] == " " + time;
      assert (" " + time)[1..] == time;
      assert !IsSpace(time[0]);
      assert SpaceRun(time) == 0;
    }
    assert line[3..] == time;
  }

  // ---------------------------------------------------------------------
  // Reference definition of the entries: cut the lines at the headings.

  /** A line of the report with the time its heading captured, if it is a
      time heading. */
  datatype Line = Line(text: string, time: Option<string>)

  /** Every line tagged with the result of the heading test. */
  function Tag(lines: seq<string>): (r: seq<Line>)
    ensures |r| == |lines|
    ensures forall i :: 0 <= i < |r| ==> r[i] == Line(lines[i], HeadingTime(lines[i]))
  {
    seq(|lines|, i requires 0 <= i < |lines| => Line(lines[i], HeadingTime(lines[i])))
  }

  lemma TagAppend(a: seq<string>, b: seq<string>)
    ensures Tag(a + b) == Tag(a) + Tag(b)
  {
  }

  function Texts(ls: seq<Line>): (r: seq<string>)
    ensures |r| == |ls|
    ensures forall i :: 0 <= i < |r| ==> r[i] == ls[i].text
  {
    seq(|ls|, i requires 0 <= i < |ls| => ls[i].text)
  }

  lemma TextsSnoc(ls: seq<Line>, l: Line)
    ensures Texts(ls + [l]) == Texts(ls) + [l.text]
  {
  }

  predicate HeadingFree(ls: seq<Line>) {
    forall i :: 0 <= i < |ls| ==> ls[i].time.None?
  }

  /** Index of the first time-heading line, or `|ls|` when there is none
      (`NextHeadingIsFirst` states both halves). */
  function NextHeading(ls: seq<Line>): (n: nat)
    ensures n <= |ls|
  {
    if |ls| == 0 then 0
    else if ls[0].time.Some? then 0
    else 1 + NextHeading(ls[1..])
  }

  /** No line before `NextHeading(ls)` is a time heading, and the line there,
      if any, is one. */
  lemma {:induction false} NextHeadingIsFirst(ls: seq<Line>)
    ensures forall i :: 0 <= i < NextHeading(ls) ==> ls[i].time.None?
    ensures NextHeading(ls) < |ls| ==> ls[NextHeading(ls)].time.Some?
  {
    if |ls| > 0 && ls[0].time.None? {
      NextHeadingIsFirst(ls[1..]);
      forall i | 1 <= i < NextHeading(ls) ensures ls[i].time.None? {
        assert ls[i] == ls[1..][i - 1];
      }
    }
  }

  /** Searching a concatenation finds the first part's heading, else searches
      the second part. */
  lemma {:induction false} NextHeadingAppend(a: seq<Line>, b: seq<Line>)
    ensures NextHeading(a) < |a| ==> NextHeading(a + b) == NextHeading(a)
    ensures NextHeading(a) == |a| ==> NextHeading(a + b) == |a| + NextHeading(b)
  {
    if |a| > 0 {
      assert (a + b)[0] == a[0];
      if a[0].time.None? {
        assert (a + b)[1..] == a[1..] + b;
        NextHeadingAppend(a[1..], b);
      }
    } else {
      assert a + b == b;
    }
  }

  /** The first time heading is at `k`. */
  lemma {:induction false} FirstHeadingAt(ls: seq<Line>, k: nat)
    requires k <= |ls|
    requires forall i :: 0 <= i < k ==> ls[i].time.None?
    requires k < |ls| ==> ls[k].time.Some?
    ensures NextHeading(ls) == k
  {
    if k > 0 {
      assert ls[0].time.None?;
      FirstHeadingAt(ls[1..], k - 1);
    }
  }

  /** A heading's captured time and the lines that follow it up to the next
      heading. */
  datatype Section = Section(time: string, body: seq<Line>)

  /** The sections of a text that starts right after a heading of time
      `time` and continues with `body`: the first section takes the body up
      to the next heading; that heading starts the next section. */
  function SectionsFrom(time: string, body: seq<Line>): seq<Section>
    decreases |body|
  {
    var n := NextHeading(body);
    [Section(time, body[..n])]
    + (if n < |body| then NextHeadingIsFirst(body); SectionsFrom(body[n].time.value, body[n + 1..]) else [])
  }

  /** The sections of a tagged text: lines before the first heading belong
      to none. */
  function SectionsOf(ls: seq<Line>): seq<Section> {
    var n := NextHeading(ls);
    if n == |ls| then [] else NextHeadingIsFirst(ls); SectionsFrom(ls[n].time.value, ls[n + 1..])
  }

  /** A section as an entry: its lines joined with newlines and trimmed. */
  function EntryOf(s: Section): TimeEntry {
    TimeEntry(s.time, Trim(Join(Texts(s.body), '\n')))
  }

  function EntriesOfSections(sections: seq<Section>): (r: seq<TimeEntry>)
    ensures |r| == |sections|
    ensures forall k :: 0 <= k < |r| ==> r[k] == EntryOf(sections[k])
  {
    seq(|sections|, k requires 0 <= k < |sections| => EntryOf(sections[k]))
  }

  lemma EntriesOfSectionsAppend(a: seq<Section>, b: seq<Section>)
    ensures EntriesOfSections(a + b) == EntriesOfSections(a) + EntriesOfSections(b)
  {
    var joined := EntriesOfSections(a + b);
    var parts := EntriesOfSections(a) + EntriesOfSections(b);
    forall k | 0 <= k < |joined| ensures joined[k] == parts[k] {
      if k < |a| {
        assert (a + b)[k] == a[k];
      } else {
        assert (a + b)[k] == b[k - |a|];
      }
    }
  }

  /** The entries of a report's text: one per section, in order. */
  function EntriesOf(content: string): seq<TimeEntry> {
    EntriesOfSections(SectionsOf(Tag(Split(content, '\n'))))
  }

  /** A heading right after heading-free lines closes the current section. */
  lemma CloseSection(time: string, current: seq<Line>, rest: seq<Line>)
    requires HeadingFree(current) && |rest| > 0 && rest[0].time.Some?
    ensures SectionsFrom(time, current + rest)
         == [Section(time, current)] + SectionsFrom(rest[0].time.value, rest[1..])
  {
    var body := current + rest;
    FirstHeadingAt(body, |current|);
    assert body[..|current|] == current;
    assert body[|current| + 1..] == rest[1..];
  }

  /** Heading-free lines at the end of the text form the last section. */
  lemma LastSection(time: string, current: seq<Line>)
    requires HeadingFree(current)
    ensures SectionsFrom(time, current) == [Section(time, current)]
  {
    FirstHeadingAt(current, |current|);
    assert current[..|current|] == current;
  }

  // ---------------------------------------------------------------------
  // extractTimeEntries

  /** The state of the walk before line `i`: `closed` are the sections
      already pushed, `time` the current heading's time (none before the
      first heading) and `current` the lines collected under it. */
  predicate Walked(tagged: seq<Line>, i: nat, closed: seq<Section>, time: Option<string>, current: seq<Line>)
    requires i <= |tagged|
  {
    && (time.None? ==> closed == [] && current == [] && forall j :: 0 <= j < i ==> tagged[j].time.None?)
    && (time.Some? ==> HeadingFree(current)
                       && closed + SectionsFrom(time.value, current + tagged[i..]) == SectionsOf(tagged))
  }

  /** The first heading line opens the first section. */
  lemma WalkFirstHeading(tagged: seq<Line>, i: nat)
    requires i < |tagged| && tagged[i].time.Some?
    requires Walked(tagged, i, [], None, [])
    ensures Walked(tagged, i + 1, [], tagged[i].time, [])
  {
    var sections := SectionsFrom(tagged[i].time.value, tagged[i + 1..]);
    assert SectionsOf(tagged) == sections by {
      FirstHeadingAt(tagged, i);
    }
    assert [] + tagged[i + 1..] == tagged[i + 1..];
    assert [] + sections == sections;
  }

  /** A later heading line closes the current section and opens its own. */
  lemma WalkNextHeading(tagged: seq<Line>, i: nat, closed: seq<Section>, time: string, current: seq<Line>)
    requires i < |tagged| && tagged[i].time.Some?
    requires Walked(tagged, i, closed, Some(time), current)
    ensures Walked(tagged, i + 1, closed + [Section(time, current)], tagged[i].time, [])
  {
    var section := Section(time, current);
    var next := SectionsFrom(tagged[i].time.value, tagged[i + 1..]);
    assert SectionsFrom(time, current + tagged[i..]) == [section] + next by {
      var rest := tagged[i..];
      assert rest[1..] == tagged[i + 1..];
      CloseSection(time, current, rest);
    }
    assert [] + tagged[i + 1..] == tagged[i + 1..];
    assert closed + [section] + next == closed + ([section] + next);
  }

  /** Any other line joins the current section, if any. */
  lemma WalkLine(tagged: seq<Line>, i: nat, closed: seq<Section>, time: Option<string>, current: seq<Line>)
    requires i < |tagged| && tagged[i].time.None?
    requires Walked(tagged, i, closed, time, current)
    ensures Walked(tagged, i + 1, closed, time, if time.Some? then current + [tagged[i]] else current)
  {
    if time.Some? {
      assert (current + [tagged[i]]) + tagged[i + 1..] == current + tagged[i..];
    }
  }

  /** At the end of the text the current section, if any, is the last one. */
  lemma WalkEnd(tagged: seq<Line>, closed: seq<Section>, time: Option<string>, current: seq<Line>)
    requires Walked(tagged, |tagged|, closed, time, current)
    ensures (if time.Some? then closed + [Section(time.value, current)] else closed) == SectionsOf(tagged)
  {
    if time.Some? {
      assert current + tagged[|tagged|..] == current;
      LastSection(time.value, current);
    } else {
      FirstHeadingAt(tagged, |tagged|);
    }
  }

  /** Pushing the entry built from the collected lines closes their section. */
  lemma PushEntry(entries: seq<TimeEntry>, closed: seq<Section>, time: string, current: seq<Line>, content: seq<string>)
    requires entries == EntriesOfSections(closed) && content == Texts(current)
    ensures entries + [TimeEntry(time, Trim(Join(content, '\n')))]
         == EntriesOfSections(closed + [Section(time, current)])
  {
    var section := Section(time, current);
    assert EntryOf(section) == TimeEntry(time, Trim(Join(content, '\n')));
    assert EntriesOfSections([section]) == [EntryOf(section)];
    EntriesOfSectionsAppend(closed, [section]);
  }

  /** `extractTimeEntries`: walks the lines keeping the current time and the
      lines collected under it, and pushes an entry whenever a new heading or
      the end of the text closes a section. */
  method ExtractTimeEntries(content: string) returns (entries: seq<TimeEntry>)
    ensures entries == EntriesOf(content)
  {
    var lines := Split(content, '\n');
    ghost var tagged := Tag(lines);
    entries := [];
    var currentTime: Option<string> := None;
    var currentContent: seq<string> := [];
    ghost var currentLines: seq<Line> := [];
    ghost var closed: seq<Section> := [];
    for i := 0 to |lines|
      invariant entries == EntriesOfSections(closed)
      invariant currentContent == Texts(currentLines)
      invariant Walked(tagged, i, closed, currentTime, currentLines)
    {
      var line := lines[i];
      var timeMatch := HeadingTime(line);
      assert tagged[i] == Line(line, timeMatch);
      if timeMatch.Some? {
        if currentTime.None? {
          WalkFirstHeading(tagged, i);
        } else {
          WalkNextHeading(tagged, i, closed, currentTime.value, currentLines);
          PushEntry(entries, closed, currentTime.value, currentLines, currentContent);
          closed := closed + [Section(currentTime.value, currentLines)];
          entries := entries + [TimeEntry(currentTime.value, Trim(Join(currentContent, '\n')))];
        }
        currentTime := timeMatch;
        currentContent := [];
        currentLines := [];
      } else {
        WalkLine(tagged, i, closed, currentTime, currentLines);
        if currentTime.Some? {
          TextsSnoc(currentLines, tagged[i]);
          currentContent := currentContent + [line];
          currentLines := currentLines + [tagged[i]];
        }
      }
    }
    WalkEnd(tagged, closed, currentTime, currentLines);
    if currentTime.Some? {
      PushEntry(entries, closed, currentTime.value, currentLines, currentContent);
      closed := closed + [Section(currentTime.value, currentLines)];
      entries := entries + [TimeEntry(currentTime.value, Trim(Join(currentContent, '\n')))];
    }
  }

  // ---------------------------------------------------------------------
  // Properties of the entries

  /** The captured times of the heading lines, in the order of the lines. */
  function HeadingTimes(ls: seq<Line>): seq<string> {
    if |ls| == 0 then []
    else (if ls[0].time.Some? then [ls[0].time.value] else []) + HeadingTimes(ls[1..])
  }

  function Times(sections: seq<Section>): seq<string> {
    if |sections| == 0 then [] else [sections[0].time] + Times(sections[1..])
  }

  lemma {:induction false} TimesAppend(a: seq<Section>, b: seq<Section>)
    ensures Times(a + b) == Times(a) + Times(b)
  {
    if |a| > 0 {
      assert (a + b)[1..] == a[1..] + b;
      TimesAppend(a[1..], b);
    } else {
      assert a + b == b;
    }
  }

  lemma {:induction false} TimesAt(sections: seq<Section>, k: nat)
    requires k < |sections|
    ensures |Times(sections)| == |sections| && Times(sections)[k] == sections[k].time
  {
    if k > 0 {
      TimesAt(sections[1..], k - 1);
    } else if |sections| > 1 {
      TimesAt(sections[1..], 0);
    }
  }

  lemma {:induction false} HeadingTimesAppend(a: seq<Line>, b: seq<Line>)
    ensures HeadingTimes(a + b) == HeadingTimes(a) + HeadingTimes(b)
  {
    if |a| > 0 {
      assert (a + b)[1..] == a[1..] + b;
      HeadingTimesAppend(a[1..], b);
    } else {
      assert a + b == b;
    }
  }

  lemma {:induction false} HeadingTimesNone(ls: seq<Line>)
    requires HeadingFree(ls)
    ensures HeadingTimes(ls) == []
  {
    if |ls| > 0 {
      HeadingTimesNone(ls[1..]);
    }
  }

  /** Unfolds `HeadingTimes` at the first heading line. */
  lemma HeadingTimesAtFirst(ls: seq<Line>)
    ensures NextHeading(ls) == |ls| ==> HeadingTimes(ls) == []
    ensures NextHeading(ls) < |ls| ==>
      (ls[NextHeading(ls)].time.Some?
       && HeadingTimes(ls) == [ls[NextHeading(ls)].time.value] + HeadingTimes(ls[NextHeading(ls) + 1..]))
  {
    var n := NextHeading(ls);
    NextHeadingIsFirst(ls);
    assert ls == ls[..n] + ls[n..];
    HeadingTimesAppend(ls[..n], ls[n..]);
    HeadingTimesNone(ls[..n]);
    if n < |ls| {
      assert ls[n..][1..] == ls[n + 1..];
    }
  }

  lemma {:induction false} SectionsTimes(time: string, body: seq<Line>)
    ensures Times(SectionsFrom(time, body)) == [time] + HeadingTimes(body)
    decreases |body|
  {
    var n := NextHeading(body);
    var first := [Section(time, body[..n])];
    NextHeadingIsFirst(body);
    HeadingTimesAtFirst(body);
    if n < |body| {
      var rest := SectionsFrom(body[n].time.value, body[n + 1..]);
      TimesAppend(first, rest);
      SectionsTimes(body[n].time.value, body[n + 1..]);
    } else {
      assert SectionsFrom(time, body) == first;
    }
  }

  /** The sections of a tagged text start at its heading lines, in order. */
  lemma SectionsPerHeading(ls: seq<Line>)
    ensures Times(SectionsOf(ls)) == HeadingTimes(ls)
  {
    HeadingTimesAtFirst(ls);
    NextHeadingIsFirst(ls);
    var n := NextHeading(ls);
    if n < |ls| {
      SectionsTimes(ls[n].time.value, ls[n + 1..]);
    }
  }

  /** There is exactly one entry per time-heading line, in the order of those
      lines, and each entry carries the time its heading captured. */
  lemma EntryPerHeading(content: string)
    ensures var times := HeadingTimes(Tag(Split(content, '\n')));
      |EntriesOf(content)| == |times|
      && forall k :: 0 <= k < |times| ==> EntriesOf(content)[k].time == times[k]
  {
    var sections := SectionsOf(Tag(Split(content, '\n')));
    SectionsPerHeading(Tag(Split(content, '\n')));
    if |sections| == 0 {
      assert Times(sections) == [];
    }
    forall k | 0 <= k < |sections|
      ensures |Times(sections)| == |sections| && EntriesOf(content)[k].time == Times(sections)[k]
    {
      TimesAt(sections, k);
      assert EntriesOf(content)[k] == EntryOf(sections[k]);
    }
  }

  /** A text without any time-heading line has no entries. */
  lemma NoHeadingNoEntries(content: string)
    requires forall line :: line in Split(content, '\n') ==> HeadingTime(line).None?
    ensures EntriesOf(content) == []
  {
    var lines := Split(content, '\n');
    var ls := Tag(lines);
    forall i | 0 <= i < |ls| ensures ls[i].time.None? {
      assert lines[i] in lines;
    }
    FirstHeadingAt(ls, |ls|);
  }

  /** A line that is not a time heading, put before the text, belongs to no
      section. */
  lemma SectionsOfCons(l: Line, ls: seq<Line>)
    requires l.time.None?
    ensures SectionsOf([l] + ls) == SectionsOf(ls)
  {
    var all := [l] + ls;
    assert all[1..] == ls;
    var n := NextHeading(ls);
    NextHeadingIsFirst(ls);
    if n < |ls| {
      assert all[n + 1] == ls[n];
      assert all[n + 2..] == ls[n + 1..];
    }
  }

  /** Lines before the first time heading do not contribute. */
  lemma {:induction false} PreambleDropped(preamble: seq<Line>, ls: seq<Line>)
    requires HeadingFree(preamble)
    ensures SectionsOf(preamble + ls) == SectionsOf(ls)
  {
    if |preamble| > 0 {
      assert preamble + ls == [preamble[0]] + (preamble[1..] + ls);
      SectionsOfCons(preamble[0], preamble[1..] + ls);
      PreambleDropped(preamble[1..], ls);
    } else {
      assert preamble + ls == ls;
    }
  }

  lemma {:induction false} SectionsAppend(time: string, body: seq<Line>, heading: Line, tail: seq<Line>)
    requires heading.time.Some? && HeadingFree(tail)
    ensures SectionsFrom(time, body + [heading] + tail)
         == SectionsFrom(time, body) + [Section(heading.time.value, tail)]
    decreases |body|
  {
    var all := body + [heading] + tail;
    var n := NextHeading(body);
    NextHeadingIsFirst(body);
    LastSection(heading.time.value, tail);
    assert all == body + ([heading] + tail);
    if n == |body| {
      LastSection(time, body);
      CloseSection(time, body, [heading] + tail);
      assert ([heading] + tail)[1..] == tail;
    } else {
      NextHeadingAppend(body, [heading] + tail);
      assert all[..n] == body[..n];
      assert all[n] == body[n];
      assert all[n + 1..] == body[n + 1..] + [heading] + tail;
      SectionsAppend(body[n].time.value, body[n + 1..], heading, tail);
    }
  }

  /** Appending a heading line and heading-free lines after any lines adds
      exactly one section at the end and leaves the earlier ones as they
      were. */
  lemma SectionsOfAppend(ls: seq<Line>, heading: Line, tail: seq<Line>)
    requires heading.time.Some? && HeadingFree(tail)
    ensures SectionsOf(ls + [heading] + tail) == SectionsOf(ls) + [Section(heading.time.value, tail)]
  {
    var all := ls + [heading] + tail;
    var time := heading.time.value;
    var n := NextHeading(ls);
    assert NextHeading(all) == n by {
      assert all == ls + ([heading] + tail);
      NextHeadingAppend(ls, [heading] + tail);
    }
    if n == |ls| {
      assert all[|ls|] == heading;
      assert all[|ls| + 1..] == tail;
      assert SectionsOf(all) == SectionsFrom(time, tail);
      LastSection(time, tail);
    } else {
      NextHeadingIsFirst(ls);
      assert all[n] == ls[n];
      assert all[n + 1..] == ls[n + 1..] + [heading] + tail;
      assert SectionsOf(all) == SectionsFrom(ls[n].time.value, ls[n + 1..] + [heading] + tail);
      SectionsAppend(ls[n].time.value, ls[n + 1..], heading, tail);
    }
  }

  // ---------------------------------------------------------------------
  // Title: /^#\s+(.+)$/m, falling back to "{date} 日报"

  /** The largest `q` with `2 <= q <= hi` at which `.+` can start: the greedy
      `\s+` after `#` gives back characters until `.` can match one. */
  function TitleStart(s: string, hi: nat): (q: Option<nat>)
    requires hi <= |s|
    ensures q.Some? ==> 2 <= q.value <= hi && q.value < |s| && !IsLineTerminator(s[q.value])
    decreases hi
  {
    if hi < 2 then None
    else if hi < |s| && !IsLineTerminator(s[hi]) then Some(hi)
    else TitleStart(s, hi - 1)
  }

  /** The title captured by a match attempt at a line that starts with `#`. */
  function TitleAt(s: string): Option<string>
    requires |s| > 0 && s[0] == '#'
  {
    match TitleStart(s, 1 + SpaceRun(s[1..]))
    case None => None
    case Some(q) => Some(s[q..q + LineEnd(s[q..])])
  }

  /** The first match of the title pattern at or after the start of `s`;
      `atLineStart` says whether `^` holds at position 0. */
  function TitleFrom(s: string, atLineStart: bool): Option<string>
    decreases |s|
  {
    if |s| == 0 then None
    else if atLineStart && s[0] == '#' && TitleAt(s).Some? then TitleAt(s)
    else TitleFrom(s[1..], IsLineTerminator(s[0]))
  }

  /** `title` of `processReport`: the first `# ...` heading, else "{date} 日报". */
  function Title(content: string, date: string): string {
    match TitleFrom(content, true)
    case Some(t) => t
    case None => date + " 日报"
  }

  /** A text whose first line is `# ` followed by a non-blank line has that
      line as its title. */
  lemma HeaderTitle(line: string, rest: string, date: string)
    requires |line| > 0 && !IsSpace(line[0])
    requires forall i :: 0 <= i < |line| ==> !IsLineTerminator(line[i])
    ensures Title("# " + line + "\n" + rest, date) == line
  {
    var s := "# " + line + "\n" + rest;
    assert s[0] == '#' && s[2] == line[0];
    assert SpaceRun(s[1..]) == 1 by {
      assert s[1..][0] == ' ';
      assert s[1..][1..][0] == line[0];
    }
    LineTerminatorIsSpace(line[0]);
    assert TitleStart(s, 2) == Some(2);
    var tail := s[2..];
    assert tail == line + "\n" + rest;
    assert forall i :: 0 <= i < |line| ==> tail[i] == line[i];
    assert tail[|line|] == '\n';
    assert s[2..2 + |line|] == line;
  }

  // ---------------------------------------------------------------------
  // Word count: content.replace(/[#\s\n]/g, '').length

  predicate IsCounted(c: char) {
    c != '#' && !IsSpace(c)
  }

  function WordCount(s: string): (n: nat)
    ensures n <= |s|
  {
    if |s| == 0 then 0 else (if IsCounted(s[0]) then 1 else 0) + WordCount(s[1..])
  }

  /** The word count of a concatenation is the sum of the word counts. */
  lemma {:induction false} WordCountAppend(a: string, b: string)
    ensures WordCount(a + b) == WordCount(a) + WordCount(b)
  {
    if |a| > 0 {
      assert (a + b)[1..] == a[1..] + b;
      WordCountAppend(a[1..], b);
    } else {
      assert a + b == b;
    }
  }

  // ---------------------------------------------------------------------
  // Summary (extractSummary)

  /** `text.replace(/^#.+$/gm, '')`: the text of every line that starts with
      `#` and has at least one more character is removed; the line break
      stays. */
  function RemoveHeadingLines(s: string, atLineStart: bool): (r: string)
    ensures |r| <= |s|
    decreases |s|
  {
    if |s| == 0 then ""
    else if atLineStart && s[0] == '#' && |s| > 1 && !IsLineTerminator(s[1]) then
      RemoveHeadingLines(s[LineEnd(s)..], false)
    else [s[0]] + RemoveHeadingLines(s[1..], IsLineTerminator(s[0]))
  }

  /** `text.replace(/```[\s\S]*?```/g, '')`: a fence and everything up to the
      nearest closing fence is removed; an unclosed fence stays. */
  function RemoveFences(s: string): (r: string)
    ensures |r| <= |s|
    decreases |s|
  {
    if |s| == 0 then ""
    else if |s| >= 3 && s[..3] == "```" && IndexOf(s[3..], "```").Some? then
      RemoveFences(s[3 + IndexOf(s[3..], "```").value + 3..])
    else [s[0]] + RemoveFences(s[1..])
  }

  /** `text.replace(/`[^`]+`/g, '')`: a backtick, one or more other
      characters and the next backtick are removed. */
  function RemoveInlineCode(s: string): (r: string)
    ensures |r| <= |s|
    decreases |s|
  {
    if |s| == 0 then ""
    else if s[0] == '`' && IndexOf(s[1..], "`").Some? && IndexOf(s[1..], "`").value >= 1 then
      RemoveInlineCode(s[1 + IndexOf(s[1..], "`").value + 1..])
    else [s[0]] + RemoveInlineCode(s[1..])
  }

  /** End of `:\d{2}$` starting at `c` (multiline `$`). */
  function MinutesEnd(s: string, c: nat): (e: Option<nat>)
    ensures e.Some? ==> e.value == c + 3 <= |s|
  {
    if c + 3 <= |s| && s[c] == ':' && IsDigit(s[c + 1]) && IsDigit(s[c + 2])
       && (c + 3 == |s| || IsLineTerminator(s[c + 3]))
    then Some(c + 3) else None
  }

  /** End of a match of `##\s+\d{1,2}:\d{2}$` at position 0; `\s+` may run
      over line breaks. */
  function TimeMarkerEnd(s: string): (e: Option<nat>)
    ensures e.Some? ==> 0 < e.value <= |s|
  {
    if |s| >= 2 && s[..2] == "##" then
      var q := 2 + SpaceRun(s[2..]);
      if q > 2 && q < |s| && IsDigit(s[q]) then
        if q + 1 < |s| && IsDigit(s[q + 1]) then MinutesEnd(s, q + 2) else MinutesEnd(s, q + 1)
      else None
    else None
  }

  /** `text.replace(/^##\s+\d{1,2}:\d{2}$/gm, '')`. */
  function RemoveTimeMarkers(s: string, atLineStart: bool): (r: string)
    ensures |r| <= |s|
    decreases |s|
  {
    if |s| == 0 then ""
    else if atLineStart && TimeMarkerEnd(s).Some? then
      RemoveTimeMarkers(s[TimeMarkerEnd(s).value..], false)
    else [s[0]] + RemoveTimeMarkers(s[1..], IsLineTerminator(s[0]))
  }

  /** The cleaned text `extractSummary` truncates: headings, code and time
      markers removed, then trimmed. */
  function SummaryText(content: string): (r: string)
    ensures |r| <= |content|
    ensures r == "" || (!IsSpace(r[0]) && !IsSpace(r[|r| - 1]))
  {
    Trim(RemoveTimeMarkers(RemoveInlineCode(RemoveFences(RemoveHeadingLines(content, true))), true))
  }

  /** The summary length `processReport` uses (the default of `maxLength`). */
  const MaxSummaryLength: nat := 150

  /** `extractSummary(content, maxLength)`: the cleaned text when it has at
      most `maxLength` characters, otherwise its first `maxLength` characters
      followed by "...". */
  function ExtractSummary(content: string, maxLength: nat): (r: string)
    ensures |r| <= maxLength + 3
    ensures |SummaryText(content)| <= maxLength ==> r == SummaryText(content)
    ensures |SummaryText(content)| > maxLength ==>
      |r| == maxLength + 3 && StartsWith(SummaryText(content), r[..maxLength]) && EndsWith(r, "...")
  {
    var text := SummaryText(content);
    if |text| > maxLength then text[..maxLength] + "..." else text
  }
}
