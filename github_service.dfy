/** The desktop client's side of the daily reports (src/main/github-service.ts):
    where today's report lives in the repository, what reading it gives, and
    how a submission appends a timed section to it and writes it back.

    The repository is a map from path to item. The clock is a parameter: the
    local calendar date and time of day the client reads from `new Date()`.
    The blob sha GitHub assigns to a written file is a parameter too. */
module GitHubService {

  import opened Wrappers
  import opened Strings
  import opened ReportParse
  import ReportScan

  /** The local date and time of day: `getFullYear()`, `getMonth() + 1`,
      `getDate()`, the hours and the minutes. */
  datatype Moment = Moment(year: nat, month: nat, day: nat, hour: nat, minute: nat)
  {
    predicate Valid() {
      1 <= month <= 12 && 1 <= day <= 31 && hour < 24 && minute < 60
    }
  }

  // ---------------------------------------------------------------------
  // Paths and texts

  /** `generateFilePath`: `${year}/${month}/${day}.md` with the month and
      the day padded to two digits. */
  function FilePath(now: Moment): string {
    Join([Dec(now.year), Pad2(Dec(now.month)), Pad2(Dec(now.day)) + ".md"], '/')
  }

  /** The three components of a path split on `/`, no component holding a
      slash since digits and ".md" hold none. */
  lemma FilePathSplit(now: Moment)
    requires now.Valid()
    ensures Split(FilePath(now), '/') == [Dec(now.year), Pad2(Dec(now.month)), Pad2(Dec(now.day)) + ".md"]
  {
    var parts := [Dec(now.year), Pad2(Dec(now.month)), Pad2(Dec(now.day)) + ".md"];
    TwoDigitRoundTrip(now.month);
    TwoDigitRoundTrip(now.day);
    assert '/' !in parts[0] by {
      assert forall i :: 0 <= i < |parts[0]| ==> IsDigit(parts[0][i]);
    }
    assert '/' !in parts[1];
    assert '/' !in parts[2] by {
      assert parts[2] == Pad2(Dec(now.day)) + ".md";
    }
    SplitJoin(parts, '/');
  }

  /** The path of a date in years 1000 to 9999 reads back as that date: a
      year directory of four digits, a month directory of two digits and a
      day file that the index's scan of a month directory takes as its day. */
  lemma FilePathRoundTrip(now: Moment)
    requires now.Valid() && 1000 <= now.year <= 9999
    ensures var parts := Split(FilePath(now), '/');
      && |parts| == 3
      && IsFourDigits(parts[0]) && ParseDec(parts[0]) == now.year
      && IsTwoDigits(parts[1]) && ParseDec(parts[1]) == now.month
      && ReportScan.DayOfFile(parts[2]).Some?
      && ParseDec(ReportScan.DayOfFile(parts[2]).value) == now.day
  {
    FilePathSplit(now);
    DecFourDigits(now.year);
    ParseDecDec(now.year);
    TwoDigitRoundTrip(now.month);
    TwoDigitRoundTrip(now.day);
    ReportScan.DayFile(Pad2(Dec(now.day)) + ".md", Pad2(Dec(now.day)));
  }

  /** Two moments share a report file exactly when they fall on the same
      calendar day. */
  lemma FilePathSameDay(a: Moment, b: Moment)
    requires a.Valid() && b.Valid()
    ensures FilePath(a) == FilePath(b) <==> (a.year, a.month, a.day) == (b.year, b.month, b.day)
  {
    if FilePath(a) == FilePath(b) {
      FilePathSplit(a);
      FilePathSplit(b);
      ParseDecDec(a.year);
      ParseDecDec(b.year);
      TwoDigitRoundTrip(a.month);
      TwoDigitRoundTrip(b.month);
      var da, db := Pad2(Dec(a.day)), Pad2(Dec(b.day));
      assert da + ".md" == db + ".md";
      TwoDigitRoundTrip(a.day);
      TwoDigitRoundTrip(b.day);
      assert da == (da + ".md")[..2] && db == (db + ".md")[..2];
    }
  }

  /** `toLocaleTimeString('zh-CN', { hour: '2-digit', minute: '2-digit' })`:
      the 24-hour time as `HH:MM`. */
  function Timestamp(now: Moment): string {
    Pad2(Dec(now.hour)) + ":" + Pad2(Dec(now.minute))
  }

  /** The timestamp is a clock time, so the heading written with it is a
      time heading the index recognises with that time. */
  lemma TimestampHeading(now: Moment)
    requires now.Valid()
    ensures IsClock(Timestamp(now))
    ensures HeadingTime("## " + Timestamp(now)) == Some(Timestamp(now))
  {
    TwoDigitRoundTrip(now.hour);
    TwoDigitRoundTrip(now.minute);
    ClockHeading(Timestamp(now));
  }

  /** `toLocaleDateString('zh-CN')`: year, month and day unpadded, with
      slashes. */
  function LocaleDate(now: Moment): string {
    Dec(now.year) + "/" + Dec(now.month) + "/" + Dec(now.day)
  }

  /** The first heading of a report the client creates. */
  function HeaderLine(now: Moment): string {
    LocaleDate(now) + " 日报"
  }

  /** The text a new report starts with: `# ${date} 日报` and a blank line. */
  function Header(now: Moment): string {
    "# " + HeaderLine(now) + "\n\n"
  }

  /** `Update daily report: ${date}`, the commit message of a submission. */
  function CommitMessage(now: Moment): string {
    "Update daily report: " + LocaleDate(now)
  }

  /** `${existingContent}\n## ${timestamp}\n${content}\n`. */
  function Compose(existing: string, time: string, text: string): string {
    existing + "\n## " + time + "\n" + text + "\n"
  }

  /** No line of the text is a time heading. */
  predicate NoTimeHeading(text: string) {
    forall line :: line in Split(text, '\n') ==> HeadingTime(line).None?
  }

  /** Composition only appends: the earlier text is a prefix of the result
      and the submitted text follows the new heading. */
  lemma ComposeAppends(existing: string, time: string, text: string)
    ensures |Compose(existing, time, text)| == |existing| + |time| + |text| + 6
    ensures Compose(existing, time, text)[..|existing|] == existing
    ensures Compose(existing, time, text)[|existing| + |time| + 5..|existing| + |time| + 5 + |text|] == text
  {
    var c := Compose(existing, time, text);
    assert c == existing + ("\n## " + time + "\n" + text + "\n");
    assert c[|existing| + |time| + 5..|existing| + |time| + 5 + |text|] == text by {
      assert c == (existing + "\n## " + time + "\n") + text + "\n";
    }
  }

  lemma TextsTag(lines: seq<string>)
    ensures Texts(Tag(lines)) == lines
  {
  }

  /** The lines of a composed report: the earlier lines, the heading line
      and the text's lines, then the empty piece after the final newline. */
  lemma ComposeLines(existing: string, time: string, text: string)
    requires IsClock(time)
    ensures Split(Compose(existing, time, text), '\n')
         == Split(existing, '\n') + ["## " + time] + (Split(text, '\n') + [""])
  {
    var after := "## " + time + ['\n'] + (text + ['\n'] + "");
    assert Compose(existing, time, text) == existing + ['\n'] + after;
    SplitAppend(existing, after, '\n');
    SectionLines(time, text);
  }

  /** The lines of the appended part: the heading line, then the text's. */
  lemma SectionLines(time: string, text: string)
    requires IsClock(time)
    ensures Split("## " + time + ['\n'] + (text + ['\n'] + ""), '\n') == ["## " + time] + (Split(text, '\n') + [""])
  {
    var heading := "## " + time;
    SplitAppend(heading, text + ['\n'] + "", '\n');
    SplitAppend(text, "", '\n');
    assert '\n' !in heading by {
      assert heading[..3] == "## " && heading[3..] == time;
    }
    SplitWithoutSeparator(heading, '\n');
  }

  /** The lines of a text without time headings, and a final empty line,
      hold no time heading either. */
  lemma BodyHeadingFree(text: string)
    requires NoTimeHeading(text)
    ensures HeadingFree(Tag(Split(text, '\n') + [""]))
  {
    var lines := Split(text, '\n');
    var tail := Tag(lines + [""]);
    forall i | 0 <= i < |tail| ensures tail[i].time.None? {
      if i < |lines| {
        assert tail[i].text == lines[i];
        assert lines[i] in lines;
      } else {
        assert tail[i].text == "";
      }
    }
  }

  /** Those lines, joined again, are the text and its final newline, whose
      trimmed form is the trimmed text. */
  lemma BodyEntry(time: string, text: string)
    ensures EntryOf(Section(time, Tag(Split(text, '\n') + [""]))) == TimeEntry(time, Trim(text))
  {
    var body := Split(text, '\n') + [""];
    TextsTag(body);
    JoinSnoc(Split(text, '\n'), "", '\n');
    JoinSplit(text, '\n');
    assert Join(body, '\n') == text + ['\n'];
    LineTerminatorIsSpace('\n');
    TrimAppendSpace(text, '\n');
  }

  /** Read back by the index, a composed report has the earlier entries and
      one more: the new heading's time with the submitted text, trimmed. */
  lemma ComposeEntries(existing: string, time: string, text: string)
    requires IsClock(time) && NoTimeHeading(text)
    ensures EntriesOf(Compose(existing, time, text)) == EntriesOf(existing) + [TimeEntry(time, Trim(text))]
  {
    var lines := Split(existing, '\n');
    var body := Split(text, '\n') + [""];
    var hl := Line("## " + time, Some(time));
    ComposeTagged(existing, time, text);
    BodyHeadingFree(text);
    SectionsOfAppend(Tag(lines), hl, Tag(body));
    EntriesOfSectionsAppend(SectionsOf(Tag(lines)), [Section(time, Tag(body))]);
    BodyEntry(time, text);
  }

  /** The tagged lines of a composed report: the heading line is tagged with
      its time. */
  lemma ComposeTagged(existing: string, time: string, text: string)
    requires IsClock(time)
    ensures Tag(Split(Compose(existing, time, text), '\n'))
         == Tag(Split(existing, '\n')) + [Line("## " + time, Some(time))] + Tag(Split(text, '\n') + [""])
  {
    var lines := Split(existing, '\n');
    var body := Split(text, '\n') + [""];
    ComposeLines(existing, time, text);
    ClockHeading(time);
    TagAppend(lines + ["## " + time], body);
    TagAppend(lines, ["## " + time]);
  }

  /** The header of a new report holds no time heading, so it adds no entry. */
  lemma HeaderEntries(now: Moment)
    ensures EntriesOf(Header(now)) == []
  {
    var line := "# " + HeaderLine(now);
    assert Header(now) == line + ['\n'] + ("" + ['\n'] + "");
    SplitAppend(line, "" + ['\n'] + "", '\n');
    SplitAppend("", "", '\n');
    assert '\n' !in line by {
      assert forall i :: 0 <= i < |Dec(now.year)| ==> IsDigit(Dec(now.year)[i]);
      assert forall i :: 0 <= i < |Dec(now.month)| ==> IsDigit(Dec(now.month)[i]);
      assert forall i :: 0 <= i < |Dec(now.day)| ==> IsDigit(Dec(now.day)[i]);
    }
    SplitWithoutSeparator(line, '\n');
    assert Split(Header(now), '\n') == [line, "", ""];
    assert line[1] == ' ';
    NoHeadingNoEntries(Header(now));
  }

  /** A report the client creates has its header line as the title the
      index shows. */
  lemma CreatedTitle(now: Moment, time: string, text: string, date: string)
    ensures Title(Compose(Header(now), time, text), date) == HeaderLine(now)
  {
    var line := HeaderLine(now);
    var rest := "\n" + "\n## " + time + "\n" + text + "\n";
    assert Compose(Header(now), time, text) == "# " + line + "\n" + rest;
    assert IsDigit(line[0]) by { assert line[0] == Dec(now.year)[0]; }
    assert forall i :: 0 <= i < |line| ==> !IsLineTerminator(line[i]) by {
      forall i | 0 <= i < |line| ensures !IsLineTerminator(line[i]) {
        var y, m := Dec(now.year), Dec(now.month);
        if i < |y| {
          assert line[i] == y[i];
        } else if i == |y| || i == |y| + 1 + |m| {
        } else if i < |y| + 1 + |m| {
          assert line[i] == m[i - |y| - 1];
        } else if i < |LocaleDate(now)| {
          assert line[i] == Dec(now.day)[i - |y| - 2 - |m|];
        }
      }
    }
    HeaderTitle(line, rest, date);
  }

  // ---------------------------------------------------------------------
  // The repository

  /** What `getContent` finds at a path: a file, which has `content` and a
      `sha`, or anything else (a directory listing has no `content`). */
  datatype Item = File(content: string, sha: string) | Folder

  /** What `getTodayReport` returns for the repository's state: the file's
      text, or "" when there is no file there or it has no content. */
  function TodayContent(files: map<string, Item>, path: string): string {
    if path in files && files[path].File? then files[path].content else ""
  }

  /** `existingContent` and `sha` as `submitReport` has them after its read. */
  datatype Base = Base(content: string, sha: Option<string>)

  /** A read that fails (nothing at the path) gives a fresh header and no
      sha; a file gives its text and sha; an item without content gives ""
      and no sha. */
  function BaseOf(files: map<string, Item>, path: string, now: Moment): Base {
    if path !in files then Base(Header(now), None)
    else match files[path]
      case File(content, sha) => Base(content, Some(sha))
      case Folder => Base("", None)
  }

  /** `createOrUpdateFileContents` is accepted when it creates a file at a
      free path without a sha, or updates a file with that file's current
      sha. */
  predicate Accepts(files: map<string, Item>, path: string, sha: Option<string>) {
    if path in files then files[path].File? && sha == Some(files[path].sha) else sha.None?
  }

  /** The repository after `submitReport` at `now`, or `None` when the
      write is refused. */
  function Submit(files: map<string, Item>, now: Moment, text: string, newSha: string): Option<map<string, Item>> {
    var path := FilePath(now);
    var base := BaseOf(files, path, now);
    if Accepts(files, path, base.sha)
    then Some(files[path := File(Compose(base.content, Timestamp(now), text), newSha)])
    else None
  }

  /** The sha sent is the one the write needs: a submission is refused only
      when something other than a file sits at today's path. */
  lemma SubmitAccepted(files: map<string, Item>, now: Moment, text: string, newSha: string)
    ensures Submit(files, now, text, newSha).Some?
        <==> !(FilePath(now) in files && files[FilePath(now)].Folder?)
  {
  }

  /** A submission writes today's path and nothing else. */
  lemma SubmitTouchesToday(files: map<string, Item>, now: Moment, text: string, newSha: string)
    requires Submit(files, now, text, newSha).Some?
    ensures var after := Submit(files, now, text, newSha).value;
      && after.Keys == files.Keys + {FilePath(now)}
      && (forall p :: p in files && p != FilePath(now) ==> after[p] == files[p])
      && after[FilePath(now)].File? && after[FilePath(now)].sha == newSha
  {
  }

  /** An existing report only grows: its text is a prefix of the text
      written back. */
  lemma SubmitKeepsText(files: map<string, Item>, now: Moment, text: string, newSha: string)
    requires Submit(files, now, text, newSha).Some?
    requires FilePath(now) in files
    ensures var before := files[FilePath(now)].content;
      && |before| <= |TodayContent(Submit(files, now, text, newSha).value, FilePath(now))|
      && TodayContent(Submit(files, now, text, newSha).value, FilePath(now))[..|before|] == before
  {
    var base := BaseOf(files, FilePath(now), now);
    ComposeAppends(base.content, Timestamp(now), text);
  }

  /** A report that did not exist is created with the header, which gives it
      its title in the index. */
  lemma SubmitCreates(files: map<string, Item>, now: Moment, text: string, newSha: string, date: string)
    requires FilePath(now) !in files
    ensures Submit(files, now, text, newSha).Some?
    ensures var written := TodayContent(Submit(files, now, text, newSha).value, FilePath(now));
      && written[..|Header(now)|] == Header(now)
      && Title(written, date) == HeaderLine(now)
  {
    ComposeAppends(Header(now), Timestamp(now), text);
    CreatedTitle(now, Timestamp(now), text, date);
  }

  /** What `getTodayReport` returns after a submission has exactly one more
      time entry than before: the submission's time and its trimmed text. */
  lemma SubmitAddsEntry(files: map<string, Item>, now: Moment, text: string, newSha: string)
    requires now.Valid() && NoTimeHeading(text)
    requires Submit(files, now, text, newSha).Some?
    ensures EntriesOf(TodayContent(Submit(files, now, text, newSha).value, FilePath(now)))
         == EntriesOf(TodayContent(files, FilePath(now))) + [TimeEntry(Timestamp(now), Trim(text))]
  {
    var path := FilePath(now);
    var base := BaseOf(files, path, now);
    TimestampHeading(now);
    ComposeEntries(base.content, Timestamp(now), text);
    if path !in files {
      HeaderEntries(now);
      assert EntriesOf("") == [] by {
        assert Split("", '\n') == [""];
        NoHeadingNoEntries("");
      }
    }
  }

  /** The read and the write of `submitReport` are two requests, and another
      client may commit in between. The write that uses the sha read from
      `before` is accepted by the repository as it is later, `after`, exactly
      when today's path is as the read left it: the same file with the same
      sha, or still free. */
  lemma WriteNeedsUnchanged(before: map<string, Item>, after: map<string, Item>, path: string, now: Moment)
    ensures Accepts(after, path, BaseOf(before, path, now).sha)
        <==> if path in before && before[path].File?
             then path in after && after[path].File? && after[path].sha == before[path].sha
             else path !in after
  {
  }

  /** Two submissions that read the same state cannot both be written: once
      the first is, the second one's sha is stale (or it still has none while
      the file now exists), so its write is refused and the first entry is
      not lost. */
  lemma ConcurrentSubmitRefused(files: map<string, Item>, now: Moment, text: string, newSha: string)
    requires Submit(files, now, text, newSha).Some?
    requires FilePath(now) in files ==> newSha != files[FilePath(now)].sha
    ensures !Accepts(Submit(files, now, text, newSha).value, FilePath(now), BaseOf(files, FilePath(now), now).sha)
  {
    var after := Submit(files, now, text, newSha).value;
    WriteNeedsUnchanged(files, after, FilePath(now), now);
  }

  /** The GitHub repository the client reads and writes, with the messages
      of the commits made so far. */
  class Repository {
    var files: map<string, Item>
    var commits: seq<string>

    constructor(files: map<string, Item>)
      ensures this.files == files && commits == []
    {
      this.files := files;
      commits := [];
    }

    /** `createOrUpdateFileContents`: refused unless `Accepts`; otherwise
        the path holds the new text and one commit is recorded. */
    method CreateOrUpdate(path: string, content: string, message: string, sha: Option<string>, newSha: string)
      returns (ok: bool)
      modifies this
      ensures ok == Accepts(old(files), path, sha)
      ensures ok ==> files == old(files)[path := File(content, newSha)] && commits == old(commits) + [message]
      ensures !ok ==> files == old(files) && commits == old(commits)
    {
      ok := Accepts(files, path, sha);
      if ok {
        files := files[path := File(content, newSha)];
        commits := commits + [message];
      }
    }

    /** `getTodayReport`: the text of today's file, "" when the read fails
        or finds no file content. */
    method GetTodayReport(now: Moment) returns (content: string)
      ensures content == TodayContent(files, FilePath(now))
    {
      var path := FilePath(now);
      content := "";
      if path in files {
        match files[path]
        case File(text, _) => content := text;
        case Folder =>
      }
    }

    /** The read half of `submitReport`: the text to extend and the sha to
        send, taken from today's file. */
    method ReadBase(now: Moment) returns (base: Base)
      ensures base == BaseOf(files, FilePath(now), now)
    {
      var path := FilePath(now);
      if path in files {
        match files[path]
        case File(content, s) => base := Base(content, Some(s));
        case Folder => base := Base("", None);
      } else {
        base := Base(Header(now), None);
      }
    }

    /** The write half of `submitReport`: append a `## HH:MM` section with
        the text to what was read and write it back with the sha that was
        read. The repository may have changed since the read; the write is
        then refused as `WriteNeedsUnchanged` describes. */
    method WriteBack(base: Base, text: string, now: Moment, newSha: string) returns (ok: bool)
      modifies this
      ensures ok == Accepts(old(files), FilePath(now), base.sha)
      ensures ok ==> (files == old(files)[FilePath(now) := File(Compose(base.content, Timestamp(now), text), newSha)]
                      && commits == old(commits) + [CommitMessage(now)])
      ensures !ok ==> files == old(files) && commits == old(commits)
    {
      var newContent := Compose(base.content, Timestamp(now), text);
      ok := CreateOrUpdate(FilePath(now), newContent, CommitMessage(now), base.sha, newSha);
    }

    /** `submitReport` with no other writer between its read and its write. */
    method SubmitReport(text: string, now: Moment, newSha: string) returns (ok: bool)
      modifies this
      ensures ok == Submit(old(files), now, text, newSha).Some?
      ensures ok ==> (files == Submit(old(files), now, text, newSha).value
                      && commits == old(commits) + [CommitMessage(now)])
      ensures !ok ==> files == old(files) && commits == old(commits)
    {
      var base := ReadBase(now);
      ok := WriteBack(base, text, now, newSha);
    }
  }
}
