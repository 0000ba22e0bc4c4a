/** The scan of `generateIndex`: the year, month and day layout under
    `site/docs`, the filters on names at each level, the report record made
    from each day file, and the sort that puts the newest report first. The
    directory tree is a value (`FileTree`); the list of reports the scan
    pushes into is the field of a `Scanner`. */
module ReportScan {

  import opened Wrappers
  import opened Strings
  import opened Dates
  import opened FileTree
  import opened ReportParse

  /** One entry of `reports-index.json`. */
  datatype Report = Report(
    date: string,
    year: string,
    month: string,
    day: string,
    title: string,
    summary: string,
    timeEntries: seq<TimeEntry>,
    wordCount: nat,
    path: string)

  /** The path of a report on the site, `/daily/docs/${year}/${month}/${day}`. */
  function ReportPath(year: string, month: string, day: string): string {
    Join(["", "daily", "docs", year, month, day], '/')
  }

  /** The report `processReport` builds from a day file's content. */
  function ReportOf(year: string, month: string, day: string, content: string): Report {
    var date := DateString(year, month, day);
    Report(date, year, month, day,
      Title(content, date),
      ExtractSummary(content, MaxSummaryLength),
      EntriesOf(content),
      WordCount(content),
      ReportPath(year, month, day))
  }

  /** The date of a report gives back its year, month and day. */
  lemma DateNames(year: string, month: string, day: string)
    requires IsFourDigits(year) && IsTwoDigits(month) && IsTwoDigits(day)
    ensures Split(DateString(year, month, day), '-') == [year, month, day]
  {
    var parts := [year, month, day];
    forall i | 0 <= i < 3 ensures '-' !in parts[i] {
      assert AllDigits(parts[i]);
    }
    SplitJoin(parts, '-');
  }

  /** The path of a report gives back its year, month and day. */
  lemma PathNames(year: string, month: string, day: string)
    requires IsFourDigits(year) && IsTwoDigits(month) && IsTwoDigits(day)
    ensures Split(ReportPath(year, month, day), '/') == ["", "daily", "docs", year, month, day]
  {
    var parts := ["", "daily", "docs", year, month, day];
    forall i | 0 <= i < 6 ensures '/' !in parts[i] {
      if i >= 3 {
        assert AllDigits(parts[i]);
      }
    }
    SplitJoin(parts, '/');
  }

  // ---------------------------------------------------------------------
  // Name filters

  /** Entries `scanReports` passes over: hidden names and the directories of
      the tool itself. */
  predicate Skipped(name: string) {
    StartsWith(name, ".") || name == "node_modules" || name == "site" || name == "scripts"
  }

  /** A year directory is never passed over by the skip list. */
  lemma YearNotSkipped(name: string)
    requires IsFourDigits(name)
    ensures !Skipped(name)
  {
    assert name[0] != '.';
    assert name[..1] != ".";
  }

  /** `s.replace(pattern, '')` with a string pattern: the first occurrence is
      removed. */
  function RemoveFirst(s: string, pattern: string): (r: string)
    requires |pattern| > 0
    ensures |r| == (if IndexOf(s, pattern).Some? then |s| - |pattern| else |s|)
  {
    match IndexOf(s, pattern)
    case None => s
    case Some(k) => s[..k] + s[k + |pattern|..]
  }

  /** The day of a file name in a month directory, as `scanMonth` decides
      it: the name ends in ".md" and what is left after removing the first
      ".md" is two digits. */
  function DayOfFile(name: string): Option<string> {
    if EndsWith(name, ".md") then
      var day := RemoveFirst(name, ".md");
      if IsTwoDigits(day) then Some(day) else None
    else None
  }

  /** The files `scanMonth` reads are exactly two digits followed by ".md". */
  lemma DayFile(name: string, day: string)
    ensures DayOfFile(name) == Some(day) <==> IsTwoDigits(day) && name == day + ".md"
  {
    if IsTwoDigits(day) && name == day + ".md" {
      DayFileOfDay(day);
    }
    if DayOfFile(name) == Some(day) {
      DayOfDayFile(name);
    }
  }

  lemma DayFileOfDay(day: string)
    requires IsTwoDigits(day)
    ensures DayOfFile(day + ".md") == Some(day)
  {
    var name := day + ".md";
    assert !OccursAt(name, ".md", 0) by { assert name[0] != '.'; }
    assert !OccursAt(name, ".md", 1) by { assert name[1] != '.'; }
    assert OccursAt(name, ".md", 2) by { assert name[2..5] == ".md"; }
    assert IndexOf(name, ".md") == Some(2);
    assert EndsWith(name, ".md") by { assert name[|name| - 3..] == ".md"; }
    assert RemoveFirst(name, ".md") == name[..2] + name[5..];
    assert name[..2] + name[5..] == day;
  }

  lemma DayOfDayFile(name: string)
    requires DayOfFile(name).Some?
    ensures name == DayOfFile(name).value + ".md"
  {
    var day := DayOfFile(name).value;
    assert OccursAt(name, ".md", |name| - 3);
    var k := IndexOf(name, ".md").value;
    assert |name| == 5;
    assert name[2..5] == ".md";
    assert k <= 2;
    assert name[k] == '.' && name[k + 1] == 'm' && name[k + 2] == 'd' by {
      assert name[k..k + 3] == ".md";
    }
    assert name[2] == '.' && name[3] == 'm' by {
      assert name[2..5] == ".md";
    }
    assert k == 2;
    assert day == name[..2];
    assert name == name[..2] + name[2..5];
  }

  // ---------------------------------------------------------------------
  // What the scan finds, level by level

  /** A day file the scan reads: its year, month and day names and its
      content. */
  datatype Found = Found(year: string, month: string, day: string, content: string)

  /** The day file of one entry of a month directory, if it is one: a
      directory with a day file's name fails to be read, and the error is
      caught. */
  function FileFound(year: string, month: string, e: Entry): seq<Found> {
    match DayOfFile(e.name)
    case None => []
    case Some(day) => FoundOf(year, month, day, e.node)
  }

  /** What reading a day file's node gives: its content, or nothing for a
      directory. */
  function FoundOf(year: string, month: string, day: string, node: Node): seq<Found> {
    match node
    case File(content) => [Found(year, month, day, content)]
    case Dir(_) => []
  }

  /** The pieces `f` gives for each element of `xs`, in order: the shape of
      a loop that pushes what each entry yields. */
  function Gather<T, U>(xs: seq<T>, f: T -> seq<U>): seq<U> {
    if |xs| == 0 then [] else Gather(xs[..|xs| - 1], f) + f(xs[|xs| - 1])
  }

  /** One more element adds its pieces at the end. */
  lemma GatherStep<T, U>(xs: seq<T>, i: nat, f: T -> seq<U>)
    requires i < |xs|
    ensures Gather(xs[..i + 1], f) == Gather(xs[..i], f) + f(xs[i])
  {
    assert xs[..i + 1][..i] == xs[..i];
  }

  lemma {:induction false} GatherAppend<T, U>(a: seq<T>, b: seq<T>, f: T -> seq<U>)
    ensures Gather(a + b, f) == Gather(a, f) + Gather(b, f)
    decreases |b|
  {
    if |b| > 0 {
      var b0 := b[..|b| - 1];
      assert (a + b)[..|a + b| - 1] == a + b0;
      GatherAppend(a, b0, f);
    } else {
      assert a + b == a;
    }
  }

  /** A piece is gathered exactly when some element gives it. */
  lemma {:induction false} InGather<T, U>(xs: seq<T>, f: T -> seq<U>, u: U)
    ensures u in Gather(xs, f) <==> exists k :: 0 <= k < |xs| && u in f(xs[k])
  {
    if |xs| > 0 {
      var init := xs[..|xs| - 1];
      InGather(init, f, u);
      if u in Gather(xs, f) {
        if u in Gather(init, f) {
          var k :| 0 <= k < |init| && u in f(init[k]);
          assert xs[k] == init[k];
        } else {
          assert u in f(xs[|xs| - 1]);
        }
      }
      if exists k :: 0 <= k < |xs| && u in f(xs[k]) {
        var k :| 0 <= k < |xs| && u in f(xs[k]);
        if k < |init| {
          assert xs[k] == init[k];
          assert u in Gather(init, f);
        }
      }
    }
  }

  function MonthFound(year: string, month: string, files: seq<Entry>): seq<Found> {
    Gather(files, e => FileFound(year, month, e))
  }

  /** A month entry of a year directory: a directory of two digits. */
  predicate IsMonthDir(e: Entry) {
    e.node.Dir? && IsTwoDigits(e.name)
  }

  function MonthDirFound(year: string, e: Entry): seq<Found> {
    if IsMonthDir(e) then MonthFound(year, e.name, e.node.entries) else []
  }

  function YearFound(year: string, months: seq<Entry>): seq<Found> {
    Gather(months, e => MonthDirFound(year, e))
  }

  /** A year entry of the reports directory: not skipped, a directory of four
      digits. */
  predicate IsYearDir(e: Entry) {
    !Skipped(e.name) && e.node.Dir? && IsFourDigits(e.name)
  }

  function YearDirFound(e: Entry): seq<Found> {
    if IsYearDir(e) then YearFound(e.name, e.node.entries) else []
  }

  function RootFound(entries: seq<Entry>): seq<Found> {
    Gather(entries, YearDirFound)
  }

  lemma MonthFoundStep(year: string, month: string, files: seq<Entry>, i: nat)
    requires i < |files|
    ensures MonthFound(year, month, files[..i + 1]) == MonthFound(year, month, files[..i]) + FileFound(year, month, files[i])
  {
    GatherStep(files, i, e => FileFound(year, month, e));
  }

  lemma YearFoundStep(year: string, months: seq<Entry>, i: nat)
    requires i < |months|
    ensures YearFound(year, months[..i + 1]) == YearFound(year, months[..i]) + MonthDirFound(year, months[i])
  {
    GatherStep(months, i, e => MonthDirFound(year, e));
  }

  lemma RootFoundStep(entries: seq<Entry>, i: nat)
    requires i < |entries|
    ensures RootFound(entries[..i + 1]) == RootFound(entries[..i]) + YearDirFound(entries[i])
  {
    GatherStep(entries, i, YearDirFound);
  }

  /** The report of a day file. */
  function ReportOfFound(f: Found): Report {
    ReportOf(f.year, f.month, f.day, f.content)
  }

  function ReportSingleton(f: Found): seq<Report> {
    [ReportOfFound(f)]
  }

  /** The reports of the day files, in the order they were found. */
  function ReportsOf(fs: seq<Found>): seq<Report> {
    Gather(fs, ReportSingleton)
  }

  /** When every element gives exactly one piece, the gathered sequence
      holds the piece of each element at its position. */
  lemma {:induction false} GatherOne<T, U>(xs: seq<T>, f: T -> seq<U>)
    requires forall x :: |f(x)| == 1
    ensures |Gather(xs, f)| == |xs|
    ensures forall k :: 0 <= k < |xs| ==> Gather(xs, f)[k] == f(xs[k])[0]
  {
    if |xs| > 0 {
      var init := xs[..|xs| - 1];
      GatherOne(init, f);
      forall k | 0 <= k < |xs| ensures Gather(xs, f)[k] == f(xs[k])[0] {
        if k < |init| {
          assert xs[k] == init[k];
        }
      }
    }
  }

  /** Every day file the scan finds sits at `YYYY/MM/DD.md`: a directory of
      four digits, then one of two digits, then a file of two digits and
      ".md". */
  lemma FoundShape(entries: seq<Entry>, f: Found)
    requires f in RootFound(entries)
    ensures IsFourDigits(f.year) && IsTwoDigits(f.month) && IsTwoDigits(f.day)
    ensures exists i, j, k ::
      0 <= i < |entries| && IsYearDir(entries[i]) && entries[i].name == f.year
      && 0 <= j < |entries[i].node.entries| && IsMonthDir(entries[i].node.entries[j])
      && entries[i].node.entries[j].name == f.month
      && 0 <= k < |entries[i].node.entries[j].node.entries|
      && entries[i].node.entries[j].node.entries[k] == Entry(f.day + ".md", File(f.content))
  {
    InGather(entries, YearDirFound, f);
    var i :| 0 <= i < |entries| && f in YearDirFound(entries[i]);
    var j, k := FoundInYear(entries[i].name, entries[i].node.entries, f);
  }

  /** Where a day file found in a year directory sits: month `j`, file `k`. */
  lemma FoundInYear(year: string, months: seq<Entry>, f: Found) returns (j: nat, k: nat)
    requires f in YearFound(year, months)
    ensures f.year == year && IsTwoDigits(f.month) && IsTwoDigits(f.day)
    ensures j < |months| && IsMonthDir(months[j]) && months[j].name == f.month
    ensures k < |months[j].node.entries| && months[j].node.entries[k] == Entry(f.day + ".md", File(f.content))
  {
    InGather(months, e => MonthDirFound(year, e), f);
    j :| 0 <= j < |months| && f in MonthDirFound(year, months[j]);
    k := FoundInMonth(year, months[j].name, months[j].node.entries, f);
  }

  /** Where a day file found in a month directory sits: file `k`. */
  lemma FoundInMonth(year: string, month: string, files: seq<Entry>, f: Found) returns (k: nat)
    requires f in MonthFound(year, month, files)
    ensures f.year == year && f.month == month && IsTwoDigits(f.day)
    ensures k < |files| && files[k] == Entry(f.day + ".md", File(f.content))
  {
    InGather(files, e => FileFound(year, month, e), f);
    k :| 0 <= k < |files| && f in FileFound(year, month, files[k]);
    FileFoundShape(year, month, files[k], f);
  }

  /** What a day file yields is read from a file named after its day. */
  lemma FileFoundShape(year: string, month: string, e: Entry, f: Found)
    requires f in FileFound(year, month, e)
    ensures f.year == year && f.month == month && IsTwoDigits(f.day)
    ensures e == Entry(f.day + ".md", File(f.content))
  {
    var day := DayOfFile(e.name).value;
    assert f == Found(year, month, day, e.node.content);
    DayOfDayFile(e.name);
  }

  /** Every file `DD.md` in a month directory `MM` of a year directory `YYYY`
      is found. */
  lemma DayFileFound(entries: seq<Entry>, i: nat, j: nat, k: nat, day: string, content: string)
    requires i < |entries| && IsYearDir(entries[i])
    requires j < |entries[i].node.entries| && IsMonthDir(entries[i].node.entries[j])
    requires k < |entries[i].node.entries[j].node.entries|
    requires IsTwoDigits(day)
    requires entries[i].node.entries[j].node.entries[k] == Entry(day + ".md", File(content))
    ensures Found(entries[i].name, entries[i].node.entries[j].name, day, content) in RootFound(entries)
  {
    var y := entries[i];
    var m := y.node.entries[j];
    var e := m.node.entries[k];
    var f := Found(y.name, m.name, day, content);
    DayFile(e.name, day);
    assert f in FileFound(y.name, m.name, e);
    InGather(m.node.entries, e => FileFound(y.name, m.name, e), f);
    InGather(y.node.entries, e => MonthDirFound(y.name, e), f);
    InGather(entries, YearDirFound, f);
  }

  // ---------------------------------------------------------------------
  // The order of the index: newest first

  /** `a` sorts before or with `b` under the comparator
      `new Date(b.date) - new Date(a.date)`: a later valid date comes first;
      invalid dates are placed after every valid one. */
  predicate NewerOrSame(a: Report, b: Report) {
    match (DateValue(a.date), DateValue(b.date))
    case (Some(x), Some(y)) => x >= y
    case (_, None) => true
    case (None, Some(_)) => false
  }

  predicate NewestFirst(rs: seq<Report>) {
    forall i, j :: 0 <= i < j < |rs| ==> NewerOrSame(rs[i], rs[j])
  }

  /** The sort key: the day number plus one, and 0 for an invalid date. */
  function Rank(r: Report): int {
    match DateValue(r.date)
    case Some(n) => n + 1
    case None => 0
  }

  lemma RankOrder(a: Report, b: Report)
    ensures Rank(a) >= Rank(b) <==> NewerOrSame(a, b)
  {
  }

  /** Sorts `a` so that keys never increase, by insertion. */
  method SortDescending<T>(a: array<T>, key: T -> int)
    modifies a
    ensures forall p, q :: 0 <= p < q < a.Length ==> key(a[p]) >= key(a[q])
    ensures multiset(a[..]) == multiset(old(a[..]))
  {
    if a.Length == 0 {
      return;
    }
    var i := 1;
    while i < a.Length
      invariant 1 <= i <= a.Length
      invariant forall p, q :: 0 <= p < q < i ==> key(a[p]) >= key(a[q])
      invariant multiset(a[..]) == multiset(old(a[..]))
    {
      InsertLeft(a, key, i);
      i := i + 1;
    }
  }

  /** One insertion step: `a[i]` moves left past the smaller keys, so the
      keys up to `i` no longer increase. */
  method InsertLeft<T>(a: array<T>, key: T -> int, i: nat)
    requires i < a.Length
    requires forall p, q :: 0 <= p < q < i ==> key(a[p]) >= key(a[q])
    modifies a
    ensures forall p, q :: 0 <= p < q <= i ==> key(a[p]) >= key(a[q])
    ensures multiset(a[..]) == multiset(old(a[..]))
  {
    var j := i;
    while j > 0 && key(a[j - 1]) < key(a[j])
      invariant 0 <= j <= i
      invariant forall p, q :: 0 <= p < q <= i && p != j && q != j ==> key(a[p]) >= key(a[q])
      invariant forall q :: j < q <= i ==> key(a[j]) > key(a[q])
      invariant multiset(a[..]) == multiset(old(a[..]))
    {
      Swap(a, j - 1, j);
      j := j - 1;
    }
  }

  method Swap<T>(a: array<T>, i: nat, j: nat)
    requires i < j < a.Length
    modifies a
    ensures a[..] == old(a[..])[i := old(a[j])][j := old(a[i])]
    ensures multiset(a[..]) == multiset(old(a[..]))
  {
    a[i], a[j] := a[j], a[i];
  }

  // ---------------------------------------------------------------------
  // The scan itself

  /** The list of reports the scan pushes into. */
  class Scanner {
    var reports: seq<Report>
    /** The day files read so far, in the order they were read. */
    ghost var found: seq<Found>

    /** Each report pushed is the report of the day file read. */
    ghost predicate Valid()
      reads this
    {
      |reports| == |found|
      && forall k {:trigger ReportOfFound(found[k])} :: 0 <= k < |found| ==> reports[k] == ReportOfFound(found[k])
    }

    /** The reports are those of the day files read, in order. */
    lemma ValidReports()
      requires Valid()
      ensures reports == ReportsOf(found)
    {
      GatherOne(found, ReportSingleton);
      forall k | 0 <= k < |found| ensures reports[k] == ReportsOf(found)[k] {
        assert reports[k] == ReportOfFound(found[k]);
      }
    }

    constructor()
      ensures Valid() && found == []
    {
      reports := [];
      found := [];
    }

    /** `processReport`: reads the file and pushes its report; reading a
        directory fails, and the error is caught. */
    method ProcessReport(year: string, month: string, day: string, node: Node)
      requires Valid()
      modifies this
      ensures Valid() && found == old(found) + FoundOf(year, month, day, node)
    {
      if node.File? {
        var content := node.content;
        var date := DateString(year, month, day);
        var title := Title(content, date);
        var summary := ExtractSummary(content, MaxSummaryLength);
        var timeEntries := ExtractTimeEntries(content);
        var wordCount := WordCount(content);
        var f := Found(year, month, day, content);
        ghost var r0, f0 := reports, found;
        reports := reports + [Report(date, year, month, day, title, summary, timeEntries, wordCount,
                                     ReportPath(year, month, day))];
        found := found + [f];
        forall k | 0 <= k < |found| ensures reports[k] == ReportOfFound(found[k]) {
          if k < |f0| {
            assert found[k] == f0[k] && reports[k] == r0[k];
            assert r0[k] == ReportOfFound(f0[k]);
          }
        }
      }
    }

    /** `scanMonth`. */
    method ScanMonth(year: string, month: string, files: seq<Entry>)
      requires Valid()
      modifies this
      ensures Valid() && found == old(found) + MonthFound(year, month, files)
    {
      for i := 0 to |files|
        invariant Valid() && found == old(found) + MonthFound(year, month, files[..i])
      {
        var file := files[i];
        ghost var before := found;
        if EndsWith(file.name, ".md") {
          var day := RemoveFirst(file.name, ".md");
          if IsTwoDigits(day) {
            ProcessReport(year, month, day, file.node);
          }
        }
        assert found == before + FileFound(year, month, file);
        MonthFoundStep(year, month, files, i);
      }
      assert files[..|files|] == files;
    }

    /** `scanYear`. */
    method ScanYear(year: string, months: seq<Entry>)
      requires Valid()
      modifies this
      ensures Valid() && found == old(found) + YearFound(year, months)
    {
      for i := 0 to |months|
        invariant Valid() && found == old(found) + YearFound(year, months[..i])
      {
        var month := months[i];
        ghost var before := found;
        if month.node.Dir? && IsTwoDigits(month.name) {
          ScanMonth(year, month.name, month.node.entries);
        }
        assert found == before + MonthDirFound(year, month);
        YearFoundStep(year, months, i);
      }
      assert months[..|months|] == months;
    }

    /** `scanReports` on the reports directory. */
    method ScanReports(entries: seq<Entry>)
      requires Valid()
      modifies this
      ensures Valid() && found == old(found) + RootFound(entries)
    {
      for i := 0 to |entries|
        invariant Valid() && found == old(found) + RootFound(entries[..i])
      {
        var entry := entries[i];
        ghost var before := found;
        if !Skipped(entry.name) && entry.node.Dir? && IsFourDigits(entry.name) {
          ScanYear(entry.name, entry.node.entries);
        }
        assert found == before + YearDirFound(entry);
        RootFoundStep(entries, i);
      }
      assert entries[..|entries|] == entries;
    }

    /** `reports.sort(...)` newest first: the same reports, reordered. The
        day files read stay as they were; the index-wise tie of `Valid()`
        ends here, and what remains is that the reports are, as a multiset,
        those of the day files read. */
    method SortByDate()
      modifies this
      ensures NewestFirst(reports)
      ensures multiset(reports) == multiset(old(reports))
      ensures found == old(found)
      ensures old(Valid()) ==> multiset(reports) == multiset(ReportsOf(found))
    {
      if Valid() {
        ValidReports();
      }
      var rs := reports;
      var a := new Report[|rs|](k requires 0 <= k < |rs| => rs[k]);
      assert a[..] == rs;
      SortDescending(a, Rank);
      reports := a[..];
      forall p, q | 0 <= p < q < |reports| ensures NewerOrSame(reports[p], reports[q]) {
        RankOrder(reports[p], reports[q]);
      }
    }
  }
}
