/** The whole run of scripts/generate-index.js: scan site/docs for reports,
    sort them newest first and compute the statistics. The two JSON files
    the script writes are the two parts of the result. */
module GenerateIndex {

  import opened Wrappers
  import opened FileTree
  import opened ReportScan
  import opened ReportStats

  /** The contents of `reports-index.json` and of `stats.json`. */
  datatype Output = Output(index: seq<Report>, stats: Stats)

  /** The scan of site/docs and the sort: every report the scan finds, each
      once, newest first. */
  method BuildIndex(entries: seq<Entry>) returns (index: seq<Report>)
    ensures multiset(index) == multiset(ReportsOf(RootFound(entries)))
    ensures NewestFirst(index)
  {
    var scanner := new Scanner();
    scanner.ScanReports(entries);
    assert scanner.found == RootFound(entries);
    scanner.ValidReports();
    ghost var scanned := scanner.reports;
    assert scanned == ReportsOf(RootFound(entries));
    scanner.SortByDate();
    index := scanner.reports;
  }

  /** `generateIndex`. `docs` is what sits at site/docs, `None` when
      nothing does; the result is `None` when the run fails, which happens
      when site/docs is a file and listing it throws. */
  method Generate(docs: Option<Node>, now: Clock) returns (out: Option<Output>)
    requires now.Valid()
    ensures docs.None? ==> out == Some(Output([], NoStats))
    ensures docs.Some? && docs.value.File? ==> out.None?
    ensures docs.Some? && docs.value.Dir? ==>
      && out.Some?
      && multiset(out.value.index) == multiset(ReportsOf(RootFound(docs.value.entries)))
      && NewestFirst(out.value.index)
      && out.value.stats == StatsOf(out.value.index, now)
  {
    if docs.None? {
      var stats := GenerateStats([], now);
      return Some(Output([], stats));
    }
    match docs.value
    case File(_) =>
      return None;
    case Dir(entries) =>
      var index := BuildIndex(entries);
      var stats := GenerateStats(index, now);
      return Some(Output(index, stats));
  }
}
