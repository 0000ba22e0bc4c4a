# daily-app reports, modelled in Dafny

daily-app is a desktop client for writing a daily work report. It stores each
day's report as a Markdown file in a GitHub repository. A site generator then
turns those files into an index and statistics. This project models three
pieces of that logic and proves what they promise.

- **The index script** (`scripts/generate-index.js`).
  - It walks `site/docs/YYYY/MM/DD.md`. Each report becomes a record: its date, its title, a summary, its `## HH:MM` time entries, a word count and a site path.
  - It sorts the records newest first.
  - It computes the statistics: totals, this year's and this month's counts, counts per month and per year, the average word count, the first and last dates, and the writing streak.
  - Modules `Strings`, `Dates`, `FileTree`, `ReportParse`, `ReportScan`, `ReportStats` and `GenerateIndex`.
- **The client's GitHub service** (`src/main/github-service.ts`).
  - A date maps to the path `YYYY/MM/DD.md`.
  - `getTodayReport` reads today's file.
  - `submitReport` appends a `## HH:MM` section to today's file, or creates the file with a `# date 日报` header. It writes the file back with the sha it read.
  - Module `GitHubService`. The repository is a `Repository` object whose `files` map goes from path to item.
- **The migration script** (`scripts/migrate-reports.js`).
  - It copies every `.md` file of an older `docs/` tree into `site/docs/` and counts the copies. It then removes `docs/`.
  - Module `MigrateReports`. The working directory is a `FileTree` value that a `FileSystem` object updates.

The source keeps state in a few places, and the model keeps it in the same places:
- the report list that the scan pushes into is a `Scanner` object;
- the remote repository is a `Repository` object;
- the working directory of the migration is a `FileSystem` object.

The loops of the source are methods with loops:
- `extractTimeEntries`;
- the streak walk and the tallies of `generateStats`;
- the directory scans;
- the in-place sort;
- `migrateDirectory`.

Each of these methods except the sort is proved equal to a reference function, and the lemmas state their properties about that function. The sort is proved to leave the reports newest first and to be a permutation of its input; it is not proved equal to a reference sort. Regular expressions are written out as the character tests they perform. A JavaScript date string is a day number, or `None` where `new Date` gives an invalid date.

The client writes `YYYY/MM/DD.md` relative to the repository root. The index scans `site/docs`. The model keeps both paths exactly as the source has them.

## Model

| member | source | states |
|---|---|---|
| ReportParse.HeadingTime | scripts/generate-index.js:141 | a time captured by the heading pattern is always `H:MM` or `HH:MM` |
| ReportParse.ClockHeading | scripts/generate-index.js:141 | `## ` followed by a clock time is a time heading that captures exactly that time |
| ReportParse.ExtractTimeEntries | scripts/generate-index.js:134-166 | the line loop yields exactly the entries of the reference definition: the lines cut at the time headings, each section's lines joined with newlines and trimmed |
| ReportParse.EntryPerHeading | scripts/generate-index.js:140-164 | there is one entry per time-heading line, in the order of those lines, and each entry carries its heading's time |
| ReportParse.PreambleDropped | scripts/generate-index.js:140-155 | lines before the first time heading contribute nothing |
| ReportParse.NoHeadingNoEntries | scripts/generate-index.js:159-166 | a text without a time-heading line has no entries |
| ReportParse.SectionsOfAppend | scripts/generate-index.js:140-164 | appending a heading and heading-free lines adds exactly one section at the end and leaves the earlier ones unchanged |
| ReportParse.HeaderTitle | scripts/generate-index.js:82-83 | a text whose first line is `# ` followed by a non-blank line has that line as its title |
| ReportParse.WordCount | scripts/generate-index.js:92 | the word count never exceeds the length of the text |
| ReportParse.WordCountAppend | scripts/generate-index.js:92 | the word count of a concatenation is the sum of the parts' counts |
| ReportParse.SummaryText | scripts/generate-index.js:115-123 | the cleaned text is no longer than the report and has no white space at either end |
| ReportParse.ExtractSummary | scripts/generate-index.js:113-131 | the summary is at most maxLength + 3 long; a cleaned text of at most maxLength is returned unchanged; a longer one becomes its first maxLength characters followed by `...` |
| ReportScan.YearNotSkipped | scripts/generate-index.js:34-45 | a four-digit name is never one of the skipped names |
| ReportScan.DayFile | scripts/generate-index.js:64-73 | the month scan takes a file as day `d` exactly when `d` is two digits and the file is named `d.md` |
| ReportScan.DateNames | scripts/generate-index.js:79 | the date `${year}-${month}-${day}` splits back into the year, month and day names |
| ReportScan.PathNames | scripts/generate-index.js:103 | the path `/daily/docs/${year}/${month}/${day}` splits back into its components |
| ReportScan.FoundShape | scripts/generate-index.js:27-74 | every file the scan reads sits at a four-digit year directory, a two-digit month directory and a file named with two digits and `.md` |
| ReportScan.DayFileFound | scripts/generate-index.js:27-74 | every such file is read by the scan |
| ReportScan.Scanner.ProcessReport | scripts/generate-index.js:76-104 | pushes the report of a day file, or nothing when reading the file fails because it is a directory |
| ReportScan.Scanner.ScanMonth | scripts/generate-index.js:62-73 | pushes the reports of the month's day files in directory order |
| ReportScan.Scanner.ScanYear | scripts/generate-index.js:50-59 | pushes the reports of the year's month directories in order |
| ReportScan.Scanner.ScanReports | scripts/generate-index.js:27-47 | pushes the reports of all year directories in order |
| ReportScan.Scanner.ValidReports | scripts/generate-index.js:94-104 | each report pushed is the report built from the day file that was read |
| ReportScan.RankOrder | scripts/generate-index.js:173 | the integer sort key orders two reports as the comparator `new Date(b.date) - new Date(a.date)` does |
| ReportScan.SortDescending | scripts/generate-index.js:173 | the sort leaves the keys non-increasing and the elements a permutation of the original ones |
| ReportScan.Scanner.SortByDate | scripts/generate-index.js:173 | the reports end up newest first and are a permutation of the reports before the sort; the day files read are unchanged, so the sorted reports are still those of the day files read, as a multiset |
| Dates.DateStringValue | scripts/generate-index.js:173 | a date with month 01-12 and day 01-31 is valid and has the day number of its year, month and day |
| Dates.DateStringInvalid | scripts/generate-index.js:173 | a date with month 00 or above 12, or day 00 or above 31, is invalid |
| Dates.MonthEnd | scripts/generate-index.js:237-238 | stepping back one day from the first of a month gives the last day of the previous month |
| Dates.YearEnd | scripts/generate-index.js:237-238 | stepping back one day from January 1st gives December 31st of the previous year |
| Dates.YearLength | scripts/generate-index.js:237-238 | a year has 366 days exactly when it is a leap year |
| ReportStats.LessTransitive | scripts/generate-index.js:216 | the string order of `sort()` is transitive |
| ReportStats.LessTotal | scripts/generate-index.js:216 | any two different strings are ordered one way or the other |
| ReportStats.SortedDates | scripts/generate-index.js:216 | the deduplicated, reverse-sorted dates are strictly decreasing and hold exactly the reports' dates |
| ReportStats.StrictDescUnique | scripts/generate-index.js:216 | two strictly decreasing lists with the same elements are equal, so the sorted list depends only on the set of dates |
| ReportStats.SortedDatesEnds | scripts/generate-index.js:289-290 | the first element of the sorted dates is the greatest date and the last one is the smallest |
| ReportStats.WalkStreak | scripts/generate-index.js:231-246 | the loop counts, from the checked day, dates that fall on that day or the day before it, and stops at the first other date |
| ReportStats.ComputeStreak | scripts/generate-index.js:214-266 | the streak is 0 when the latest date is more than a day before today, and otherwise the walk from the latest date |
| ReportStats.StreakFromLatest | scripts/generate-index.js:224-229 | a latest report more than one day before today gives streak 0; one written today or yesterday gives at least 1 |
| ReportStats.StreakCountsRun | scripts/generate-index.js:250-261 | a run of dates each one or two days after the next counts in full, so a single missing day does not break the streak |
| ReportStats.StreakStopsAtBreak | scripts/generate-index.js:243-245 | the streak stops at the first pair of dates more than two days apart, or at an invalid date |
| ReportStats.Tally | scripts/generate-index.js:268-276 | the `forEach` loop builds the month and year tallies of the reports |
| ReportStats.TallyCounts | scripts/generate-index.js:272-276 | a key is in a tally exactly when some report has it, and its entry is the number of such reports |
| ReportStats.TallySum | scripts/generate-index.js:272-276 | the entries of a tally add up to the number of reports |
| ReportStats.MonthWithinYear | scripts/generate-index.js:283-284 | this month's count never exceeds this year's count |
| ReportStats.RoundDiv | scripts/generate-index.js:286 | `Math.round(total / n)` is the integer nearest total / n, with halves rounded up |
| ReportStats.GenerateStats | scripts/generate-index.js:196-292 | the statistics are those of the reference definition, and the all-zero record when there are no reports |
| ReportStats.StatsFigures | scripts/generate-index.js:280-291 | thisMonth ≤ thisYear ≤ total = number of reports; both tallies sum to the total; thisYear is this year's tally; streak ≤ distinct dates ≤ total; firstDate and lastDate are the smallest and the greatest date |
| GenerateIndex.BuildIndex | scripts/generate-index.js:170-173 | the index holds every report of the scan, each once, newest first |
| GenerateIndex.Generate | scripts/generate-index.js:9-191 | without site/docs the outputs are an empty index and the all-zero statistics; with it they are the sorted index and that index's statistics; a file at site/docs makes the run fail |
| GitHubService.FilePathRoundTrip | src/main/github-service.ts:36-41 | the path of a date splits into a four-digit year, a two-digit month and a day file that the index's month scan reads as that day |
| GitHubService.FilePathSameDay | src/main/github-service.ts:36-41 | two moments share a report path exactly when they fall on the same calendar day |
| GitHubService.TimestampHeading | src/main/github-service.ts:65-68 | the `HH:MM` timestamp is a clock time, so the heading written with it is recognised as a time heading |
| GitHubService.ComposeAppends | src/main/github-service.ts:89 | the old text is a prefix of the composed text, and the submitted text follows the new heading |
| GitHubService.ComposeEntries | src/main/github-service.ts:89 | the composed text parses as the old entries plus one entry holding the timestamp and the trimmed submitted text, if that text has no time-heading line |
| GitHubService.HeaderEntries | src/main/github-service.ts:85-87 | the header of a new report has no time entries |
| GitHubService.CreatedTitle | src/main/github-service.ts:85-89 | a report created by the client has its header line as the title the index shows |
| GitHubService.SubmitAccepted | src/main/github-service.ts:76-99 | the sha sent is the one the write needs: the write is refused only when something other than a file sits at today's path |
| GitHubService.SubmitTouchesToday | src/main/github-service.ts:91-99 | a submission writes today's path and leaves every other path as it was |
| GitHubService.SubmitKeepsText | src/main/github-service.ts:70-89 | an existing report only grows: its text is a prefix of the text written back |
| GitHubService.SubmitCreates | src/main/github-service.ts:85-98 | a missing report is created: the write, sent without a sha, is accepted, and the new file starts with the header, whose line is its title |
| GitHubService.SubmitAddsEntry | src/main/github-service.ts:63-100 | after a submission, today's report has exactly one more time entry than before, the last one |
| GitHubService.Repository.CreateOrUpdate | src/main/github-service.ts:91-99 | a write is accepted exactly when it creates a file without a sha or updates a file with its current sha; it then changes only that path and records one commit |
| GitHubService.Repository.GetTodayReport | src/main/github-service.ts:43-61 | returns today's file text, or "" when nothing is at the path or the item there has no content |
| GitHubService.WriteNeedsUnchanged | src/main/github-service.ts:74-99 | a write with the sha read earlier is accepted by the repository as it is now exactly when today's path holds the same file with the same sha, or is still free |
| GitHubService.ConcurrentSubmitRefused | src/main/github-service.ts:74-99 | of two submissions that read the same state, the second write is refused once the first is written, so the first entry is not overwritten |
| GitHubService.Repository.ReadBase | src/main/github-service.ts:71-87 | the read gives the file's text and sha, a fresh header and no sha when nothing is at the path, or "" and no sha when the item has no content |
| GitHubService.Repository.WriteBack | src/main/github-service.ts:89-99 | the write appends the timed section to what was read and is accepted exactly when the sha read still fits the repository; it then changes only today's path and records one commit, and otherwise changes nothing |
| GitHubService.Repository.SubmitReport | src/main/github-service.ts:63-100 | with no other writer between read and write, the repository becomes the reference result, or stays as it was when the write is refused |
| MigrateReports.MigrateDirectory | scripts/migrate-reports.js:40-60 | the recursive loop creates directories, copies `.md` files and counts them as the reference walk does, and stops at the first failing call |
| MigrateReports.FileSystem.MigrateReports | scripts/migrate-reports.js:10-79 | the working directory and the result become those of the reference migration |
| MigrateReports.NoDocsNoMigration | scripts/migrate-reports.js:16-22 | without `docs` the result is `{ migrated: false, count: 0 }` and nothing changes |
| MigrateReports.NoYearNoMigration | scripts/migrate-reports.js:25-33 | without a four-digit directory in `docs` the result is `{ migrated: false, count: 0 }` and nothing changes |
| MigrateReports.CountMigrated | scripts/migrate-reports.js:52-57 | a successful walk counts exactly the `.md` files of the tree |
| MigrateReports.MigrateEntriesOthers | scripts/migrate-reports.js:43-59 | names of the destination that do not occur in the source are left untouched |
| MigrateReports.PathsAfterMigration | scripts/migrate-reports.js:40-60 | every `.md` file of the source is at the same relative path in the destination with the same content; every source directory exists there; every other path keeps what the destination held |
| MigrateReports.MigratedTree | scripts/migrate-reports.js:62-66 | after a migration, `site/docs/p` holds every `.md` file and directory at `p` under `docs`, and other paths keep what `site/docs` held |
| MigrateReports.SiteDocsPath | scripts/migrate-reports.js:62-74 | the migrated tree is reachable under `site/docs`, whether `docs` is removed or not |
| MigrateReports.MigrationIdempotent | scripts/migrate-reports.js:69-74 | once `docs` has been removed, a second run migrates nothing and changes nothing |

## Left out

- Octokit, base64 and the network are not modelled. The repository is a map from path to item. A read fails only when nothing is at the path.
- GitHubService.Repository.GetTodayReport: does not model network or permission errors. Those also give "" in the source.
- GitHubService.Repository.SubmitReport: runs the read and the write back to back, with no other writer in between. A commit between the two is modelled by calling `ReadBase` and `WriteBack` separately; `WriteNeedsUnchanged` and `ConcurrentSubmitRefused` state that the stale write is then refused. The source does not retry a refused write: its promise rejects, which is the `false` result here.
- GitHubService.Repository.CreateOrUpdate: the model states GitHub's acceptance rule for writes as a predicate, because the rule lives on the server. The new blob sha is a parameter.
- The clock, time zones and locale formatting are not modelled. Each is a parameter.
  - Each operation reads the clock once. The source calls `new Date()` several times: src/main/github-service.ts:64, 65, 86 and 95, and scripts/generate-index.js:210 and 220. So a submission that straddles midnight is not modelled. Such a submission writes day D's path with the next day's timestamp, header and commit message.
  - `new Date()` is a local date and time.
  - `toLocaleTimeString('zh-CN', …)` is taken as `HH:MM` on the 24-hour clock.
  - `toLocaleDateString('zh-CN')` is taken as `YYYY/M/D`.
  - `new Date('YYYY-MM-DD')` is UTC midnight, while today is local midnight. The model compares whole day numbers.
- `new Date(s)` accepts some strings that are not `YYYY-MM-DD`, through V8's legacy parser. The model treats them as invalid. The scan only builds dates of that shape anyway.
- ReportScan.Scanner.SortByDate: the comparator returns `NaN` for an invalid date. The model ranks invalid dates after every valid one. The contract does not state stability, so reports with equal dates may come out in any order.
- Strings are sequences of characters, while JavaScript counts UTF-16 code units. The word count and the summary cut differ for characters outside the Basic Multilingual Plane.
- The order of keys in the `byMonth` and `byYear` JSON objects is not modelled. The tallies are maps.
- ReportScan.Scanner.ProcessReport: read errors other than reading a directory are not modelled. The script logs them and skips the file.
- The JSON files are the result of `GenerateIndex.Generate`, not writes.
- `mkdir` of `site/.vitepress` and console output are not modelled.
- MigrateReports.FileSystem.MigrateReports: whether `rm` succeeds is a parameter. Its failure is only logged.
- Read and write errors of the migration other than a file at a directory path are not modelled.
- The exit codes of both scripts are not modelled.
- Commit batching (`getCommitStatus`, `manualPush`) is not modelled. src/renderer/types.ts:8-27 declares its interface, and it is not implemented in the three modelled files.
- The Electron shell, IPC, the React UI and the VitePress configuration are not modelled. They hold no logic beyond wiring.
