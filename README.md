# clirc log watcher, modelled in Dafny

`log_watcher.rb` watches the Subversion working copies under `~/.clirc/projects/`
and announces each new commit on a chat channel, one line per commit, through a
line relay (`irccat`). This project models its decision logic:

- **Commit formatting** (`commit.dfy`, module `Commits`): `Commit#summary` keeps
  the text before the first newline of the message, cut to 50 characters plus
  `"..."` when it is longer; `Commit#to_s` builds
  `"<author> committed r<revision>: <summary>"`. A message with no first line
  (empty, or newlines only) makes Ruby call `size` on `nil`; the model returns
  an error there.
- **Ruby text primitives** (`ruby_text.dfy`, module `RubyText`): the parts of
  `split(/\n/)[0]`, `String#to_i`, `Integer#to_s` and `IO#puts` the notifier
  depends on, so that the cursor file's write/read round trip can be proved.
- **Per-project cursor** (`reporter.dfy`, module `Reporting`): `last_commit`,
  `record_last_commit` and `new_commits` over a store of cursor files
  (project name to file text, the `data/` directory), with the repository's
  head revision and its log entries given as inputs; the loop of
  `LogReporter#start` as a sequence of observations; the relay line
  `"[<project>] <text>\r\n"` and the sending loop of `report`.
- **Registry reconciliation** (`manager.dfy`, module `Manager`): the class
  `ProjectManager` holding `@@reporters` as a map from project name to
  `LogReporter` object, `reporter_names` (sorted keys), `start_reporting_on`,
  `stop_reporting_on`, and one pass of `run`'s loop.

Behaviour of the code worth knowing, all of it modelled as written:

- The summary keeps 50 characters of the first line, 53 with the `"..."` marker.
- `new_commits` writes the cursor before `report` sends anything, so a failed
  delivery does not hold the cursor back.
- A project with no cursor file takes the head as its last revision: nothing is
  reported and no cursor file is written, on every cycle. There is no seeding
  (`NoCursorNeverReports`).
- The cursor is written with the last log entry's revision whatever it is.
  Nothing keeps it from decreasing (`CursorFollowsLastEntry`).
- The log range is `-r<last>:HEAD`, which in Subversion includes revision `last`
  itself. The model takes the provider's entries as they come and does not
  filter them, as the code does.

## Model

| member | source | states |
|---|---|---|
| `RubyText.FirstLine` | log_watcher.rb:20 | `split(/\n/)[0]`: `nil` exactly when the text is only newlines (or empty); otherwise a newline-free prefix of the text that ends where the text ends or at a newline |
| `RubyText.FirstLineOfLines` | log_watcher.rb:20 | the first line of `line + "\n" + rest` is `line` when that is non-empty; with an empty `line` it is `""` unless `rest` is only newlines, and then `nil` |
| `RubyText.NatToString` | log_watcher.rb:100-105 | the decimal text of a natural number, as a cursor file holds it when the revision written is decimal, is non-empty and all digits |
| `RubyText.IntToString` | log_watcher.rb:100-105 | `n.to_s`, the text of the round trip `CursorRoundTrip` states, is non-empty and one line |
| `RubyText.ToI` | log_watcher.rb:84 | `to_i` is 0 unless the text holds a digit, and negative only when it holds a minus sign; with `ToIIntToString`, `n.to_s.to_i == n` |
| `RubyText.Puts` | log_watcher.rb:102 | `puts` writes the text followed by at most one character, a newline; a text already ending in a newline is written unchanged |
| `RubyText.ToIIntToString` | log_watcher.rb:84 | `n.to_s.to_i == n` for every integer |
| `RubyText.PutsThenFirstLineToI` | log_watcher.rb:84 | `puts n.to_s`, then first line, then `to_i`, gives back `n` |
| `Commits.Summary` | log_watcher.rb:18-26 | fails exactly when the message has no first line; otherwise the summary has no newline and at most 53 characters |
| `Commits.SummaryOfFirstLine` | log_watcher.rb:20-25 | a first line of at most 50 characters is the summary unchanged; a longer one gives its first 50 characters then `"..."`, 53 in all |
| `Commits.SummaryIgnoresLaterLines` | log_watcher.rb:19-21 | lines after the first never affect the summary; a message opening with a newline summarises to `""`, or fails when only newlines follow |
| `Commits.EmptyMessageFails` | log_watcher.rb:20-21 | an empty or newline-only message makes formatting fail |
| `Commits.ToS` | log_watcher.rb:14-16 | `to_s` fails exactly when the summary does |
| `Commits.ToSLayout` | log_watcher.rb:14-16 | the line is exactly the author, `" committed r"`, the revision, `": "` and the summary, at those positions |
| `Commits.ToSIgnoresLaterLines` | log_watcher.rb:14-26 | two commits whose messages share a non-empty first line format to the same line |
| `Reporting.ReportLine` | log_watcher.rb:65 | the relay line is five characters plus the project and the text long, opens with `[` and ends with CR LF; it holds no other newline when project and text hold none |
| `Reporting.MessageText` | log_watcher.rb:63-65 | `message.to_s` of a plain text is that text; for a commit it fails exactly when the message has no first line |
| `Reporting.Unframe` | log_watcher.rb:65 | a text the relay reads from a line is five characters plus the project name shorter than the line |
| `Reporting.UnframeReportLine` | log_watcher.rb:65 | the relay reads back exactly the text framed as `"[<project>] <text>\r\n"` |
| `Reporting.ReportLineOfUnframe` | log_watcher.rb:65 | every line the relay accepts for a project is the framing of the text it reads |
| `Reporting.CursorStore.constructor` | log_watcher.rb:107-109 | the store starts with the given cursor files |
| `Reporting.LogReporter.constructor` | log_watcher.rb:145 | a new reporter belongs to its project and has no thread |
| `Reporting.LogReporter.Start` | log_watcher.rb:48-58 | start gives the reporter a new polling thread |
| `Reporting.LogReporter.Stop` | log_watcher.rb:42-46 | stop leaves the reporter without a thread; it needs a started reporter |
| `Reporting.LogReporter.RecordLastCommit` | log_watcher.rb:100-105 | the project's cursor file, and no other, becomes the revision text as `puts` writes it |
| `Reporting.LogReporter.NewCommits` | log_watcher.rb:72-80 | returns and stores what `NewCommitsStep` gives for the old cursor files |
| `Reporting.LogReporter.Report` | log_watcher.rb:60-70 | sends one framed line per message in order, and stops exactly at the first message whose text cannot be formed |
| `Reporting.LastCommit` | log_watcher.rb:82-88 | with no cursor file the last revision is the head; a cursor file with no line reads as 0; `CursorRoundTrip` gives the value of a written cursor |
| `Reporting.NewCommitsStep` | log_watcher.rb:72-80 | returns nothing or every log entry; writes nothing unless entries are returned; touches no cursor file but the project's, which it may create |
| `Reporting.Cycles` | log_watcher.rb:50-56 | any number of polling cycles creates or rewrites no cursor file but the project's |
| `Reporting.UpToDateReportsNothing` | log_watcher.rb:73 | with the head at the last recorded revision, nothing is reported and the cursor files are unchanged |
| `Reporting.NoCursorNeverReports` | log_watcher.rb:50-56 | a project with no cursor file reports nothing over any number of polling cycles and never gets a cursor file |
| `Reporting.MovedHeadReportsLog` | log_watcher.rb:72-80 | when the head moved: an empty log is an error with nothing written; otherwise every entry is returned in order and only the project's cursor changes, to the last entry's revision |
| `Reporting.CursorRoundTrip` | log_watcher.rb:82-88 | a cursor written by `record_last_commit(n.to_s)` reads back as `n` |
| `Reporting.CursorFollowsLastEntry` | log_watcher.rb:78 | after an advance the cursor reads as the last entry's revision, larger or not, and the next cycle at that head reports nothing |
| `Reporting.EmptyCursorFileReadsZero` | log_watcher.rb:84 | a cursor file with no line reads as revision 0 |
| `Manager.LexLess` | log_watcher.rb:140 | the string order `sort` uses is strict; `LexLessTransitive` and `LexLessTotal` make it a total order |
| `Manager.Minus` | log_watcher.rb:126-127 | `xs - ys` holds exactly the elements of `xs` not in `ys`, and is no longer than `xs` |
| `Manager.SameListingNothingToDo` | log_watcher.rb:126-127 | when the listing and the registered names agree, there is nothing to start and nothing to stop |
| `Manager.ProjectManager.constructor` | log_watcher.rb:117 | the registry starts empty |
| `Manager.ProjectManager.ReporterNames` | log_watcher.rb:139-141 | the registered names, each once, in ascending string order |
| `Manager.ProjectManager.StartReportingOn` | log_watcher.rb:143-149 | no change when the project is registered; otherwise only that key is added, to a fresh running reporter |
| `Manager.ProjectManager.StopReportingOn` | log_watcher.rb:151-156 | no change when the project is not registered; otherwise only that key is removed and its reporter is stopped |
| `Manager.ProjectManager.StartEach` | log_watcher.rb:128-130 | the keys become the old keys plus the names given; old reporters stay as they were |
| `Manager.ProjectManager.StopEach` | log_watcher.rb:131-133 | the keys become the old keys minus the names given; the reporters removed are stopped, the others untouched |
| `Manager.ProjectManager.Reconcile` | log_watcher.rb:123-133 | after one pass the registry's keys are exactly the listed projects; kept reporters are the same objects on the same thread; new ones are fresh; removed ones are stopped; a pass over the registered listing changes nothing |

## Left out

- Threads, `sleep`, the random jitter and the 0.5 second pacing: `start` and
  `stop` are modelled as setting or clearing the reporter's thread, and the
  polling loop as a finite sequence of cycles.
- The TCP socket to `irccat.local:12345` and the console log line with a
  timestamp: only the text of the relay line is modelled.
- The "Starting." and "Stopping." announcements made by `start` and `stop`:
  `Report` models how any such message is sent, but `Start` and `Stop` do not
  send them.
- `svn info`, `svn log --xml`, the Hpricot queries and the regular expressions
  over `svn` output: the head revision and the log entries are inputs, and an
  entry's author, revision and message are strings.
- Each call to `head_commit` and `last_commit` re-runs `svn info` or re-reads
  the file; the model takes one head revision per cycle, so a commit landing
  between two of those calls is not modelled.
- `Dir[...]` discovery and paths under `ENV['HOME']`: the project listing is an
  input sequence, and cursor files are keyed by project name.
- The endless `loop` of `run` with `sleep 5`: one reconciliation pass is
  modelled.
- `Commits.Summary`: characters are counted as Unicode code points; under a
  Ruby whose strings count bytes, a multi-byte first line is cut at a
  different place.
- `RubyText.ToI`: follows `String#to_i` for white space, sign, digits and
  single underscores between digits; it is not claimed to match every
  Ruby version's corner cases.
