/**
 * `LogReporter`: for one project, decide which commits are new since the
 * cursor stored in `data/<project>.head`, move that cursor, and frame each
 * message as the line sent to the chat relay.
 *
 * The repository is an input: its head revision and the log entries the
 * provider returns for the range from the cursor to HEAD.
 */
module Reporting {
  import opened Wrappers
  import opened RubyText
  import opened Commits

  /** `commits[-1]` is `nil` when the log for a moved head comes back empty. */
  datatype CycleError = NoLogEntries

  /**
   * The `data/` directory: for each project that has a cursor file, the
   * file's text. It is shared by every reporter of the process.
   */
  class CursorStore {
    var files: map<string, string>

    constructor (files: map<string, string>)
      ensures this.files == files
    {
      this.files := files;
    }
  }

  /**
   * `last_commit`: the first line of the project's cursor file read as an
   * integer (`nil.to_i` is 0 when the file holds no line), or the head
   * revision when the project has no cursor file.
   */
  function LastCommit(files: map<string, string>, project: string, head: int): (r: int)
    ensures project !in files ==> r == head
    ensures project in files && AllNewlines(files[project]) ==> r == 0
  {
    if project in files then
      match FirstLine(files[project])
      case None => 0
      case Some(line) => ToI(line)
    else head
  }

  /** What one call of `new_commits` returns, and the cursor files it leaves. */
  datatype Step = Step(result: Result<seq<Commit>, CycleError>, files: map<string, string>)

  /**
   * `new_commits`: nothing when the head is the last recorded revision;
   * otherwise every entry of the log, in the order given, after the last
   * entry's revision has been written to the project's cursor file.
   */
  function NewCommitsStep(files: map<string, string>, project: string, head: int, entries: seq<Commit>): (r: Step)
    ensures r.result.Success? ==> r.result.value == [] || r.result.value == entries
    ensures r.result.Failure? || r.result.value == [] ==> r.files == files
    ensures files.Keys <= r.files.Keys <= files.Keys + {project}
    ensures forall q :: q in files && q != project ==> q in r.files && r.files[q] == files[q]
  {
    if head == LastCommit(files, project, head) then Step(Success([]), files)
    else if entries == [] then Step(Failure(NoLogEntries), files)
    else Step(Success(entries), files[project := Puts(entries[|entries| - 1].revision)])
  }

  /** One iteration of a reporter's polling loop sees this head and this log. */
  datatype Observation = Observation(head: int, entries: seq<Commit>)

  /** Every commit the polling loop passed on, and the cursor files at the end. */
  datatype Trace = Trace(reported: seq<Commit>, files: map<string, string>)

  /**
   * The loop of `LogReporter#start`, one observation per iteration; an
   * error raised by `new_commits` ends the polling thread.
   */
  function Cycles(files: map<string, string>, project: string, obs: seq<Observation>): (r: Trace)
    ensures files.Keys <= r.files.Keys <= files.Keys + {project}
    ensures forall q :: q in files && q != project ==> q in r.files && r.files[q] == files[q]
    decreases |obs|
  {
    if obs == [] then Trace([], files)
    else
      var step := NewCommitsStep(files, project, obs[0].head, obs[0].entries);
      match step.result
      case Failure(_) => Trace([], step.files)
      case Success(commits) =>
        var rest := Cycles(step.files, project, obs[1..]);
        Trace(commits + rest.reported, rest.files)
  }

  /** What `report` sends: a plain text such as "Starting.", or a commit. */
  datatype Message = Note(text: string) | Entry(commit: Commit)

  /** `message.to_s`. */
  function MessageText(m: Message): (r: Result<string, Error>)
    ensures m.Note? ==> r == Success(m.text)
    ensures m.Entry? ==> (r.Failure? <==> AllNewlines(m.commit.message))
  {
    match m
    case Note(text) => Success(text)
    case Entry(c) => ToS(c)
  }

  /** The line written to the relay: "[<project>] <text>" and CR LF. */
  function ReportLine(project: string, text: string): (line: string)
    ensures |line| == |project| + |text| + 5
    ensures line[0] == '[' && line[|line| - 2..] == "\r\n"
    ensures '\n' !in project + text ==> '\n' !in line[..|line| - 1]
  {
    "[" + project + "] " + text + "\r\n"
  }

  /** The relay's reading of a line addressed to `project`: the text between the prefix and CR LF. */
  function Unframe(project: string, line: string): (r: Option<string>)
    ensures r.Some? ==> |r.value| + |project| + 5 == |line|
  {
    var k := |project| + 3;
    if |line| >= k + 2 && line[..k] == "[" + project + "] " && line[|line| - 2..] == "\r\n"
    then Some(line[k..|line| - 2])
    else None
  }

  /** Stands for the Ruby `Thread` running a reporter's polling loop; only its identity matters. */
  class PollingThread {
  }

  class LogReporter {
    const project: string
    var thread: PollingThread?

    constructor (project: string)
      ensures this.project == project && thread == null
    {
      this.project := project;
      thread := null;
    }

    /** `start`: spawns the polling thread. */
    method Start()
      modifies this
      ensures thread != null && fresh(thread)
    {
      thread := new PollingThread;
    }

    /** `stop`: terminates the polling thread and forgets it. */
    method Stop()
      requires thread != null
      modifies this
      ensures thread == null
    {
      thread := null;
    }

    /** `record_last_commit`: truncates the project's cursor file and `puts` the revision into it. */
    method RecordLastCommit(store: CursorStore, commitId: string)
      modifies store
      ensures store.files == old(store.files)[project := Puts(commitId)]
    {
      store.files := store.files[project := Puts(commitId)];
    }

    /** `new_commits`, with the repository's head and log given as inputs. */
    method NewCommits(store: CursorStore, head: int, entries: seq<Commit>) returns (r: Result<seq<Commit>, CycleError>)
      modifies store
      ensures r == NewCommitsStep(old(store.files), project, head, entries).result
      ensures store.files == NewCommitsStep(old(store.files), project, head, entries).files
    {
      if head == LastCommit(store.files, project, head) {
        return Success([]);
      }
      if entries == [] {
        return Failure(NoLogEntries);
      }
      RecordLastCommit(store, entries[|entries| - 1].revision);
      r := Success(entries);
    }

    /**
     * `report`: the lines sent, one per message and in order, until a
     * message cannot be turned into text; that error ends the sending
     * thread and no later message is sent.
     */
    method Report(messages: seq<Message>) returns (sent: seq<string>)
      ensures |sent| <= |messages|
      ensures forall i :: 0 <= i < |sent| ==>
        MessageText(messages[i]).Success? && sent[i] == ReportLine(project, MessageText(messages[i]).value)
      ensures |sent| < |messages| ==> MessageText(messages[|sent|]).Failure?
    {
      sent := [];
      var i := 0;
      while i < |messages|
        invariant i == |sent| <= |messages|
        invariant forall j :: 0 <= j < i ==>
          MessageText(messages[j]).Success? && sent[j] == ReportLine(project, MessageText(messages[j]).value)
      {
        var text := MessageText(messages[i]);
        if text.Failure? {
          return;
        }
        sent := sent + [ReportLine(project, text.value)];
        i := i + 1;
      }
    }
  }

  /** The relay recovers exactly the text that was framed. */
  lemma UnframeReportLine(project: string, text: string)
    ensures Unframe(project, ReportLine(project, text)) == Some(text)
  {
  }

  /** Every line the relay accepts for `project` is the framing of the text it reads. */
  lemma ReportLineOfUnframe(project: string, line: string)
    requires Unframe(project, line).Some?
    ensures ReportLine(project, Unframe(project, line).value) == line
  {
  }

  /** With the head at the last recorded revision, nothing is new and no cursor file changes. */
  lemma UpToDateReportsNothing(files: map<string, string>, project: string, head: int, entries: seq<Commit>)
    requires head == LastCommit(files, project, head)
    ensures NewCommitsStep(files, project, head, entries) == Step(Success([]), files)
  {
  }

  /**
   * A project without a cursor file takes the head as its last revision:
   * whatever the repository does, no iteration of its polling loop
   * reports anything, and no cursor file is ever written for it.
   */
  lemma {:induction false} NoCursorNeverReports(files: map<string, string>, project: string, obs: seq<Observation>)
    requires project !in files
    ensures Cycles(files, project, obs) == Trace([], files)
  {
    if obs != [] {
      NoCursorNeverReports(files, project, obs[1..]);
    }
  }

  /**
   * When the head has moved: an empty log is an error that leaves the files
   * as they were; otherwise every entry is reported in the order given and
   * the project's cursor file, and no other, now holds the last entry's
   * revision.
   */
  lemma MovedHeadReportsLog(files: map<string, string>, project: string, head: int, entries: seq<Commit>)
    requires head != LastCommit(files, project, head)
    ensures var step := NewCommitsStep(files, project, head, entries);
      (entries == [] ==> step == Step(Failure(NoLogEntries), files)) &&
      (entries != [] ==>
        step.result == Success(entries) &&
        step.files.Keys == files.Keys + {project} &&
        step.files[project] == Puts(entries[|entries| - 1].revision) &&
        forall q :: q in files && q != project ==> step.files[q] == files[q])
  {
  }

  /** A cursor file written with `record_last_commit(n.to_s)` reads back as `n`. */
  lemma CursorRoundTrip(files: map<string, string>, project: string, n: int, head: int)
    ensures LastCommit(files[project := Puts(IntToString(n))], project, head) == n
  {
    PutsThenFirstLineToI(n);
  }

  /**
   * When the last log entry's revision is the decimal text of `n`, the
   * cursor afterwards reads as `n`, whatever the cursor said before and
   * whether or not `n` is larger; once the head stays at `n`, the next
   * cycle reports nothing.
   */
  lemma CursorFollowsLastEntry(files: map<string, string>, project: string, head: int, entries: seq<Commit>, n: int)
    requires head != LastCommit(files, project, head)
    requires entries != [] && entries[|entries| - 1].revision == IntToString(n)
    ensures var step := NewCommitsStep(files, project, head, entries);
      LastCommit(step.files, project, n) == n &&
      forall later :: NewCommitsStep(step.files, project, n, later) == Step(Success([]), step.files)
  {
    CursorRoundTrip(files, project, n, n);
  }

  /** A cursor file with no line (empty, or newlines only) reads as revision 0. */
  lemma EmptyCursorFileReadsZero(files: map<string, string>, project: string, head: int)
    requires project in files && AllNewlines(files[project])
    ensures LastCommit(files, project, head) == 0
  {
  }
}
