/**
 * One Subversion log entry and the one-line text the notifier makes of it
 * (`Commit#summary` and `Commit#to_s`).
 */
module Commits {
  import opened Wrappers
  import opened RubyText

  /**
   * The fields the notifier reads from a `<logentry>` fragment: the author's
   * text, the `revision` attribute (a string, interpolated as it stands) and
   * the message text.
   */
  datatype Commit = Commit(author: string, revision: string, message: string)

  /** Calling `size` on the `nil` first line of a message that has no line. */
  datatype Error = NoFirstLine

  /** A first line longer than this is cut to this many characters. */
  const SummaryWidth: nat := 50
  const Ellipsis := "..."

  /**
   * `Commit#summary`: the first line of the message, cut to `SummaryWidth`
   * characters followed by `Ellipsis` when it is longer than that; an
   * error when the message has no first line.
   */
  function Summary(message: string): (r: Result<string, Error>)
    ensures r.Failure? <==> AllNewlines(message)
    ensures r.Success? ==> '\n' !in r.value && |r.value| <= SummaryWidth + |Ellipsis|
  {
    match FirstLine(message)
    case None => Failure(NoFirstLine)
    case Some(line) =>
      if |line| > SummaryWidth then Success(line[..SummaryWidth] + Ellipsis) else Success(line)
  }

  /** `Commit#to_s`: "<author> committed r<revision>: <summary>". */
  function ToS(c: Commit): (r: Result<string, Error>)
    ensures r.Failure? <==> Summary(c.message).Failure?
  {
    match Summary(c.message)
    case Failure(e) => Failure(e)
    case Success(s) => Success(c.author + " committed r" + c.revision + ": " + s)
  }

  /**
   * The truncation rule: a first line of at most 50 characters is the
   * summary unchanged; a longer one keeps its first 50 characters, then
   * "...", 53 characters in all.
   */
  lemma SummaryOfFirstLine(message: string, line: string)
    requires FirstLine(message) == Some(line)
    ensures |line| <= SummaryWidth ==> Summary(message) == Success(line)
    ensures |line| > SummaryWidth ==>
      Summary(message).Success? &&
      |Summary(message).value| == 53 &&
      Summary(message).value[..50] == line[..50] &&
      Summary(message).value[50..] == "..."
  {
  }

  /**
   * Only the text before the first newline matters: later lines never reach
   * the summary. A message opening with a newline has an empty first line,
   * unless nothing but newlines follows, and then it has none.
   */
  lemma SummaryIgnoresLaterLines(line: string, rest: string)
    requires '\n' !in line
    ensures line != [] ==> Summary(line + "\n" + rest) == Summary(line)
    ensures line == [] ==>
      Summary(line + "\n" + rest) == (if AllNewlines(rest) then Failure(NoFirstLine) else Success(""))
  {
    FirstLineOfLines(line, rest);
    if line != [] {
      FirstLineOfOneLine(line);
    }
  }

  /** The empty message, and one of newlines only, have no first line: formatting fails. */
  lemma EmptyMessageFails(author: string, revision: string, n: nat)
    ensures ToS(Commit(author, revision, seq(n, _ => '\n'))) == Failure(NoFirstLine)
  {
  }

  /**
   * The formatted line opens with the author, carries the revision after
   * " committed r", and closes with ": " and the summary; it is one line
   * whenever author and revision are.
   */
  lemma ToSLayout(c: Commit)
    requires Summary(c.message).Success?
    ensures var t := ToS(c).value; var s := Summary(c.message).value;
      var k := |c.author| + 12 + |c.revision|;
      |t| == k + 2 + |s| &&
      t[..|c.author|] == c.author &&
      t[|c.author|..|c.author| + 12] == " committed r" &&
      t[|c.author| + 12..k] == c.revision &&
      t[k..k + 2] == ": " &&
      t[k + 2..] == s
  {
  }

  /** Two commits whose messages share a non-empty first line format alike. */
  lemma ToSIgnoresLaterLines(author: string, revision: string, line: string, rest1: string, rest2: string)
    requires '\n' !in line && line != []
    ensures ToS(Commit(author, revision, line + "\n" + rest1)) == ToS(Commit(author, revision, line + "\n" + rest2))
  {
    SummaryIgnoresLaterLines(line, rest1);
    SummaryIgnoresLaterLines(line, rest2);
  }
}
