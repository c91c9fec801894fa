/** The records exchanged by the providers: changed lines, blame entries and
    per-commit change summaries. */
module Models {

  /** A `DateTimeOffset`, kept as an opaque tick count: it is only copied. */
  type Timestamp = int

  /** One changed line. `Content` carries the change sign as its first character. */
  datatype CodeLine = CodeLine(LineNumber: int, Content: string)
  {
    /** An added line: the content gets a `+` prefix. */
    static function Add(lineNumber: int, content: string): (r: CodeLine)
      ensures r.LineNumber == lineNumber
      ensures |r.Content| == |content| + 1 && r.Content[0] == '+'
      ensures r.Content[1..] == content
    {
      CodeLine(lineNumber, "+" + content)
    }

    /** A deleted line: the content gets a `-` prefix. */
    static function Delete(lineNumber: int, content: string): (r: CodeLine)
      ensures r.LineNumber == lineNumber
      ensures |r.Content| == |content| + 1 && r.Content[0] == '-'
      ensures r.Content[1..] == content
    {
      CodeLine(lineNumber, "-" + content)
    }
  }

  /** The two factories differ in the first character of the content only. */
  lemma AddDeleteDifferInSignOnly(n: int, s: string)
    ensures CodeLine.Add(n, s).LineNumber == CodeLine.Delete(n, s).LineNumber
    ensures CodeLine.Add(n, s).Content[1..] == CodeLine.Delete(n, s).Content[1..]
    ensures CodeLine.Add(n, s) != CodeLine.Delete(n, s)
  {
    assert CodeLine.Add(n, s).Content[0] != CodeLine.Delete(n, s).Content[0];
  }

  /** One blamed line of the working copy. */
  datatype CodeLineChange = CodeLineChange(
    Line: int,
    Author: string,
    Email: string,
    CommitSha: string,
    CommitDate: Timestamp)

  /** The lines one commit changed inside the requested window. */
  datatype CodeChangeSummary = CodeChangeSummary(
    CommitSha: string,
    Author: string,
    Message: string,
    Date: Timestamp,
    ChangedLines: seq<CodeLine>)
}
