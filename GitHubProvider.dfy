/** The GitHub provider's per-commit aggregation: for every commit that
    touched the file, find the file in the commit's detail, parse its patch
    for the window and keep a summary when some line changed. The commit
    list and each commit's detail are inputs, as the cache hands back what
    its fetch returns. */
module GitHubProvider {
  import opened Wrappers
  import opened Text
  import opened Models
  import opened GitDiffParser

  /** One file of a detailed commit, with its unified-diff patch text. */
  datatype CommitFile = CommitFile(Filename: string, Patch: string)

  /** The detailed commit: the files it changed. */
  datatype GitHubCommit = GitHubCommit(Files: seq<CommitFile>)

  /** An entry of the commit list: its sha and its author's name, message and date. */
  datatype CommitSummary = CommitSummary(Sha: string, AuthorName: string, Message: string, AuthorDate: Timestamp)

  /** A listed commit together with what fetching its detail returned. */
  datatype FetchedCommit = FetchedCommit(summary: CommitSummary, detail: Option<GitHubCommit>)

  /** The index of the first file whose name equals `path` ignoring case. */
  function FirstMatchingFile(files: seq<CommitFile>, path: string): (r: Option<nat>)
    ensures r.Some? ==> r.value < |files| && EqualsIgnoreCase(files[r.value].Filename, path)
    ensures r.Some? ==> forall j :: 0 <= j < r.value ==> !EqualsIgnoreCase(files[j].Filename, path)
    ensures r.None? ==> forall j :: 0 <= j < |files| ==> !EqualsIgnoreCase(files[j].Filename, path)
  {
    if files == [] then None
    else if EqualsIgnoreCase(files[0].Filename, path) then Some(0)
    else match FirstMatchingFile(files[1..], path)
      case None => None
      case Some(j) => Some(j + 1)
  }

  /** `Files.FirstOrDefault(f => f.Filename.Equals(path, OrdinalIgnoreCase))`. */
  function FindFile(files: seq<CommitFile>, path: string): (r: Option<CommitFile>)
    ensures r.Some? <==> exists j :: 0 <= j < |files| && EqualsIgnoreCase(files[j].Filename, path)
    ensures r.Some? ==> r.value in files && EqualsIgnoreCase(r.value.Filename, path)
  {
    match FirstMatchingFile(files, path)
    case None => None
    case Some(j) => Some(files[j])
  }

  /** What one commit contributes: nothing when its detail is missing, when
      it does not touch the file, or when no changed line falls in the
      window; otherwise a summary whose identity comes from the commit list
      entry and whose lines are the parse of the file's patch. */
  function CommitOutcome(c: FetchedCommit, path: string, newLine: char, startLine: int, endLine: int)
    : (r: Option<CodeChangeSummary>)
    ensures c.detail.None? ==> r.None?
    ensures c.detail.Some? && FindFile(c.detail.value.Files, path).None? ==> r.None?
    ensures c.detail.Some? && FindFile(c.detail.value.Files, path).Some?
            ==> (r.Some? <==> Scan(HeaderOf, Split(FindFile(c.detail.value.Files, path).value.Patch, newLine), startLine, endLine) != [])
    ensures r.Some? ==>
      && r.value.CommitSha == c.summary.Sha && r.value.Author == c.summary.AuthorName
      && r.value.Message == c.summary.Message && r.value.Date == c.summary.AuthorDate
      && |r.value.ChangedLines| > 0
      && c.detail.Some? && FindFile(c.detail.value.Files, path).Some?
      && r.value.ChangedLines == Scan(HeaderOf, Split(FindFile(c.detail.value.Files, path).value.Patch, newLine), startLine, endLine)
  {
    match c.detail
    case None => None
    case Some(commit) =>
      match FindFile(commit.Files, path)
      case None => None
      case Some(file) =>
        var linesChanged := Scan(HeaderOf, Split(file.Patch, newLine), startLine, endLine);
        if |linesChanged| == 0 then None
        else Some(CodeChangeSummary(c.summary.Sha, c.summary.AuthorName, c.summary.Message,
                                    c.summary.AuthorDate, linesChanged))
  }

  /** The summaries of all commits, in commit order; none for a missing list. */
  function Summaries(commits: Option<seq<FetchedCommit>>, path: string, newLine: char, startLine: int, endLine: int)
    : seq<CodeChangeSummary>
  {
    match commits
    case None => []
    case Some(cs) => FilterMap(cs, c => CommitOutcome(c, path, newLine, startLine, endLine))
  }

  /** `GetCodeChangesAsync`: the loop over the listed commits. */
  method GetCodeChanges(commitSummaries: Option<seq<FetchedCommit>>, relativeFilePath: string, newLine: char,
                        startLine: int, endLine: int) returns (result: seq<CodeChangeSummary>)
    ensures result == Summaries(commitSummaries, relativeFilePath, newLine, startLine, endLine)
  {
    if commitSummaries.None? || |commitSummaries.value| == 0 {
      return [];
    }
    var cs := commitSummaries.value;
    ghost var f := c => CommitOutcome(c, relativeFilePath, newLine, startLine, endLine);
    result := [];
    var i := 0;
    while i < |cs|
      invariant i <= |cs|
      invariant result == FilterMap(cs[..i], f)
    {
      ghost var outcome := CommitOutcome(cs[i], relativeFilePath, newLine, startLine, endLine);
      FilterMapPrefix(cs, i, f);
      var commitSummary := cs[i].summary;
      var commit := cs[i].detail;
      if commit.None? {
        i := i + 1;
        continue;
      }
      var file := FindFile(commit.value.Files, relativeFilePath);
      if file.None? {
        i := i + 1;
        continue;
      }
      var linesChanged := ParsePatch(file.value.Patch, newLine, startLine, endLine);
      if |linesChanged| == 0 {
        i := i + 1;
        continue;
      }
      var codeChangeSummary := CodeChangeSummary(commitSummary.Sha, commitSummary.AuthorName,
                                                 commitSummary.Message, commitSummary.AuthorDate, linesChanged);
      result := result + [codeChangeSummary];
      i := i + 1;
    }
    assert cs[..i] == cs;
  }

  // ---------------------------------------------------------------------
  // Properties of the aggregation

  /** No commits, or a missing list, give no summaries. */
  lemma NoCommitsNoSummaries(commits: Option<seq<FetchedCommit>>, path: string, newLine: char, startLine: int, endLine: int)
    requires commits.None? || commits.value == []
    ensures Summaries(commits, path, newLine, startLine, endLine) == []
  {
  }

  /** Every summary stands for one listed commit: it carries that commit's
      sha, author, message and date, and at least one changed line. */
  lemma SummariesComeFromCommits(cs: seq<FetchedCommit>, path: string, newLine: char, startLine: int, endLine: int,
                                 r: CodeChangeSummary)
    requires r in Summaries(Some(cs), path, newLine, startLine, endLine)
    ensures exists k :: 0 <= k < |cs| && cs[k].summary.Sha == r.CommitSha && cs[k].summary.AuthorName == r.Author
                        && cs[k].summary.Message == r.Message && cs[k].summary.AuthorDate == r.Date
    ensures |r.ChangedLines| > 0
  {
    var f := c => CommitOutcome(c, path, newLine, startLine, endLine);
    FilterMapMembership(cs, f, r);
    var k :| 0 <= k < |cs| && f(cs[k]) == Some(r);
  }

  /** A commit whose changed lines in the window are non-empty yields its summary. */
  lemma ChangedCommitIsReported(cs: seq<FetchedCommit>, k: nat, path: string, newLine: char, startLine: int, endLine: int)
    requires k < |cs| && CommitOutcome(cs[k], path, newLine, startLine, endLine).Some?
    ensures CommitOutcome(cs[k], path, newLine, startLine, endLine).value in Summaries(Some(cs), path, newLine, startLine, endLine)
  {
    FilterMapMembership(cs, c => CommitOutcome(c, path, newLine, startLine, endLine),
                        CommitOutcome(cs[k], path, newLine, startLine, endLine).value);
  }

  /** At most one summary per commit, and the summaries of two runs of
      commits are those of the first run followed by those of the second. */
  lemma SummariesKeepCommitOrder(c1: seq<FetchedCommit>, c2: seq<FetchedCommit>, path: string, newLine: char,
                                 startLine: int, endLine: int)
    ensures Summaries(Some(c1 + c2), path, newLine, startLine, endLine)
            == Summaries(Some(c1), path, newLine, startLine, endLine) + Summaries(Some(c2), path, newLine, startLine, endLine)
    ensures |Summaries(Some(c1), path, newLine, startLine, endLine)| <= |c1|
  {
    FilterMapAppend(c1, c2, c => CommitOutcome(c, path, newLine, startLine, endLine));
  }
}
