/** The Azure DevOps provider's aggregation: find the repository, then for
    every listed commit read the parent's and the commit's snapshot of the
    file inside the window, classify their lines with the diff blocks and
    merge the two sides. Every fetch (repository list, commit list, commit
    detail, file contents, file diffs) is an input holding what the fetch
    returned. */
module AzureProvider {
  import opened Wrappers
  import opened Text
  import opened Models
  import opened AzureDiffBlocks
  import opened AzureContent
  import opened AzureMerge

  /** A repository of the project. */
  datatype GitRepository = GitRepository(Name: string, Id: string)

  /** A commit's detail: its parents' ids, its author's name and date and its comment. */
  datatype GitCommit = GitCommit(Parents: seq<string>, AuthorName: string, AuthorDate: Timestamp, Comment: string)

  /** A listed commit with what the fetches for it returned: its detail,
      the file's content at the commit and at its first parent (as lines,
      `Some([])` for empty content) and the file's diffs between the two. */
  datatype FetchedCommit = FetchedCommit(
    CommitId: string,
    detail: Option<GitCommit>,
    content: Option<seq<string>>,
    parentContent: Option<seq<string>>,
    diffs: Option<seq<FileDiff>>)

  /** The request-level failure: no repository has the requested name. */
  datatype ProviderError = RepositoryNotFound(repoName: string)

  /** The index of the first repository whose name equals `repoName`
      ignoring case. */
  function FirstMatchingRepository(repositories: seq<GitRepository>, repoName: string): (r: Option<nat>)
    ensures r.Some? ==> r.value < |repositories| && EqualsIgnoreCase(repositories[r.value].Name, repoName)
    ensures r.Some? ==> forall j :: 0 <= j < r.value ==> !EqualsIgnoreCase(repositories[j].Name, repoName)
    ensures r.None? ==> forall j :: 0 <= j < |repositories| ==> !EqualsIgnoreCase(repositories[j].Name, repoName)
  {
    if repositories == [] then Option.None
    else if EqualsIgnoreCase(repositories[0].Name, repoName) then Some(0)
    else match FirstMatchingRepository(repositories[1..], repoName)
      case None => Option.None
      case Some(j) => Some(j + 1)
  }

  /** `repositories.FirstOrDefault(r => r.Name.Equals(repoName, OrdinalIgnoreCase))`:
      the first repository whose name equals `repoName` ignoring case. */
  function FindRepository(repositories: seq<GitRepository>, repoName: string): (r: Option<GitRepository>)
    ensures r.Some? <==> exists k :: 0 <= k < |repositories| && EqualsIgnoreCase(repositories[k].Name, repoName)
    ensures r.Some? ==> r.value in repositories && EqualsIgnoreCase(r.value.Name, repoName)
    ensures r.Some? ==> exists k :: 0 <= k < |repositories| && repositories[k] == r.value
                          && forall j :: 0 <= j < k ==> !EqualsIgnoreCase(repositories[j].Name, repoName)
  {
    match FirstMatchingRepository(repositories, repoName)
    case None => Option.None
    case Some(k) => Some(repositories[k])
  }

  // ---------------------------------------------------------------------
  // The changed lines of one commit

  /** `GetChangedLines`: the parent snapshot read with the deletion handler
      and the parent-side map, the current snapshot read with the addition
      handler and the current-side map, merged. */
  function ChangedLines(parentLines: seq<string>, currentLines: seq<string>, startLine: int, endLine: int,
                        currentByType: seq<Entry>, parentByType: seq<Entry>): seq<CodeLine>
  {
    Merge(Content(parentLines, startLine, endLine, parentByType, Original),
          Content(currentLines, startLine, endLine, currentByType, Modified))
  }

  method GetChangedLines(parentLines: seq<string>, currentLines: seq<string>, startLine: int, endLine: int,
                         currentByType: seq<Entry>, parentByType: seq<Entry>) returns (r: seq<CodeLine>)
    ensures r == ChangedLines(parentLines, currentLines, startLine, endLine, currentByType, parentByType)
  {
    var parent := ParseContent(parentLines, startLine, endLine, parentByType, Original);
    var current := ParseContent(currentLines, startLine, endLine, currentByType, Modified);
    r := MergeChanges(parent, current);
  }

  /** A changed line is reported exactly when it is a deletion read from the
      parent snapshot or an addition read from the current snapshot; each
      reported line lies in the window and carries its snapshot's text. */
  lemma ChangedLinesMembership(parentLines: seq<string>, currentLines: seq<string>, startLine: int, endLine: int,
                               currentByType: seq<Entry>, parentByType: seq<Entry>, c: CodeLine)
    ensures c in ChangedLines(parentLines, currentLines, startLine, endLine, currentByType, parentByType)
            <==> || (1 <= c.LineNumber <= |parentLines| && InWindow(c.LineNumber, startLine, endLine)
                     && Handle(Original, KindOf(parentByType, c.LineNumber), c.LineNumber, parentLines[c.LineNumber - 1]) == Some(c))
                 || (1 <= c.LineNumber <= |currentLines| && InWindow(c.LineNumber, startLine, endLine)
                     && Handle(Modified, KindOf(currentByType, c.LineNumber), c.LineNumber, currentLines[c.LineNumber - 1]) == Some(c))
  {
    var parent := Content(parentLines, startLine, endLine, parentByType, Original);
    var current := Content(currentLines, startLine, endLine, currentByType, Modified);
    MergeIsPermutation(parent, current);
    assert c in Merge(parent, current) <==> c in multiset(Merge(parent, current));
    ContentMembership(parentLines, startLine, endLine, parentByType, Original, c);
    ContentMembership(currentLines, startLine, endLine, currentByType, Modified, c);
  }

  /** The number of reported lines is the number of lines each side keeps. */
  lemma ChangedLinesCount(parentLines: seq<string>, currentLines: seq<string>, startLine: int, endLine: int,
                          currentByType: seq<Entry>, parentByType: seq<Entry>)
    ensures |ChangedLines(parentLines, currentLines, startLine, endLine, currentByType, parentByType)|
            == |Content(parentLines, startLine, endLine, parentByType, Original)|
               + |Content(currentLines, startLine, endLine, currentByType, Modified)|
  {
  }

  // ---------------------------------------------------------------------
  // One commit

  /** Content that is missing or empty. */
  predicate NoContent(content: Option<seq<string>>) {
    content.None? || content.value == []
  }

  /** What one commit contributes: nothing when its detail is missing, it
      has no parent, either snapshot is missing or empty, the diff list is
      missing or empty, or no line changed in the window; otherwise a
      summary of the merged changed lines. */
  function CommitOutcome(c: FetchedCommit, startLine: int, endLine: int): (r: Option<CodeChangeSummary>)
    ensures c.detail.None? || c.detail.value.Parents == [] ==> r.None?
    ensures NoContent(c.content) || NoContent(c.parentContent) ==> r.None?
    ensures c.diffs.None? || c.diffs.value == [] ==> r.None?
    ensures c.detail.Some? && c.detail.value.Parents != [] && !NoContent(c.content) && !NoContent(c.parentContent)
            && c.diffs.Some? && c.diffs.value != []
            ==> var blocks := RelevantChanges(c.diffs.value, startLine);
                (r.Some? <==> ChangedLines(c.parentContent.value, c.content.value, startLine, endLine,
                                           LinesByType(blocks, Modified), LinesByType(blocks, Original)) != [])
    ensures r.Some? ==>
      && c.detail.Some? && c.content.Some? && c.parentContent.Some? && c.diffs.Some?
      && r.value.CommitSha == c.CommitId && r.value.Author == c.detail.value.AuthorName
      && r.value.Message == c.detail.value.Comment && r.value.Date == c.detail.value.AuthorDate
      && |r.value.ChangedLines| > 0
      && var blocks := RelevantChanges(c.diffs.value, startLine);
         r.value.ChangedLines == ChangedLines(c.parentContent.value, c.content.value, startLine, endLine,
                                              LinesByType(blocks, Modified), LinesByType(blocks, Original))
  {
    match c.detail
    case None => Option.None
    case Some(commit) =>
      if commit.Parents == [] || NoContent(c.content) || NoContent(c.parentContent)
         || c.diffs.None? || c.diffs.value == [] then Option.None
      else
        var blocks := RelevantChanges(c.diffs.value, startLine);
        var changed := ChangedLines(c.parentContent.value, c.content.value, startLine, endLine,
                                    LinesByType(blocks, Modified), LinesByType(blocks, Original));
        if |changed| == 0 then Option.None
        else Some(CodeChangeSummary(c.CommitId, commit.AuthorName, commit.Comment, commit.AuthorDate, changed))
  }

  // ---------------------------------------------------------------------
  // The request

  /** The result of a request: no repositories or no commits give no
      summaries, an unknown repository name fails, and otherwise every
      commit's outcome is kept in commit order. `commits` is what listing
      the found repository's commits returned. */
  function CodeChanges(repositories: Option<seq<GitRepository>>, repoName: string,
                       commits: Option<seq<FetchedCommit>>, startLine: int, endLine: int)
    : Result<seq<CodeChangeSummary>, ProviderError>
  {
    if repositories.None? || repositories.value == [] then Success([])
    else if FindRepository(repositories.value, repoName).None? then Failure(RepositoryNotFound(repoName))
    else if commits.None? || commits.value == [] then Success([])
    else Success(FilterMap(commits.value, c => CommitOutcome(c, startLine, endLine)))
  }

  /** One pass of the request's loop over the commits: a commit without
      details or without a parent, a missing or empty snapshot on either
      side, no diff, or no changed line in the window is passed over;
      otherwise its summary. */
  method SummarizeCommit(commitSummary: FetchedCommit, startLine: int, endLine: int)
    returns (summary: Option<CodeChangeSummary>)
    ensures summary == CommitOutcome(commitSummary, startLine, endLine)
  {
    var commit := commitSummary.detail;
    if commit.None? || |commit.value.Parents| == 0 {
      return Option.None;
    }
    var commitFileContent := commitSummary.content;
    if commitFileContent.None? || |commitFileContent.value| == 0 {
      return Option.None;
    }
    var parentCommitFileContent := commitSummary.parentContent;
    if parentCommitFileContent.None? || |parentCommitFileContent.value| == 0 {
      return Option.None;
    }
    var diff := commitSummary.diffs;
    if diff.None? || |diff.value| == 0 {
      return Option.None;
    }
    var relevantChanges := RelevantChanges(diff.value, startLine);
    var currentChangedLinesByType := LinesByType(relevantChanges, Modified);
    var parentChangedLinesByType := LinesByType(relevantChanges, Original);
    var changedLines := GetChangedLines(parentCommitFileContent.value, commitFileContent.value, startLine, endLine,
                                        currentChangedLinesByType, parentChangedLinesByType);
    if |changedLines| == 0 {
      return Option.None;
    }
    return Some(CodeChangeSummary(commitSummary.CommitId, commit.value.AuthorName,
                                  commit.value.Comment, commit.value.AuthorDate, changedLines));
  }

  /** `GetCodeChangesAsync`. */
  method GetCodeChanges(repositories: Option<seq<GitRepository>>, repoName: string,
                        commitSummaries: Option<seq<FetchedCommit>>, startLine: int, endLine: int)
    returns (result: Result<seq<CodeChangeSummary>, ProviderError>)
    ensures result == CodeChanges(repositories, repoName, commitSummaries, startLine, endLine)
  {
    if repositories.None? || |repositories.value| == 0 {
      return Success([]);
    }
    var repository := FindRepository(repositories.value, repoName);
    if repository.None? {
      return Failure(RepositoryNotFound(repoName));
    }
    if commitSummaries.None? || |commitSummaries.value| == 0 {
      return Success([]);
    }
    var cs := commitSummaries.value;
    ghost var f := c => CommitOutcome(c, startLine, endLine);
    var changeSummaries: seq<CodeChangeSummary> := [];
    var i := 0;
    while i < |cs|
      invariant i <= |cs|
      invariant changeSummaries == FilterMap(cs[..i], f)
    {
      var changeSummary := SummarizeCommit(cs[i], startLine, endLine);
      FilterMapPrefix(cs, i, f);
      if changeSummary.Some? {
        changeSummaries := changeSummaries + [changeSummary.value];
      }
      i := i + 1;
    }
    assert cs[..i] == cs;
    return Success(changeSummaries);
  }

  // ---------------------------------------------------------------------
  // Properties of the request

  /** The request fails exactly when there are repositories and none of
      them has the requested name, ignoring case. */
  lemma FailsOnlyForUnknownRepository(repositories: Option<seq<GitRepository>>, repoName: string,
                                      commits: Option<seq<FetchedCommit>>, startLine: int, endLine: int)
    ensures CodeChanges(repositories, repoName, commits, startLine, endLine).Failure?
            <==> repositories.Some? && repositories.value != []
                 && forall k :: 0 <= k < |repositories.value| ==> !EqualsIgnoreCase(repositories.value[k].Name, repoName)
  {
  }

  /** Every summary stands for one listed commit: it carries that commit's
      id and its detail's author, comment and date, and at least one line. */
  lemma SummariesComeFromCommits(repositories: Option<seq<GitRepository>>, repoName: string,
                                 cs: seq<FetchedCommit>, startLine: int, endLine: int, r: CodeChangeSummary)
    requires CodeChanges(repositories, repoName, Some(cs), startLine, endLine).Success?
    requires r in CodeChanges(repositories, repoName, Some(cs), startLine, endLine).value
    ensures exists k :: 0 <= k < |cs| && cs[k].CommitId == r.CommitSha && cs[k].detail.Some?
                        && cs[k].detail.value.AuthorName == r.Author && cs[k].detail.value.Comment == r.Message
                        && cs[k].detail.value.AuthorDate == r.Date && cs[k].detail.value.Parents != []
    ensures |r.ChangedLines| > 0
  {
    var f := c => CommitOutcome(c, startLine, endLine);
    FilterMapMembership(cs, f, r);
    var k :| 0 <= k < |cs| && f(cs[k]) == Some(r);
  }

  /** The summaries of two runs of commits are those of the first run
      followed by those of the second: commit order is kept. */
  lemma SummariesKeepCommitOrder(c1: seq<FetchedCommit>, c2: seq<FetchedCommit>, startLine: int, endLine: int)
    ensures FilterMap(c1 + c2, c => CommitOutcome(c, startLine, endLine))
            == FilterMap(c1, c => CommitOutcome(c, startLine, endLine)) + FilterMap(c2, c => CommitOutcome(c, startLine, endLine))
  {
    FilterMapAppend(c1, c2, c => CommitOutcome(c, startLine, endLine));
  }

  /** A commit without parents is skipped rather than read as all additions. */
  lemma ParentlessCommitSkipped(c: FetchedCommit, startLine: int, endLine: int)
    requires c.detail.Some? && c.detail.value.Parents == []
    ensures CommitOutcome(c, startLine, endLine).None?
  {
  }
}
