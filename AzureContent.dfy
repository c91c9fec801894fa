/** The reading of one file snapshot inside the window: lines are numbered
    from 1, each line in the window gets the change kind the lookup gives
    it, and the side's handler turns it into a changed line or drops it. */
module AzureContent {
  import opened Wrappers
  import opened Models
  import opened AzureDiffBlocks

  /** The two line handlers: the parent side keeps deleted and edited lines
      as deletions, the current side keeps added and edited lines as
      additions; every other kind is dropped. */
  function Handle(side: Side, kind: ChangeType, lineNumber: int, line: string): (r: Option<CodeLine>)
    ensures side == Original ==> (r.Some? <==> kind == Delete || kind == Edit)
    ensures side == Modified ==> (r.Some? <==> kind == Add || kind == Edit)
    ensures r.Some? ==> r.value.LineNumber == lineNumber && |r.value.Content| == |line| + 1
    ensures r.Some? ==> r.value.Content[0] == (if side == Original then '-' else '+') && r.value.Content[1..] == line
  {
    match side
    case Original => if kind == Delete || kind == Edit then Some(CodeLine.Delete(lineNumber, line)) else Option.None
    case Modified => if kind == Add || kind == Edit then Some(CodeLine.Add(lineNumber, line)) else Option.None
  }

  /** Line `n` is inside the window. */
  predicate InWindow(n: int, startLine: int, endLine: int) {
    startLine <= n <= endLine
  }

  /** What reading the first `m` lines of `lines` collects. */
  function ReadUpTo(lines: seq<string>, m: nat, startLine: int, endLine: int, byType: seq<Entry>, side: Side)
    : (r: seq<CodeLine>)
    requires m <= |lines|
    ensures forall t :: 0 <= t < |r| ==> 1 <= r[t].LineNumber <= m && InWindow(r[t].LineNumber, startLine, endLine)
  {
    if m == 0 then []
    else
      var before := ReadUpTo(lines, m - 1, startLine, endLine, byType, side);
      if InWindow(m, startLine, endLine) then
        match Handle(side, KindOf(byType, m), m, lines[m - 1])
        case Some(c) => before + [c]
        case None => before
      else before
  }

  /** What reading the whole snapshot collects. */
  function Content(lines: seq<string>, startLine: int, endLine: int, byType: seq<Entry>, side: Side): seq<CodeLine> {
    ReadUpTo(lines, |lines|, startLine, endLine, byType, side)
  }

  /** Lines after the window add nothing, so reading can stop past `endLine`. */
  lemma {:induction false} ReadPastWindow(lines: seq<string>, m: nat, m': nat, startLine: int, endLine: int,
                                          byType: seq<Entry>, side: Side)
    requires endLine <= m <= m' <= |lines|
    ensures ReadUpTo(lines, m', startLine, endLine, byType, side) == ReadUpTo(lines, m, startLine, endLine, byType, side)
    decreases m' - m
  {
    if m < m' {
      ReadPastWindow(lines, m, m' - 1, startLine, endLine, byType, side);
    }
  }

  /** `ParseContent`: reads line after line from line 1, collects what the
      handler makes of each line in the window, and stops once a line past
      `endLine` has been read. */
  method ParseContent(fileLines: seq<string>, startLine: int, endLine: int, byType: seq<Entry>, side: Side)
    returns (r: seq<CodeLine>)
    ensures r == Content(fileLines, startLine, endLine, byType, side)
  {
    var lines: seq<CodeLine> := [];
    var currentLine := 1;
    while currentLine <= |fileLines|
      invariant 1 <= currentLine <= |fileLines| + 1
      invariant lines == ReadUpTo(fileLines, currentLine - 1, startLine, endLine, byType, side)
    {
      var line := fileLines[currentLine - 1];
      if currentLine >= startLine && currentLine <= endLine {
        var kind := KindOf(byType, currentLine);
        var codeLine := Handle(side, kind, currentLine, line);
        if codeLine.Some? {
          lines := lines + [codeLine.value];
        }
      }
      if currentLine > endLine {
        ReadPastWindow(fileLines, currentLine, |fileLines|, startLine, endLine, byType, side);
        break;
      }
      currentLine := currentLine + 1;
    }
    return lines;
  }

  // ---------------------------------------------------------------------
  // Properties of the reading

  /** A changed line is collected exactly when its number is a line of the
      snapshot inside the window and the handler keeps that line under the
      kind the lookup gives it. */
  lemma {:induction false} ReadUpToMembership(lines: seq<string>, m: nat, startLine: int, endLine: int,
                                              byType: seq<Entry>, side: Side, c: CodeLine)
    requires m <= |lines|
    ensures c in ReadUpTo(lines, m, startLine, endLine, byType, side)
            <==> 1 <= c.LineNumber <= m && InWindow(c.LineNumber, startLine, endLine)
                 && Handle(side, KindOf(byType, c.LineNumber), c.LineNumber, lines[c.LineNumber - 1]) == Some(c)
  {
    if m > 0 {
      ReadUpToMembership(lines, m - 1, startLine, endLine, byType, side, c);
    }
  }

  lemma ContentMembership(lines: seq<string>, startLine: int, endLine: int, byType: seq<Entry>, side: Side, c: CodeLine)
    ensures c in Content(lines, startLine, endLine, byType, side)
            <==> 1 <= c.LineNumber <= |lines| && InWindow(c.LineNumber, startLine, endLine)
                 && Handle(side, KindOf(byType, c.LineNumber), c.LineNumber, lines[c.LineNumber - 1]) == Some(c)
  {
    ReadUpToMembership(lines, |lines|, startLine, endLine, byType, side, c);
  }

  /** Line numbers strictly increase along `r`. */
  predicate StrictlyAscending(r: seq<CodeLine>) {
    forall s, t :: 0 <= s < t < |r| ==> r[s].LineNumber < r[t].LineNumber
  }

  /** The collected lines come in strictly ascending line-number order. */
  lemma {:induction false} ReadUpToAscending(lines: seq<string>, m: nat, startLine: int, endLine: int,
                                             byType: seq<Entry>, side: Side)
    requires m <= |lines|
    ensures StrictlyAscending(ReadUpTo(lines, m, startLine, endLine, byType, side))
  {
    if m > 0 {
      ReadUpToAscending(lines, m - 1, startLine, endLine, byType, side);
      var before := ReadUpTo(lines, m - 1, startLine, endLine, byType, side);
      var r := ReadUpTo(lines, m, startLine, endLine, byType, side);
      if r != before {
        assert r == before + [r[|r| - 1]];
        assert r[|r| - 1].LineNumber == m;
        forall s, t | 0 <= s < t < |r| ensures r[s].LineNumber < r[t].LineNumber {
          if t < |before| {
            assert r[s] == before[s] && r[t] == before[t];
          } else {
            assert r[s] == before[s];
          }
        }
      }
    }
  }

  lemma ContentAscending(lines: seq<string>, startLine: int, endLine: int, byType: seq<Entry>, side: Side)
    ensures StrictlyAscending(Content(lines, startLine, endLine, byType, side))
  {
    ReadUpToAscending(lines, |lines|, startLine, endLine, byType, side);
  }
}
