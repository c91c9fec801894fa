/** Turning the unified-diff text of one file into the changed lines that
    fall inside a window `[startLine, endLine]`. */
module GitDiffParser {
  import opened Wrappers
  import opened Text
  import opened Models
  import opened HunkHeaderRegex

  /** The line git writes after a last line that has no newline. */
  const EndOfFileMarker: string := "\\ No newline at end of file"

  /** The numbers a hunk header carries; the original count is not used. */
  datatype Hunk = Hunk(originalStart: nat, newStart: nat, newCount: nat)

  /** A missing new count means a one-line hunk. */
  function HunkOf(m: HeaderMatch): (h: Hunk)
    requires m.WellFormed()
    ensures h.originalStart == ParseNat(m.originalStart) && h.newStart == ParseNat(m.newStart)
    ensures m.newCount == "" ==> h.newCount == 1
    ensures m.newCount != "" ==> h.newCount == ParseNat(m.newCount)
  {
    Hunk(ParseNat(m.originalStart), ParseNat(m.newStart),
      if m.newCount == "" then 1 else ParseNat(m.newCount))
  }

  /** The hunk a line opens, if it is a header. */
  function HeaderOf(line: string): (r: Option<Hunk>)
    ensures r.Some? <==> IsHeader(line)
  {
    match Match(line)
    case None => None
    case Some(m) => Some(HunkOf(m))
  }

  /** A line that starts with `@@ -a,b +c,d @@` opens a hunk from `a` in the
      original file and from `c` in the new file, `d` lines long (one line
      when `d` is empty). */
  lemma HeaderOfCommaForm(line: string, g1: string, g2: string, g3: string, g4: string)
    requires PatternAt(line, 0, g1, ",", g2, g3, ",", g4)
    ensures HeaderOf(line) == Some(Hunk(ParseNat(g1), ParseNat(g3), if g4 == "" then 1 else ParseNat(g4)))
  {
    MatchAtComplete(line, 0, g1, ",", g2, g3, ",", g4);
  }

  /** A line that starts with `@@ -a +c @@` opens a one-line hunk. */
  lemma HeaderOfShortForm(line: string, g1: string, g3: string)
    requires PatternAt(line, 0, g1, "", "", g3, "", "")
    ensures HeaderOf(line) == Some(Hunk(ParseNat(g1), ParseNat(g3), 1))
  {
    MatchAtComplete(line, 0, g1, "", "", g3, "", "");
    assert g1 + "" == g1 && g3 + "" == g3;
  }

  /** Writing a header `@@ -a,b +c,d @@` out and reading it back gives the
      hunk of its numbers, whatever text follows the header on its line. */
  lemma HeaderOfHeaderText(g1: string, g2: string, g3: string, g4: string, tail: string)
    requires AllDigits(g1) && |g1| > 0 && AllDigits(g2) && AllDigits(g3) && |g3| > 0 && AllDigits(g4)
    ensures HeaderOf(HeaderText(g1, ",", g2, g3, ",", g4) + tail)
            == Some(Hunk(ParseNat(g1), ParseNat(g3), if g4 == "" then 1 else ParseNat(g4)))
  {
    HeaderTextIsPattern(g1, ",", g2, g3, ",", g4, tail);
    HeaderOfCommaForm(HeaderText(g1, ",", g2, g3, ",", g4) + tail, g1, g2, g3, g4);
  }

  /** A line without `@` never opens a hunk, so every such line is body text. */
  lemma HeaderOfNoAt(line: string)
    requires '@' !in line
    ensures HeaderOf(line).None?
  {
    NoAtNoHeader(line);
  }

  /** The skip test of a hunk. Both comparisons must hold, so a hunk is
      skipped only when the window itself is empty. */
  predicate Skipped(h: Hunk, startLine: int, endLine: int): (r: bool)
    ensures r ==> endLine < startLine
  {
    h.newStart + h.newCount - 1 < startLine && h.newStart > endLine
  }

  predicate InWindow(n: int, startLine: int, endLine: int) {
    startLine <= n <= endLine
  }

  /** Lines the body walk passes over without counting them. */
  predicate Ignored(line: string) {
    line == "" || line == EndOfFileMarker
  }

  /** How many added, deleted and context lines of a hunk body have been read. */
  datatype Counts = Counts(added: nat, deleted: nat, context: nat)

  /** The counts after reading body line `line`: empty lines and the end-of-file
      marker count as nothing, `+` and `-` lines as added and deleted lines,
      every other line as context. */
  function Next(line: string, k: Counts): (k': Counts)
    ensures Ignored(line) ==> k' == k
    ensures !Ignored(line) && line[0] == '+' ==> k' == k.(added := k.added + 1)
    ensures !Ignored(line) && line[0] == '-' ==> k' == k.(deleted := k.deleted + 1)
    ensures !Ignored(line) && line[0] != '+' && line[0] != '-' ==> k' == k.(context := k.context + 1)
  {
    if Ignored(line) then k
    else if line[0] == '+' then k.(added := k.added + 1)
    else if line[0] == '-' then k.(deleted := k.deleted + 1)
    else k.(context := k.context + 1)
  }

  /** The number of body line `line` after the lines counted in `k`: an added
      line is numbered in the new file, past the added and context lines
      before it; a deleted line in the original file, past the deleted and
      context lines before it. */
  function LineNumber(line: string, h: Hunk, k: Counts): int
    requires !Ignored(line)
  {
    if line[0] == '+' then h.newStart + k.added + k.context
    else h.originalStart + k.deleted + k.context
  }

  /** What body line `line` contributes: itself with its number when it is
      an added or deleted line numbered inside the window, nothing otherwise. */
  function LineOut(line: string, h: Hunk, k: Counts, startLine: int, endLine: int): (r: seq<CodeLine>)
    ensures |r| <= 1
    ensures r != [] <==> !Ignored(line) && (line[0] == '+' || line[0] == '-')
                          && InWindow(LineNumber(line, h, k), startLine, endLine)
    ensures r != [] ==> r[0] == CodeLine(LineNumber(line, h, k), line)
  {
    if !Ignored(line) && (line[0] == '+' || line[0] == '-')
       && InWindow(LineNumber(line, h, k), startLine, endLine)
    then [CodeLine(LineNumber(line, h, k), line)]
    else []
  }

  /** The changed lines of `lines`, read from the top: lines outside a hunk
      are passed over; a header that is not skipped starts a hunk body. */
  function Scan(header: string -> Option<Hunk>, lines: seq<string>, startLine: int, endLine: int): (r: seq<CodeLine>)
    ensures |r| <= |lines|
    decreases |lines|, 0
  {
    if lines == [] then []
    else match header(lines[0])
      case None => Scan(header, lines[1..], startLine, endLine)
      case Some(h) =>
        if Skipped(h, startLine, endLine) then Scan(header, lines[1..], startLine, endLine)
        else Body(header, lines[1..], h, Counts(0, 0, 0), startLine, endLine)
  }

  /** The changed lines of a hunk body and of everything after it, given
      the counts of the body lines read so far. The body ends at the next header. */
  function Body(header: string -> Option<Hunk>, rest: seq<string>, h: Hunk, k: Counts, startLine: int, endLine: int)
    : (r: seq<CodeLine>)
    ensures |r| <= |rest|
    decreases |rest|, 1
  {
    if rest == [] then []
    else if header(rest[0]).Some? then Scan(header, rest, startLine, endLine)
    else LineOut(rest[0], h, k, startLine, endLine) + Body(header, rest[1..], h, Next(rest[0], k), startLine, endLine)
  }

  lemma BodyStep(header: string -> Option<Hunk>, rest: seq<string>, h: Hunk, k: Counts, startLine: int, endLine: int)
    requires rest != [] && header(rest[0]).None?
    ensures Body(header, rest, h, k, startLine, endLine)
            == LineOut(rest[0], h, k, startLine, endLine) + Body(header, rest[1..], h, Next(rest[0], k), startLine, endLine)
  {
  }

  /** A header that is not skipped opens a hunk body from zero counts. */
  lemma ScanAtHunk(header: string -> Option<Hunk>, hd: string, rest: seq<string>, h: Hunk, startLine: int, endLine: int)
    requires header(hd) == Some(h) && !Skipped(h, startLine, endLine)
    ensures Scan(header, [hd] + rest, startLine, endLine) == Body(header, rest, h, Counts(0, 0, 0), startLine, endLine)
  {
    assert ([hd] + rest)[0] == hd && ([hd] + rest)[1..] == rest;
  }

  lemma BodyAtHeader(header: string -> Option<Hunk>, rest: seq<string>, h: Hunk, k: Counts, startLine: int, endLine: int)
    requires rest != [] && header(rest[0]).Some?
    ensures Body(header, rest, h, k, startLine, endLine) == Scan(header, rest, startLine, endLine)
  {
  }

  /** `lines[i..]`, or nothing once `i` has run one past the end. */
  function From(lines: seq<string>, i: nat): (r: seq<string>)
    ensures i <= |lines| ==> r == lines[i..]
    ensures i > |lines| ==> r == []
  {
    if i <= |lines| then lines[i..] else []
  }

  /** Appends a line to `linesChanged` when its number is inside the window. */
  method AddLineIfInRange(linesChanged: seq<CodeLine>, lineNumber: int, content: string,
                          startLine: int, endLine: int) returns (r: seq<CodeLine>)
    ensures InWindow(lineNumber, startLine, endLine) ==> r == linesChanged + [CodeLine(lineNumber, content)]
    ensures !InWindow(lineNumber, startLine, endLine) ==> r == linesChanged
  {
    r := linesChanged;
    if lineNumber >= startLine && lineNumber <= endLine {
      r := r + [CodeLine(lineNumber, content)];
    }
  }

  /** The inner loop of `ParsePatch`: walks the body of the hunk whose
      header is at `first`. It stops one line before the next header, or at
      the end of the patch. */
  method ReadHunkBody(header: string -> Option<Hunk>, patchLines: seq<string>, first: nat, h: Hunk, linesChanged0: seq<CodeLine>,
                      startLine: int, endLine: int) returns (i: nat, linesChanged: seq<CodeLine>)
    requires first < |patchLines|
    ensures first <= i <= |patchLines|
    ensures linesChanged + Scan(header, From(patchLines, i + 1), startLine, endLine)
            == linesChanged0 + Body(header, patchLines[first + 1..], h, Counts(0, 0, 0), startLine, endLine)
  {
    ghost var target := linesChanged0 + Body(header, patchLines[first + 1..], h, Counts(0, 0, 0), startLine, endLine);
    linesChanged := linesChanged0;
    i := first + 1;
    var addedLineCount: nat, deletedLineCount: nat, unchangedLineCount: nat := 0, 0, 0;
    while i < |patchLines|
      invariant first < i <= |patchLines|
      invariant linesChanged + Body(header, patchLines[i..], h, Counts(addedLineCount, deletedLineCount, unchangedLineCount), startLine, endLine)
                == target
      decreases |patchLines| - i
    {
      var currentLine := patchLines[i];
      ghost var k := Counts(addedLineCount, deletedLineCount, unchangedLineCount);
      if header(currentLine).Some? {
        BodyLoopExit(header, patchLines, i, h, k, linesChanged, target, startLine, endLine);
        i := i - 1;
        break;
      }
      BodyLoopStep(header, patchLines, i, h, k, linesChanged, target, startLine, endLine);
      linesChanged, addedLineCount, deletedLineCount, unchangedLineCount :=
        ReadBodyLine(currentLine, h, linesChanged, addedLineCount, deletedLineCount, unchangedLineCount, startLine, endLine);
      i := i + 1;
    }
  }

  /** The inner loop's invariant carried past a body line that is not a header. */
  lemma BodyLoopStep(header: string -> Option<Hunk>, patchLines: seq<string>, i: nat, h: Hunk, k: Counts,
                     before: seq<CodeLine>, target: seq<CodeLine>, startLine: int, endLine: int)
    requires i < |patchLines| && header(patchLines[i]).None?
    requires before + Body(header, patchLines[i..], h, k, startLine, endLine) == target
    ensures (before + LineOut(patchLines[i], h, k, startLine, endLine))
            + Body(header, patchLines[i + 1..], h, Next(patchLines[i], k), startLine, endLine) == target
  {
    var rest := patchLines[i..];
    assert rest[0] == patchLines[i] && rest[1..] == patchLines[i + 1..];
    BodyStep(header, rest, h, k, startLine, endLine);
  }

  /** The inner loop's invariant at a header: what is left is the scan from that header. */
  lemma BodyLoopExit(header: string -> Option<Hunk>, patchLines: seq<string>, i: nat, h: Hunk, k: Counts,
                     before: seq<CodeLine>, target: seq<CodeLine>, startLine: int, endLine: int)
    requires i < |patchLines| && header(patchLines[i]).Some?
    requires before + Body(header, patchLines[i..], h, k, startLine, endLine) == target
    ensures before + Scan(header, From(patchLines, i), startLine, endLine) == target
  {
    var rest := patchLines[i..];
    assert rest[0] == patchLines[i];
    BodyAtHeader(header, rest, h, k, startLine, endLine);
  }

  /** One pass of the inner loop's `switch` over a body line that is not a
      header: empty lines and the end-of-file marker are passed over, `+`
      and `-` lines are numbered and added when in the window, and the
      matching counter moves on. */
  method ReadBodyLine(currentLine: string, h: Hunk, linesChanged0: seq<CodeLine>,
                      added0: nat, deleted0: nat, unchanged0: nat, startLine: int, endLine: int)
    returns (linesChanged: seq<CodeLine>, addedLineCount: nat, deletedLineCount: nat, unchangedLineCount: nat)
    ensures linesChanged == linesChanged0 + LineOut(currentLine, h, Counts(added0, deleted0, unchanged0), startLine, endLine)
    ensures Counts(addedLineCount, deletedLineCount, unchangedLineCount) == Next(currentLine, Counts(added0, deleted0, unchanged0))
  {
    linesChanged, addedLineCount, deletedLineCount, unchangedLineCount := linesChanged0, added0, deleted0, unchanged0;
    if |currentLine| == 0 || currentLine == EndOfFileMarker {
    } else if currentLine[0] == '+' {
      var newLineNumber := h.newStart + addedLineCount + unchangedLineCount;
      linesChanged := AddLineIfInRange(linesChanged, newLineNumber, currentLine, startLine, endLine);
      addedLineCount := addedLineCount + 1;
    } else if currentLine[0] == '-' {
      var originalLineNumber := h.originalStart + deletedLineCount + unchangedLineCount;
      linesChanged := AddLineIfInRange(linesChanged, originalLineNumber, currentLine, startLine, endLine);
      deletedLineCount := deletedLineCount + 1;
    } else {
      unchangedLineCount := unchangedLineCount + 1;
    }
  }

  /** The changed lines of the patch given as its lines, in patch order. */
  method ParsePatchLines(header: string -> Option<Hunk>, patchLines: seq<string>, startLine: int, endLine: int) returns (linesChanged: seq<CodeLine>)
    ensures linesChanged == Scan(header, patchLines, startLine, endLine)
  {
    linesChanged := [];
    var i: nat := 0;
    while i < |patchLines|
      invariant i <= |patchLines| + 1
      invariant linesChanged + Scan(header, From(patchLines, i), startLine, endLine) == Scan(header, patchLines, startLine, endLine)
      decreases |patchLines| + 1 - i
    {
      var hunk := header(patchLines[i]);
      assert patchLines[i..][1..] == patchLines[i + 1..];
      if hunk.Some? && !Skipped(hunk.value, startLine, endLine) {
        i, linesChanged := ReadHunkBody(header, patchLines, i, hunk.value, linesChanged, startLine, endLine);
      }
      i := i + 1;
    }
  }

  /** `ParsePatch`: the patch text is cut into lines at the newline character first. */
  method ParsePatch(patchContent: string, newLine: char, startLine: int, endLine: int) returns (linesChanged: seq<CodeLine>)
    ensures linesChanged == Scan(HeaderOf, Split(patchContent, newLine), startLine, endLine)
  {
    linesChanged := ParsePatchLines(HeaderOf, Split(patchContent, newLine), startLine, endLine);
  }

  // ---------------------------------------------------------------------
  // Properties of the changed lines a patch yields

  /** An added or deleted body line. */
  predicate IsChange(line: string) {
    !Ignored(line) && (line[0] == '+' || line[0] == '-')
  }

  /** Every reported line is numbered inside the window, and its content is
      one of the patch's own added or deleted lines, not a header, kept with
      its sign. */
  predicate Reported(header: string -> Option<Hunk>, out: seq<CodeLine>, lines: seq<string>,
                     startLine: int, endLine: int) {
    forall c | c in out ::
      && InWindow(c.LineNumber, startLine, endLine)
      && c.Content in lines && IsChange(c.Content) && header(c.Content).None?
  }

  lemma ReportedTail(header: string -> Option<Hunk>, out: seq<CodeLine>, lines: seq<string>,
                     startLine: int, endLine: int)
    requires lines != [] && Reported(header, out, lines[1..], startLine, endLine)
    ensures Reported(header, out, lines, startLine, endLine)
  {
    forall c | c in out ensures c.Content in lines {
      var j :| 0 <= j < |lines[1..]| && lines[1..][j] == c.Content;
      assert lines[j + 1] == c.Content;
    }
  }

  lemma {:induction false} ScanReported(header: string -> Option<Hunk>, lines: seq<string>, startLine: int, endLine: int)
    ensures Reported(header, Scan(header, lines, startLine, endLine), lines, startLine, endLine)
    decreases |lines|, 0
  {
    if lines != [] {
      match header(lines[0])
      case None =>
        ScanReported(header, lines[1..], startLine, endLine);
        ReportedTail(header, Scan(header, lines[1..], startLine, endLine), lines, startLine, endLine);
      case Some(h) =>
        if Skipped(h, startLine, endLine) {
          ScanReported(header, lines[1..], startLine, endLine);
          ReportedTail(header, Scan(header, lines[1..], startLine, endLine), lines, startLine, endLine);
        } else {
          BodyReported(header, lines[1..], h, Counts(0, 0, 0), startLine, endLine);
          ReportedTail(header, Body(header, lines[1..], h, Counts(0, 0, 0), startLine, endLine), lines, startLine, endLine);
        }
    }
  }

  lemma {:induction false} BodyReported(header: string -> Option<Hunk>, rest: seq<string>, h: Hunk, k: Counts,
                                         startLine: int, endLine: int)
    ensures Reported(header, Body(header, rest, h, k, startLine, endLine), rest, startLine, endLine)
    decreases |rest|, 1
  {
    if rest != [] {
      if header(rest[0]).Some? {
        ScanReported(header, rest, startLine, endLine);
      } else {
        var out := LineOut(rest[0], h, k, startLine, endLine);
        var tail := Body(header, rest[1..], h, Next(rest[0], k), startLine, endLine);
        BodyReported(header, rest[1..], h, Next(rest[0], k), startLine, endLine);
        ReportedTail(header, tail, rest, startLine, endLine);
        assert Body(header, rest, h, k, startLine, endLine) == out + tail;
      }
    }
  }

  /** Every reported line lies inside the window and is an added or deleted
      line of the patch, reported with its sign. */
  lemma ReportedLinesAreChangesInWindow(header: string -> Option<Hunk>, lines: seq<string>,
                                        startLine: int, endLine: int, c: CodeLine)
    requires c in Scan(header, lines, startLine, endLine)
    ensures startLine <= c.LineNumber <= endLine
    ensures c.Content in lines && |c.Content| > 0 && (c.Content[0] == '+' || c.Content[0] == '-')
    ensures header(c.Content).None?
  {
    ScanReported(header, lines, startLine, endLine);
  }

  /** A patch with only context lines, or an empty window, reports nothing. */
  lemma NothingToReport(header: string -> Option<Hunk>, lines: seq<string>, startLine: int, endLine: int)
    requires endLine < startLine || forall j :: 0 <= j < |lines| ==> !IsChange(lines[j])
    ensures Scan(header, lines, startLine, endLine) == []
  {
    var out := Scan(header, lines, startLine, endLine);
    ScanReported(header, lines, startLine, endLine);
    HeadIsMember(out);
  }

  lemma HeadIsMember(out: seq<CodeLine>)
    ensures out != [] ==> out[0] in out
  {
  }

  /** Hunks are independent: the lines of a patch are the lines of its part
      before a header followed by the lines of the part from that header on. */
  lemma {:induction false} ScanAppend(header: string -> Option<Hunk>, l1: seq<string>, l2: seq<string>,
                                      startLine: int, endLine: int)
    requires l2 != [] && header(l2[0]).Some?
    ensures Scan(header, l1 + l2, startLine, endLine)
            == Scan(header, l1, startLine, endLine) + Scan(header, l2, startLine, endLine)
    decreases |l1|, 0
  {
    if l1 == [] {
      assert l1 + l2 == l2;
    } else {
      assert (l1 + l2)[0] == l1[0] && (l1 + l2)[1..] == l1[1..] + l2;
      match header(l1[0])
      case None =>
        ScanAppend(header, l1[1..], l2, startLine, endLine);
      case Some(h) =>
        if Skipped(h, startLine, endLine) {
          ScanAppend(header, l1[1..], l2, startLine, endLine);
        } else {
          BodyAppend(header, l1[1..], l2, h, Counts(0, 0, 0), startLine, endLine);
        }
    }
  }

  lemma {:induction false} BodyAppend(header: string -> Option<Hunk>, r1: seq<string>, l2: seq<string>, h: Hunk, k: Counts,
                                      startLine: int, endLine: int)
    requires l2 != [] && header(l2[0]).Some?
    ensures Body(header, r1 + l2, h, k, startLine, endLine)
            == Body(header, r1, h, k, startLine, endLine) + Scan(header, l2, startLine, endLine)
    decreases |r1|, 1
  {
    if r1 == [] {
      assert r1 + l2 == l2;
    } else {
      assert (r1 + l2)[0] == r1[0] && (r1 + l2)[1..] == r1[1..] + l2;
      if header(r1[0]).Some? {
        ScanAppend(header, r1, l2, startLine, endLine);
      } else {
        BodyAppend(header, r1[1..], l2, h, Next(r1[0], k), startLine, endLine);
      }
    }
  }

  /** Lines before the first header (the part of a patch before any hunk)
      contribute nothing. */
  lemma {:induction false} PreambleIgnored(header: string -> Option<Hunk>, pre: seq<string>, lines: seq<string>,
                                           startLine: int, endLine: int)
    requires forall j :: 0 <= j < |pre| ==> header(pre[j]).None?
    ensures Scan(header, pre + lines, startLine, endLine) == Scan(header, lines, startLine, endLine)
  {
    if pre != [] {
      assert (pre + lines)[0] == pre[0] && (pre + lines)[1..] == pre[1..] + lines;
      PreambleIgnored(header, pre[1..], lines, startLine, endLine);
    } else {
      assert pre + lines == lines;
    }
  }

  // ---------------------------------------------------------------------
  // A counter-free account of hunk line numbers

  predicate IsAdded(line: string) {
    !Ignored(line) && line[0] == '+'
  }

  predicate IsDeleted(line: string) {
    !Ignored(line) && line[0] == '-'
  }

  predicate IsContext(line: string) {
    !Ignored(line) && line[0] != '+' && line[0] != '-'
  }

  /** How many of `lines` satisfy `p`. */
  function CountWhere(lines: seq<string>, p: string -> bool): (n: nat)
    ensures n <= |lines|
  {
    if lines == [] then 0
    else CountWhere(lines[..|lines| - 1], p) + (if p(lines[|lines| - 1]) then 1 else 0)
  }

  /** The number of the change line `body[j]`: the hunk's new start plus the
      added and context lines above it for an added line, the original start
      plus the deleted and context lines above it for a deleted line. */
  function NumberAt(h: Hunk, body: seq<string>, j: nat): int
    requires j < |body| && IsChange(body[j])
  {
    if IsAdded(body[j]) then h.newStart + CountWhere(body[..j], IsAdded) + CountWhere(body[..j], IsContext)
    else h.originalStart + CountWhere(body[..j], IsDeleted) + CountWhere(body[..j], IsContext)
  }

  /** The change lines of `body[j..]` numbered inside the window, in order. */
  function HunkLinesFrom(h: Hunk, body: seq<string>, j: nat, startLine: int, endLine: int): seq<CodeLine>
    requires j <= |body|
    decreases |body| - j
  {
    if j == |body| then []
    else
      (if IsChange(body[j]) && InWindow(NumberAt(h, body, j), startLine, endLine)
       then [CodeLine(NumberAt(h, body, j), body[j])] else [])
      + HunkLinesFrom(h, body, j + 1, startLine, endLine)
  }

  function CountsBefore(body: seq<string>, j: nat): Counts
    requires j <= |body|
  {
    Counts(CountWhere(body[..j], IsAdded), CountWhere(body[..j], IsDeleted), CountWhere(body[..j], IsContext))
  }

  /** Reading one more line moves the counters exactly as counting the longer prefix does. */
  lemma CountsStep(body: seq<string>, j: nat)
    requires j < |body|
    ensures Next(body[j], CountsBefore(body, j)) == CountsBefore(body, j + 1)
  {
    assert body[..j + 1][..j] == body[..j];
    assert body[..j + 1][j] == body[j];
  }

  lemma {:induction false} BodyMatchesReference(header: string -> Option<Hunk>, body: seq<string>, h: Hunk, j: nat,
                                                startLine: int, endLine: int)
    requires j <= |body|
    requires forall i :: 0 <= i < |body| ==> header(body[i]).None?
    ensures Body(header, body[j..], h, CountsBefore(body, j), startLine, endLine)
            == HunkLinesFrom(h, body, j, startLine, endLine)
    decreases |body| - j
  {
    if j < |body| {
      CountsStep(body, j);
      assert body[j..][0] == body[j] && body[j..][1..] == body[j + 1..];
      BodyMatchesReference(header, body, h, j + 1, startLine, endLine);
    }
  }

  /** A patch of one hunk that is not skipped reports exactly the change
      lines of its body that the reference numbering puts in the window. */
  lemma OneHunkReported(header: string -> Option<Hunk>, hd: string, body: seq<string>, h: Hunk,
                        startLine: int, endLine: int)
    requires header(hd) == Some(h) && !Skipped(h, startLine, endLine)
    requires forall i :: 0 <= i < |body| ==> header(body[i]).None?
    ensures Scan(header, [hd] + body, startLine, endLine) == HunkLinesFrom(h, body, 0, startLine, endLine)
  {
    assert ([hd] + body)[1..] == body && body[0..] == body;
    assert CountsBefore(body, 0) == Counts(0, 0, 0);
    BodyMatchesReference(header, body, h, 0, startLine, endLine);
  }

  /** The line `n` contributes when it is numbered `n`: itself inside the window, nothing outside. */
  function Kept(n: int, line: string, startLine: int, endLine: int): seq<CodeLine> {
    if InWindow(n, startLine, endLine) then [CodeLine(n, line)] else []
  }

  /** The end of the worked hunk below: an empty line and the end-of-file
      marker are passed over around the last added line. */
  lemma WorkedHunkTail(header: string -> Option<Hunk>, startLine: int, endLine: int)
    requires header("").None? && header("+d").None? && header(EndOfFileMarker).None?
    ensures Body(header, ["", "+d", EndOfFileMarker], Hunk(10, 20, 3), Counts(1, 1, 1), startLine, endLine)
            == Kept(22, "+d", startLine, endLine)
  {
    var h := Hunk(10, 20, 3);
    var r6 := [EndOfFileMarker];
    var r5 := ["+d"] + r6;
    var r4 := [""] + r5;
    assert r5[1..] == r6 && r4[1..] == r5;
    assert Body(header, r6, h, Counts(2, 1, 1), startLine, endLine) == [];
    assert Body(header, r5, h, Counts(1, 1, 1), startLine, endLine) == Kept(22, "+d", startLine, endLine);
    assert r4 == ["", "+d", EndOfFileMarker];
  }

  lemma WorkedHunkAdded(header: string -> Option<Hunk>, startLine: int, endLine: int)
    requires header("+c").None? && header("").None? && header("+d").None? && header(EndOfFileMarker).None?
    ensures Body(header, ["+c", "", "+d", EndOfFileMarker], Hunk(10, 20, 3), Counts(0, 1, 1), startLine, endLine)
            == Kept(21, "+c", startLine, endLine) + Kept(22, "+d", startLine, endLine)
  {
    var r4 := ["", "+d", EndOfFileMarker];
    var r3 := ["+c"] + r4;
    assert r3[1..] == r4;
    WorkedHunkTail(header, startLine, endLine);
    assert r3 == ["+c", "", "+d", EndOfFileMarker];
  }

  /** The body of the worked hunk below. */
  lemma WorkedHunkBody(header: string -> Option<Hunk>, startLine: int, endLine: int)
    requires header(" a").None? && header("-b").None? && header("+c").None?
    requires header("").None? && header("+d").None? && header(EndOfFileMarker).None?
    ensures Body(header, [" a", "-b", "+c", "", "+d", EndOfFileMarker], Hunk(10, 20, 3), Counts(0, 0, 0), startLine, endLine)
            == Kept(11, "-b", startLine, endLine) + Kept(21, "+c", startLine, endLine) + Kept(22, "+d", startLine, endLine)
  {
    var h := Hunk(10, 20, 3);
    var r3 := ["+c", "", "+d", EndOfFileMarker];
    var r2 := ["-b"] + r3;
    var r1 := [" a"] + r2;
    var kb, kc, kd := Kept(11, "-b", startLine, endLine), Kept(21, "+c", startLine, endLine), Kept(22, "+d", startLine, endLine);
    assert EndOfFileMarker[0] == '\\';
    calc {
      Body(header, [" a", "-b", "+c", "", "+d", EndOfFileMarker], h, Counts(0, 0, 0), startLine, endLine);
      { assert [" a", "-b", "+c", "", "+d", EndOfFileMarker] == r1; }
      Body(header, r1, h, Counts(0, 0, 0), startLine, endLine);
      { assert r1[0] == " a" && r1[1..] == r2;
        BodyStep(header, r1, h, Counts(0, 0, 0), startLine, endLine); }
      LineOut(" a", h, Counts(0, 0, 0), startLine, endLine) + Body(header, r2, h, Counts(0, 0, 1), startLine, endLine);
      { assert LineOut(" a", h, Counts(0, 0, 0), startLine, endLine) == []; }
      Body(header, r2, h, Counts(0, 0, 1), startLine, endLine);
      { assert r2[0] == "-b" && r2[1..] == r3;
        BodyStep(header, r2, h, Counts(0, 0, 1), startLine, endLine); }
      LineOut("-b", h, Counts(0, 0, 1), startLine, endLine) + Body(header, r3, h, Counts(0, 1, 1), startLine, endLine);
      { assert LineOut("-b", h, Counts(0, 0, 1), startLine, endLine) == kb;
        WorkedHunkAdded(header, startLine, endLine); }
      kb + (kc + kd);
      kb + kc + kd;
    }
  }

  /** A worked hunk: `@@ -10,2 +20,3 @@` over one context line, one deleted
      and two added lines, with an empty line and the end-of-file marker
      passed over. The deleted line is numbered from the original start past
      the context line, the added lines from the new start past it. */
  lemma WorkedHunkAnyWindow(header: string -> Option<Hunk>, hd: string, startLine: int, endLine: int)
    requires header(hd) == Some(Hunk(10, 20, 3)) && !Skipped(Hunk(10, 20, 3), startLine, endLine)
    requires header(" a").None? && header("-b").None? && header("+c").None?
    requires header("").None? && header("+d").None? && header(EndOfFileMarker).None?
    ensures Scan(header, [hd, " a", "-b", "+c", "", "+d", EndOfFileMarker], startLine, endLine)
            == Kept(11, "-b", startLine, endLine) + Kept(21, "+c", startLine, endLine) + Kept(22, "+d", startLine, endLine)
  {
    var lines := [hd, " a", "-b", "+c", "", "+d", EndOfFileMarker];
    assert lines[1..] == [" a", "-b", "+c", "", "+d", EndOfFileMarker];
    WorkedHunkBody(header, startLine, endLine);
  }

  lemma WorkedHunk(header: string -> Option<Hunk>, hd: string)
    requires header(hd) == Some(Hunk(10, 20, 3))
    requires header(" a").None? && header("-b").None? && header("+c").None?
    requires header("").None? && header("+d").None? && header(EndOfFileMarker).None?
    ensures Scan(header, [hd, " a", "-b", "+c", "", "+d", EndOfFileMarker], 0, 100)
            == [CodeLine(11, "-b"), CodeLine(21, "+c"), CodeLine(22, "+d")]
    ensures Scan(header, [hd, " a", "-b", "+c", "", "+d", EndOfFileMarker], 21, 21) == [CodeLine(21, "+c")]
  {
    WorkedHunkAnyWindow(header, hd, 0, 100);
    WorkedHunkAnyWindow(header, hd, 21, 21);
  }
}
