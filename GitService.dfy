/** The local repository service: blame entries for the lines of a window,
    and the GitHub owner named by the repository's first remote. The blame
    hunks and the remotes' URLs are inputs. */
module GitService {
  import opened Wrappers
  import opened Text
  import opened Models

  // ---------------------------------------------------------------------
  // Blame

  /** A blame hunk: a run of `LineCount` lines of the working copy from
      `FinalStartLineNumber` on, last changed by one commit. */
  datatype BlameHunk = BlameHunk(
    FinalStartLineNumber: int,
    LineCount: int,
    Name: string,
    Email: string,
    Sha: string,
    When: Timestamp)

  /** The entry for line `line` of hunk `h`. */
  function EntryOf(h: BlameHunk, line: int): CodeLineChange {
    CodeLineChange(line, h.Name, h.Email, h.Sha, h.When)
  }

  /** The entries for the first `n` lines of hunk `h` that fall in the window. */
  function HunkEntries(h: BlameHunk, n: nat, startLine: int, endLine: int): (r: seq<CodeLineChange>)
    ensures forall t :: 0 <= t < |r| ==> startLine <= r[t].Line <= endLine
    ensures forall t :: 0 <= t < |r| ==> h.FinalStartLineNumber <= r[t].Line < h.FinalStartLineNumber + n
    ensures forall t :: 0 <= t < |r| ==> r[t] == EntryOf(h, r[t].Line)
  {
    if n == 0 then []
    else
      var line := h.FinalStartLineNumber + n - 1;
      HunkEntries(h, n - 1, startLine, endLine) + (if startLine <= line <= endLine then [EntryOf(h, line)] else [])
  }

  /** The number of lines a hunk runs over; a negative count runs over none. */
  function LinesOf(h: BlameHunk): nat {
    if h.LineCount < 0 then 0 else h.LineCount
  }

  /** The entries of all hunks, hunk by hunk. */
  function BlameEntries(blame: seq<BlameHunk>, startLine: int, endLine: int): seq<CodeLineChange> {
    if blame == [] then []
    else
      var h := blame[|blame| - 1];
      BlameEntries(blame[..|blame| - 1], startLine, endLine) + HunkEntries(h, LinesOf(h), startLine, endLine)
  }

  /** `GetBlameForLinesAsync`: for every hunk and every line of it, an entry
      when the line is in the window. */
  method GetBlameForLines(blame: seq<BlameHunk>, startLine: int, endLine: int) returns (result: seq<CodeLineChange>)
    ensures result == BlameEntries(blame, startLine, endLine)
  {
    result := [];
    for b := 0 to |blame|
      invariant result == BlameEntries(blame[..b], startLine, endLine)
    {
      var hunk := blame[b];
      assert blame[..b + 1][..b] == blame[..b];
      ghost var before := result;
      for i := 0 to LinesOf(hunk)
        invariant result == before + HunkEntries(hunk, i, startLine, endLine)
      {
        var line := hunk.FinalStartLineNumber + i;
        if line >= startLine && line <= endLine {
          result := result + [CodeLineChange(line, hunk.Name, hunk.Email, hunk.Sha, hunk.When)];
        }
      }
    }
    assert blame[..|blame|] == blame;
  }

  /** The number of lines of a run from `start` of `count` lines inside the window. */
  function Overlap(start: int, count: nat, startLine: int, endLine: int): nat {
    var lo := if start < startLine then startLine else start;
    var hi := if start + count - 1 < endLine then start + count - 1 else endLine;
    if hi < lo then 0 else hi - lo + 1
  }

  /** A hunk gives one entry per line of it inside the window, in ascending line order. */
  lemma {:induction false} HunkEntriesCount(h: BlameHunk, n: nat, startLine: int, endLine: int)
    ensures |HunkEntries(h, n, startLine, endLine)| == Overlap(h.FinalStartLineNumber, n, startLine, endLine)
    ensures forall s, t :: 0 <= s < t < |HunkEntries(h, n, startLine, endLine)|
              ==> HunkEntries(h, n, startLine, endLine)[s].Line < HunkEntries(h, n, startLine, endLine)[t].Line
  {
    if n > 0 {
      HunkEntriesCount(h, n - 1, startLine, endLine);
      var before := HunkEntries(h, n - 1, startLine, endLine);
      var r := HunkEntries(h, n, startLine, endLine);
      if r != before {
        assert r == before + [r[|r| - 1]];
        forall s, t | 0 <= s < t < |r| ensures r[s].Line < r[t].Line {
          if t < |before| {
            assert r[s] == before[s] && r[t] == before[t];
          } else {
            assert r[s] == before[s];
          }
        }
      }
    }
  }

  /** An entry is produced for a hunk exactly when its line is one of the
      hunk's lines inside the window, and it carries the hunk's author,
      email, commit and date. */
  lemma {:induction false} HunkEntriesMembership(h: BlameHunk, n: nat, startLine: int, endLine: int, e: CodeLineChange)
    ensures e in HunkEntries(h, n, startLine, endLine)
            <==> h.FinalStartLineNumber <= e.Line < h.FinalStartLineNumber + n
                 && startLine <= e.Line <= endLine && e == EntryOf(h, e.Line)
  {
    if n > 0 {
      HunkEntriesMembership(h, n - 1, startLine, endLine, e);
    }
  }

  /** The sum of the hunks' lines inside the window. */
  function TotalOverlap(blame: seq<BlameHunk>, startLine: int, endLine: int): nat {
    if blame == [] then 0
    else
      var h := blame[|blame| - 1];
      TotalOverlap(blame[..|blame| - 1], startLine, endLine) + Overlap(h.FinalStartLineNumber, LinesOf(h), startLine, endLine)
  }

  /** The blame gives as many entries as the hunks have lines in the
      window, and every entry lies in the window. */
  lemma {:induction false} BlameEntriesInWindow(blame: seq<BlameHunk>, startLine: int, endLine: int)
    ensures |BlameEntries(blame, startLine, endLine)| == TotalOverlap(blame, startLine, endLine)
    ensures forall t :: 0 <= t < |BlameEntries(blame, startLine, endLine)|
              ==> startLine <= BlameEntries(blame, startLine, endLine)[t].Line <= endLine
  {
    if blame != [] {
      var h := blame[|blame| - 1];
      BlameEntriesInWindow(blame[..|blame| - 1], startLine, endLine);
      HunkEntriesCount(h, LinesOf(h), startLine, endLine);
    }
  }

  // ---------------------------------------------------------------------
  // Owner from a remote URL

  /** The literal part of the owner pattern before the captured segment. */
  const Host: string := "github.com/"

  /** The pattern's host part occurs at `p`, letters compared ignoring case. */
  predicate HostAt(url: string, p: nat) {
    p + |Host| <= |url| && EqualsIgnoreCase(url[p..p + |Host|], Host)
  }

  /** The end of the run of characters other than `/` that starts at `i`. */
  function SegmentEnd(url: string, i: nat): (j: nat)
    requires i <= |url|
    ensures i <= j <= |url|
    ensures forall k :: i <= k < j ==> url[k] != '/'
    ensures j == |url| || url[j] == '/'
    decreases |url| - i
  {
    if i < |url| && url[i] != '/' then SegmentEnd(url, i + 1) else i
  }

  /** The pattern anchored at `p`: the host, then a non-empty run without
      `/` (the captured owner), then a `/`. A shorter run cannot be followed
      by `/`, so the greedy run is the only candidate. */
  function OwnerAt(url: string, p: nat): (r: Option<string>)
    ensures r.Some? ==> HostAt(url, p) && r.value != [] && '/' !in r.value
    ensures r.Some? ==> p + |Host| + |r.value| < |url| && url[p + |Host|..p + |Host| + |r.value|] == r.value
                        && url[p + |Host| + |r.value|] == '/'
  {
    if !HostAt(url, p) then None
    else
      var a := p + |Host|;
      var b := SegmentEnd(url, a);
      if a < b && b < |url| then Some(url[a..b]) else None
  }

  /** The pattern is found at `p` exactly when the host is there followed
      by a non-empty segment without `/` and then a `/`. */
  lemma OwnerAtExactly(url: string, p: nat, owner: string)
    ensures OwnerAt(url, p) == Some(owner)
            <==> && HostAt(url, p) && owner != [] && '/' !in owner
                 && p + |Host| + |owner| < |url| && url[p + |Host|..p + |Host| + |owner|] == owner
                 && url[p + |Host| + |owner|] == '/'
  {
    if HostAt(url, p) && owner != [] && '/' !in owner && p + |Host| + |owner| < |url|
       && url[p + |Host|..p + |Host| + |owner|] == owner && url[p + |Host| + |owner|] == '/' {
      var a := p + |Host|;
      forall k | a <= k < a + |owner| ensures url[k] != '/' {
        assert url[k] == owner[k - a];
      }
      SegmentEndIs(url, a, a + |owner|);
    }
  }

  lemma {:induction false} SegmentEndIs(url: string, i: nat, j: nat)
    requires i <= j < |url| && url[j] == '/'
    requires forall k :: i <= k < j ==> url[k] != '/'
    ensures SegmentEnd(url, i) == j
    decreases j - i
  {
    if i < j {
      SegmentEndIs(url, i + 1, j);
    }
  }

  /** The leftmost match at or after `p`. */
  function OwnerFrom(url: string, p: nat): (r: Option<string>)
    requires p <= |url|
    ensures r.Some? ==> r.value != [] && '/' !in r.value
    decreases |url| - p
  {
    if p == |url| then None
    else match OwnerAt(url, p)
      case Some(owner) => Some(owner)
      case None => OwnerFrom(url, p + 1)
  }

  /** `GitHubOwnerFromUrlRegex().Match(url)`: the captured owner of the
      leftmost match, if any. */
  function OwnerFromUrl(url: string): (r: Option<string>)
    ensures r.Some? ==> r.value != [] && '/' !in r.value
  {
    OwnerFrom(url, 0)
  }

  /** A capture comes from a position where the pattern matches, and the
      pattern matches at no position before it. */
  lemma {:induction false} OwnerFromLeftmost(url: string, p: nat) returns (q: nat)
    requires p <= |url| && OwnerFrom(url, p).Some?
    ensures p <= q < |url| && OwnerAt(url, q) == OwnerFrom(url, p)
    ensures forall q' :: p <= q' < q ==> OwnerAt(url, q').None?
    decreases |url| - p
  {
    if OwnerAt(url, p).Some? {
      q := p;
    } else {
      q := OwnerFromLeftmost(url, p + 1);
    }
  }

  /** No capture means the pattern matches nowhere. */
  lemma {:induction false} OwnerFromNone(url: string, p: nat, q: nat)
    requires p <= q < |url| && OwnerFrom(url, p).None?
    ensures OwnerAt(url, q).None?
    decreases q - p
  {
    if p < q {
      OwnerFromNone(url, p + 1, q);
    }
  }

  /** Positions where the pattern does not match are passed over: the
      search from `p` finds what the search from `q` finds. */
  lemma {:induction false} OwnerFromSkips(url: string, p: nat, q: nat)
    requires p <= q <= |url|
    requires forall q' :: p <= q' < q ==> OwnerAt(url, q').None?
    ensures OwnerFrom(url, p) == OwnerFrom(url, q)
    decreases q - p
  {
    if p < q {
      OwnerFromSkips(url, p + 1, q);
    }
  }

  /** `GetRepositoryOwner`: no remote URL gives no owner; a URL the pattern
      does not match gives `Unknown`; otherwise the captured owner. */
  function RepositoryOwner(remoteUrls: seq<string>): (r: Option<string>)
    ensures remoteUrls == [] ==> r.None?
    ensures remoteUrls != [] && OwnerFromUrl(remoteUrls[0]).None? ==> r == Some("Unknown")
    ensures remoteUrls != [] && OwnerFromUrl(remoteUrls[0]).Some? ==> r == OwnerFromUrl(remoteUrls[0])
  {
    if remoteUrls == [] then None
    else
      var url := remoteUrls[0];
      match OwnerFromUrl(url)
      case Some(owner) => Some(owner)
      case None => Some("Unknown")
  }
}
