/** The merge of the parent side's deleted lines with the current side's
    added lines: the side with the smaller head line number goes first (the
    parent on a tie or when the current side is used up) and gives up its
    whole run of consecutively numbered lines before the heads are compared
    again. */
module AzureMerge {
  import opened Models

  // ---------------------------------------------------------------------
  // Specification

  /** The end of the run that starts at `i`: the first index after `i` whose
      line number is not its predecessor's plus one, or the end of `xs`. */
  function RunEnd(xs: seq<CodeLine>, i: nat): (k: nat)
    requires i < |xs|
    ensures i < k <= |xs|
    ensures forall t :: i < t < k ==> Consecutive(xs, t)
    ensures k < |xs| ==> !Consecutive(xs, k)
    decreases |xs| - i
  {
    if i + 1 < |xs| && Consecutive(xs, i + 1) then RunEnd(xs, i + 1) else i + 1
  }

  /** Line `t` is numbered one after line `t - 1`. */
  predicate Consecutive(xs: seq<CodeLine>, t: nat)
    requires 0 < t < |xs|
  {
    xs[t].LineNumber == xs[t - 1].LineNumber + 1
  }

  /** The parent side is chosen when it has a line left and the current side
      has none left or a head that is not smaller. */
  predicate ParentFirst(parent: seq<CodeLine>, current: seq<CodeLine>, i: nat, j: nat) {
    i < |parent| && (j >= |current| || parent[i].LineNumber <= current[j].LineNumber)
  }

  /** The merge of `parent[i..]` with `current[j..]`, run by run. */
  function MergeFrom(parent: seq<CodeLine>, current: seq<CodeLine>, i: nat, j: nat): (r: seq<CodeLine>)
    requires i <= |parent| && j <= |current|
    ensures |r| == (|parent| - i) + (|current| - j)
    decreases (|parent| - i) + (|current| - j)
  {
    if i == |parent| && j == |current| then []
    else if ParentFirst(parent, current, i, j) then
      var k := RunEnd(parent, i);
      parent[i..k] + MergeFrom(parent, current, k, j)
    else
      var k := RunEnd(current, j);
      current[j..k] + MergeFrom(parent, current, i, k)
  }

  /** The merge of the two sides. */
  function Merge(parent: seq<CodeLine>, current: seq<CodeLine>): seq<CodeLine> {
    MergeFrom(parent, current, 0, 0)
  }

  /** `r` is `p` and `c` shuffled together, each keeping its own order. */
  predicate IsInterleaving(r: seq<CodeLine>, p: seq<CodeLine>, c: seq<CodeLine>)
    decreases |r|
  {
    if r == [] then p == [] && c == []
    else
      || (p != [] && r[0] == p[0] && IsInterleaving(r[1..], p[1..], c))
      || (c != [] && r[0] == c[0] && IsInterleaving(r[1..], p, c[1..]))
  }

  // ---------------------------------------------------------------------
  // The array-filling implementation

  /** `AddConsecutiveLines`: copies `lines[lineIndex]` and the run of
      consecutively numbered lines after it into `result` from
      `resultIndex` on, and returns both advanced indices. */
  method AddConsecutiveLines(lines: seq<CodeLine>, result: array<CodeLine>, lineIndex: nat, resultIndex: nat)
    returns (nextLineIndex: nat, nextResultIndex: nat)
    requires lineIndex < |lines|
    requires resultIndex + (RunEnd(lines, lineIndex) - lineIndex) <= result.Length
    modifies result
    ensures nextLineIndex == RunEnd(lines, lineIndex)
    ensures nextResultIndex == resultIndex + (nextLineIndex - lineIndex)
    ensures result[..nextResultIndex] == old(result[..resultIndex]) + lines[lineIndex..nextLineIndex]
    ensures result[nextResultIndex..] == old(result[nextResultIndex..])
  {
    ghost var before := result[..];
    result[resultIndex] := lines[lineIndex];
    nextResultIndex := resultIndex + 1;
    nextLineIndex := lineIndex + 1;
    while nextLineIndex < |lines| && Consecutive(lines, nextLineIndex)
      invariant lineIndex < nextLineIndex <= RunEnd(lines, lineIndex)
      invariant nextResultIndex == resultIndex + (nextLineIndex - lineIndex)
      invariant forall t :: 0 <= t < resultIndex ==> result[t] == before[t]
      invariant forall t :: resultIndex <= t < nextResultIndex ==> result[t] == lines[t - resultIndex + lineIndex]
      invariant forall t :: nextResultIndex <= t < result.Length ==> result[t] == before[t]
      decreases |lines| - nextLineIndex
    {
      result[nextResultIndex] := lines[nextLineIndex];
      nextResultIndex := nextResultIndex + 1;
      nextLineIndex := nextLineIndex + 1;
    }
    CopiedRun(result[..], before, lines, resultIndex, lineIndex, nextLineIndex - lineIndex);
  }

  /** A sequence that agrees with `before` except on the `n` places from
      `r` on, which hold `src[l..l + n]`, is that run spliced into `before`. */
  lemma CopiedRun(after: seq<CodeLine>, before: seq<CodeLine>, src: seq<CodeLine>, r: nat, l: nat, n: nat)
    requires |after| == |before| && r + n <= |after| && l + n <= |src|
    requires forall t :: 0 <= t < r ==> after[t] == before[t]
    requires forall t :: r <= t < r + n ==> after[t] == src[t - r + l]
    requires forall t :: r + n <= t < |after| ==> after[t] == before[t]
    ensures after[..r + n] == before[..r] + src[l..l + n]
    ensures after[r + n..] == before[r + n..]
  {
  }

  /** Regrouping a concatenation; a separate step keeps the loop's proof small. */
  lemma Reassociate(a: seq<CodeLine>, b: seq<CodeLine>, c: seq<CodeLine>)
    ensures (a + b) + c == a + (b + c)
  {
  }

  /** `MergeChanges`: fills an array of `|parent| + |current|` lines, side
      by side and run by run, and returns its contents. */
  method MergeChanges(parent: seq<CodeLine>, current: seq<CodeLine>) returns (r: seq<CodeLine>)
    ensures r == Merge(parent, current)
  {
    var result := new CodeLine[|parent| + |current|](_ => CodeLine(0, ""));
    var i: nat, j: nat, x: nat := 0, 0, 0;
    while i < |parent| || j < |current|
      invariant i <= |parent| && j <= |current| && x == i + j
      invariant result[..x] + MergeFrom(parent, current, i, j) == Merge(parent, current)
      decreases (|parent| - i) + (|current| - j)
    {
      ghost var done := result[..x];
      ghost var rest := MergeFrom(parent, current, i, j);
      ghost var run: seq<CodeLine>;
      if ParentFirst(parent, current, i, j) {
        run := parent[i..RunEnd(parent, i)];
        assert rest == run + MergeFrom(parent, current, RunEnd(parent, i), j);
        i, x := AddConsecutiveLines(parent, result, i, x);
      } else {
        run := current[j..RunEnd(current, j)];
        assert rest == run + MergeFrom(parent, current, i, RunEnd(current, j));
        j, x := AddConsecutiveLines(current, result, j, x);
      }
      Reassociate(done, run, MergeFrom(parent, current, i, j));
    }
    assert result[..] == result[..x];
    r := result[..];
  }

  // ---------------------------------------------------------------------
  // Properties of the merge

  /** Putting a run in front of both the result and one side keeps an interleaving. */
  lemma {:induction false} PrependToParent(run: seq<CodeLine>, r: seq<CodeLine>, p: seq<CodeLine>, c: seq<CodeLine>)
    requires IsInterleaving(r, p, c)
    ensures IsInterleaving(run + r, run + p, c)
    decreases |run|
  {
    if run == [] {
      assert run + r == r && run + p == p;
    } else {
      PrependToParent(run[1..], r, p, c);
      assert (run + r)[1..] == run[1..] + r;
      assert (run + p)[1..] == run[1..] + p;
      assert (run + r)[0] == (run + p)[0];
      assert IsInterleaving((run + r)[1..], (run + p)[1..], c);
    }
  }

  lemma {:induction false} PrependToCurrent(run: seq<CodeLine>, r: seq<CodeLine>, p: seq<CodeLine>, c: seq<CodeLine>)
    requires IsInterleaving(r, p, c)
    ensures IsInterleaving(run + r, p, run + c)
    decreases |run|
  {
    if run == [] {
      assert run + r == r && run + c == c;
    } else {
      PrependToCurrent(run[1..], r, p, c);
      assert (run + r)[0] == (run + c)[0];
      assert (run + r)[1..] == run[1..] + r;
      assert (run + c)[1..] == run[1..] + c;
      assert IsInterleaving((run + r)[1..], p, (run + c)[1..]);
    }
  }

  lemma {:induction false} MergeFromInterleaves(parent: seq<CodeLine>, current: seq<CodeLine>, i: nat, j: nat)
    requires i <= |parent| && j <= |current|
    ensures IsInterleaving(MergeFrom(parent, current, i, j), parent[i..], current[j..])
    decreases (|parent| - i) + (|current| - j)
  {
    if i == |parent| && j == |current| {
    } else if ParentFirst(parent, current, i, j) {
      var k := RunEnd(parent, i);
      MergeFromInterleaves(parent, current, k, j);
      PrependToParent(parent[i..k], MergeFrom(parent, current, k, j), parent[k..], current[j..]);
      assert parent[i..k] + parent[k..] == parent[i..];
    } else {
      var k := RunEnd(current, j);
      MergeFromInterleaves(parent, current, i, k);
      PrependToCurrent(current[j..k], MergeFrom(parent, current, i, k), parent[i..], current[k..]);
      assert current[j..k] + current[k..] == current[j..];
    }
  }

  /** The merge returns every line of both sides, each side in its own order. */
  lemma MergeInterleaves(parent: seq<CodeLine>, current: seq<CodeLine>)
    ensures IsInterleaving(Merge(parent, current), parent, current)
  {
    MergeFromInterleaves(parent, current, 0, 0);
    assert parent[0..] == parent && current[0..] == current;
  }

  /** An interleaving drops and duplicates nothing. */
  lemma {:induction false} InterleavingIsPermutation(r: seq<CodeLine>, p: seq<CodeLine>, c: seq<CodeLine>)
    requires IsInterleaving(r, p, c)
    ensures multiset(r) == multiset(p) + multiset(c)
    decreases |r|
  {
    if r != [] {
      assert r == [r[0]] + r[1..];
      if p != [] && r[0] == p[0] && IsInterleaving(r[1..], p[1..], c) {
        InterleavingIsPermutation(r[1..], p[1..], c);
        assert p == [p[0]] + p[1..];
      } else {
        InterleavingIsPermutation(r[1..], p, c[1..]);
        assert c == [c[0]] + c[1..];
      }
    }
  }

  /** The merged lines are exactly the lines of both sides, with multiplicity. */
  lemma MergeIsPermutation(parent: seq<CodeLine>, current: seq<CodeLine>)
    ensures multiset(Merge(parent, current)) == multiset(parent) + multiset(current)
  {
    MergeInterleaves(parent, current);
    InterleavingIsPermutation(Merge(parent, current), parent, current);
  }

  /** The first step: the parent's head run comes first when the current
      side is empty or its head is not smaller; otherwise the current
      side's head run does. */
  lemma MergeStartsWithChosenRun(parent: seq<CodeLine>, current: seq<CodeLine>)
    requires parent != [] || current != []
    ensures ParentFirst(parent, current, 0, 0)
            ==> Merge(parent, current)[..RunEnd(parent, 0)] == parent[..RunEnd(parent, 0)]
    ensures !ParentFirst(parent, current, 0, 0)
            ==> current != [] && Merge(parent, current)[..RunEnd(current, 0)] == current[..RunEnd(current, 0)]
  {
  }

  /** With one side empty the merge is the other side unchanged. */
  lemma {:induction false} MergeWithEmptySide(xs: seq<CodeLine>, i: nat)
    requires i <= |xs|
    ensures MergeFrom(xs, [], i, 0) == xs[i..]
    ensures MergeFrom([], xs, 0, i) == xs[i..]
    decreases |xs| - i
  {
    if i < |xs| {
      var k := RunEnd(xs, i);
      MergeWithEmptySide(xs, k);
      assert xs[i..k] + xs[k..] == xs[i..];
    }
  }

  /** The merge is not sorted in general: a parent run `1,2,3` is kept
      whole ahead of the current side's line 2. */
  lemma MergeKeepsRunsAheadOfOrder()
    ensures Merge([CodeLine(1, "-a"), CodeLine(2, "-b"), CodeLine(3, "-c")], [CodeLine(2, "+x")])
            == [CodeLine(1, "-a"), CodeLine(2, "-b"), CodeLine(3, "-c"), CodeLine(2, "+x")]
  {
    var p := [CodeLine(1, "-a"), CodeLine(2, "-b"), CodeLine(3, "-c")];
    var c := [CodeLine(2, "+x")];
    assert RunEnd(p, 0) == 3;
    assert MergeFrom(p, c, 3, 0) == c by {
      assert RunEnd(c, 0) == 1;
    }
  }
}
