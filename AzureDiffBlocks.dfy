/** The Azure DevOps diff blocks of one commit and their expansion, per
    change kind, into the line numbers they cover on either side of the
    diff. The two expansions are association lists kept in the order in
    which the kinds first appear, which is how their lookup sees them. */
module AzureDiffBlocks {

  /** `LineDiffBlockChangeType`; `None` is a block that changes nothing and
      is also the kind a lookup falls back to. */
  datatype ChangeType = None | Add | Delete | Edit

  /** A block of the line diff: its kind and its line span on the original
      (parent) side and on the modified (current) side. */
  datatype LineDiffBlock = LineDiffBlock(
    changeType: ChangeType,
    originalStart: int,
    originalCount: nat,
    modifiedStart: int,
    modifiedCount: nat)

  /** The diff of one file: its blocks. */
  datatype FileDiff = FileDiff(blocks: seq<LineDiffBlock>)

  /** Which side of the diff a span or a content snapshot belongs to. */
  datatype Side = Original | Modified

  function Start(b: LineDiffBlock, side: Side): int {
    if side == Original then b.originalStart else b.modifiedStart
  }

  function Count(b: LineDiffBlock, side: Side): nat {
    if side == Original then b.originalCount else b.modifiedCount
  }

  /** Line `n` lies in the block's span on `side`. */
  predicate Covers(b: LineDiffBlock, side: Side, n: int) {
    Start(b, side) <= n < Start(b, side) + Count(b, side)
  }

  // ---------------------------------------------------------------------
  // Block selection

  /** A block is kept when it changes something and one of its spans
      starts at or after the window's first line; the window's last line
      is not consulted. */
  predicate Selected(b: LineDiffBlock, startLine: int): (r: bool)
    ensures r <==> b.changeType != None && exists side :: Start(b, side) >= startLine
  {
    assert Start(b, Original) == b.originalStart && Start(b, Modified) == b.modifiedStart;
    (b.modifiedStart >= startLine || b.originalStart >= startLine) && b.changeType != None
  }

  /** A changed block that covers the window's first line on both sides,
      but starts before it on both, is dropped. */
  lemma StraddlingBlockDropped(b: LineDiffBlock, startLine: int)
    requires b.changeType != None
    requires Covers(b, Original, startLine) && Covers(b, Modified, startLine)
    requires Start(b, Original) < startLine && Start(b, Modified) < startLine
    ensures !Selected(b, startLine)
  {
  }

  /** The kept blocks of one file diff, in order. */
  function SelectBlocks(blocks: seq<LineDiffBlock>, startLine: int): (r: seq<LineDiffBlock>)
    ensures forall b :: b in r <==> b in blocks && Selected(b, startLine)
    ensures |r| <= |blocks|
  {
    if blocks == [] then []
    else
      var b := blocks[|blocks| - 1];
      SelectBlocks(blocks[..|blocks| - 1], startLine) + (if Selected(b, startLine) then [b] else [])
  }

  /** Selection keeps the blocks' order: selecting from two lists one
      after the other gives the two selections one after the other. */
  lemma {:induction false} SelectBlocksAppend(a: seq<LineDiffBlock>, b: seq<LineDiffBlock>, startLine: int)
    ensures SelectBlocks(a + b, startLine) == SelectBlocks(a, startLine) + SelectBlocks(b, startLine)
    decreases |b|
  {
    if b == [] {
      assert a + b == a;
    } else {
      var b' := b[..|b| - 1];
      assert (a + b)[..|a + b| - 1] == a + b';
      assert (a + b)[|a + b| - 1] == b[|b| - 1];
      SelectBlocksAppend(a, b', startLine);
    }
  }

  /** `relevantChanges`: the kept blocks of all file diffs, file by file. */
  function RelevantChanges(diffs: seq<FileDiff>, startLine: int): (r: seq<LineDiffBlock>)
    ensures forall b :: b in r ==> Selected(b, startLine)
  {
    if diffs == [] then []
    else RelevantChanges(diffs[..|diffs| - 1], startLine) + SelectBlocks(diffs[|diffs| - 1].blocks, startLine)
  }

  /** A block is relevant exactly when some file diff holds it and it is selected. */
  lemma {:induction false} RelevantChangesMembership(diffs: seq<FileDiff>, startLine: int, b: LineDiffBlock)
    ensures b in RelevantChanges(diffs, startLine)
            <==> Selected(b, startLine) && exists k :: 0 <= k < |diffs| && b in diffs[k].blocks
  {
    if diffs != [] {
      var init := diffs[..|diffs| - 1];
      RelevantChangesMembership(init, startLine, b);
      if exists k :: 0 <= k < |diffs| && b in diffs[k].blocks {
        var k :| 0 <= k < |diffs| && b in diffs[k].blocks;
        if k < |diffs| - 1 {
          assert init[k] == diffs[k];
        }
      }
      if b in RelevantChanges(init, startLine) {
        var k :| 0 <= k < |init| && b in init[k].blocks;
        assert diffs[k] == init[k];
      }
    }
  }

  // ---------------------------------------------------------------------
  // Expansion

  /** `Enumerable.Range(start, count)`: `count` consecutive numbers from `start`. */
  function Range(start: int, count: nat): (r: seq<int>)
    ensures |r| == count
    ensures forall n :: n in r <==> start <= n < start + count
  {
    if count == 0 then [] else Range(start, count - 1) + [start + count - 1]
  }

  /** No element occurs twice. */
  predicate NoDuplicates<T(==)>(xs: seq<T>) {
    forall i, j :: 0 <= i < j < |xs| ==> xs[i] != xs[j]
  }

  /** `Distinct`: each element once, at its first occurrence. */
  function Distinct<T(==,!new)>(xs: seq<T>): (r: seq<T>)
    ensures forall x :: x in r <==> x in xs
    ensures NoDuplicates(r)
    ensures |r| <= |xs|
  {
    if xs == [] then []
    else
      var init := Distinct(xs[..|xs| - 1]);
      var x := xs[|xs| - 1];
      if x in init then init else init + [x]
  }

  /** Deduplicating a sequence without repeats changes nothing. */
  lemma {:induction false} DistinctKeepsDistinct<T(!new)>(xs: seq<T>)
    requires NoDuplicates(xs)
    ensures Distinct(xs) == xs
  {
    if xs != [] {
      var init := xs[..|xs| - 1];
      assert NoDuplicates(init);
      DistinctKeepsDistinct(init);
      assert xs[|xs| - 1] !in init;
      assert init + [xs[|xs| - 1]] == xs;
    }
  }

  /** The kinds of the blocks in order of their first appearance: the keys of `GroupBy`. */
  function Kinds(blocks: seq<LineDiffBlock>): (r: seq<ChangeType>)
    ensures NoDuplicates(r)
    ensures forall k :: k in r <==> exists t :: 0 <= t < |blocks| && blocks[t].changeType == k
  {
    var all := seq(|blocks|, t requires 0 <= t < |blocks| => blocks[t].changeType);
    assert forall k :: k in all <==> exists t :: 0 <= t < |blocks| && blocks[t].changeType == k by {
      forall k ensures k in all <==> exists t :: 0 <= t < |blocks| && blocks[t].changeType == k {
        if k in all {
          var t :| 0 <= t < |all| && all[t] == k;
          assert blocks[t].changeType == k;
        }
        if exists t :: 0 <= t < |blocks| && blocks[t].changeType == k {
          var t :| 0 <= t < |blocks| && blocks[t].changeType == k;
          assert all[t] == k;
        }
      }
    }
    Distinct(all)
  }

  /** The spans on `side` of the blocks of kind `kind`, one after another:
      the group's `SelectMany` before deduplication. */
  function Expanded(blocks: seq<LineDiffBlock>, kind: ChangeType, side: Side): (r: seq<int>)
  {
    if blocks == [] then []
    else
      var b := blocks[|blocks| - 1];
      Expanded(blocks[..|blocks| - 1], kind, side)
        + (if b.changeType == kind then Range(Start(b, side), Count(b, side)) else [])
  }

  /** A line is in the expansion exactly when a block of that kind covers it. */
  lemma {:induction false} ExpandedMembership(blocks: seq<LineDiffBlock>, kind: ChangeType, side: Side, n: int)
    ensures n in Expanded(blocks, kind, side)
            <==> exists t :: 0 <= t < |blocks| && blocks[t].changeType == kind && Covers(blocks[t], side, n)
  {
    if blocks != [] {
      var init := blocks[..|blocks| - 1];
      var b := blocks[|blocks| - 1];
      ExpandedMembership(init, kind, side, n);
      if exists t :: 0 <= t < |blocks| && blocks[t].changeType == kind && Covers(blocks[t], side, n) {
        var t :| 0 <= t < |blocks| && blocks[t].changeType == kind && Covers(blocks[t], side, n);
        if t < |blocks| - 1 {
          assert init[t] == blocks[t];
        }
      }
      if n in Expanded(init, kind, side) {
        var t :| 0 <= t < |init| && init[t].changeType == kind && Covers(init[t], side, n);
        assert blocks[t] == init[t];
      }
    }
  }

  /** One entry of a `Dictionary<LineDiffBlockChangeType, int[]>`. */
  datatype Entry = Entry(key: ChangeType, lines: seq<int>)

  /** `currentChangedLinesByType` (side `Modified`) and
      `parentChangedLinesByType` (side `Original`): for each kind, in order
      of first appearance, the deduplicated lines its blocks cover. */
  function LinesByType(blocks: seq<LineDiffBlock>, side: Side): (r: seq<Entry>)
    ensures |r| == |Kinds(blocks)|
  {
    var keys := Kinds(blocks);
    seq(|keys|, i requires 0 <= i < |keys| => Entry(keys[i], Distinct(Expanded(blocks, keys[i], side))))
  }

  function Keys(entries: seq<Entry>): (r: seq<ChangeType>)
    ensures |r| == |entries|
  {
    seq(|entries|, i requires 0 <= i < |entries| => entries[i].key)
  }

  /** Both maps have the same keys, in the same order, each key once, and a
      kind is a key exactly when some block has it. */
  lemma LinesByTypeKeys(blocks: seq<LineDiffBlock>)
    ensures Keys(LinesByType(blocks, Original)) == Keys(LinesByType(blocks, Modified))
    ensures NoDuplicates(Keys(LinesByType(blocks, Modified)))
    ensures forall k :: k in Keys(LinesByType(blocks, Modified))
                        <==> exists t :: 0 <= t < |blocks| && blocks[t].changeType == k
  {
    assert Keys(LinesByType(blocks, Original)) == Kinds(blocks);
    assert Keys(LinesByType(blocks, Modified)) == Kinds(blocks);
  }

  /** Each entry holds, without repeats, exactly the lines that the blocks
      of its kind cover on its side. */
  lemma LinesByTypeContents(blocks: seq<LineDiffBlock>, side: Side, i: nat, n: int)
    requires i < |LinesByType(blocks, side)|
    ensures NoDuplicates(LinesByType(blocks, side)[i].lines)
    ensures n in LinesByType(blocks, side)[i].lines
            <==> exists t :: 0 <= t < |blocks| && blocks[t].changeType == LinesByType(blocks, side)[i].key
                             && Covers(blocks[t], side, n)
  {
    ExpandedMembership(blocks, Kinds(blocks)[i], side, n);
  }

  // ---------------------------------------------------------------------
  // Lookup

  /** `changedLineNumbersByType.FirstOrDefault(kvp => kvp.Value.Contains(n)).Key`:
      the key of the first entry holding `n`, or `None` when no entry does. */
  function KindOf(entries: seq<Entry>, n: int): (r: ChangeType)
    ensures r != None ==> exists i :: 0 <= i < |entries| && n in entries[i].lines && entries[i].key == r
  {
    if entries == [] then None
    else if n in entries[0].lines then entries[0].key
    else KindOf(entries[1..], n)
  }

  /** The lookup answers with the key of the first entry that holds `n`. */
  lemma {:induction false} KindOfFirstMatch(entries: seq<Entry>, n: int, i: nat)
    requires i < |entries| && n in entries[i].lines
    requires forall j :: 0 <= j < i ==> n !in entries[j].lines
    ensures KindOf(entries, n) == entries[i].key
  {
    if i > 0 {
      assert n !in entries[0].lines;
      KindOfFirstMatch(entries[1..], n, i - 1);
    }
  }

  /** When no entry holds `n`, the lookup gives the default kind `None`;
      otherwise it gives the key of an entry that holds `n`. */
  lemma {:induction false} KindOfNoMatch(entries: seq<Entry>, n: int)
    ensures (forall j :: 0 <= j < |entries| ==> n !in entries[j].lines) ==> KindOf(entries, n) == None
    ensures (exists j :: 0 <= j < |entries| && n in entries[j].lines)
            ==> exists j :: 0 <= j < |entries| && n in entries[j].lines && entries[j].key == KindOf(entries, n)
  {
    if entries != [] {
      KindOfNoMatch(entries[1..], n);
      if n !in entries[0].lines {
        if exists j :: 0 <= j < |entries| && n in entries[j].lines {
          var j :| 0 <= j < |entries| && n in entries[j].lines;
          assert entries[1..][j - 1] == entries[j];
          var j' :| 0 <= j' < |entries[1..]| && n in entries[1..][j'].lines && entries[1..][j'].key == KindOf(entries[1..], n);
          assert entries[j' + 1] == entries[1..][j'];
        }
        if forall j :: 0 <= j < |entries| ==> n !in entries[j].lines {
          forall j | 0 <= j < |entries[1..]| ensures n !in entries[1..][j].lines {
            assert entries[1..][j] == entries[j + 1];
          }
        }
      }
    }
  }

  /** For the maps built from the relevant blocks, a line's kind is `None`
      exactly when no relevant block covers it on that side; otherwise it
      is the kind of a relevant block that covers it. */
  lemma KindOfRelevant(diffs: seq<FileDiff>, startLine: int, side: Side, n: int)
    ensures var blocks := RelevantChanges(diffs, startLine);
            var kind := KindOf(LinesByType(blocks, side), n);
            && (kind == None <==> forall t :: 0 <= t < |blocks| ==> !Covers(blocks[t], side, n))
            && (kind != None ==> exists t :: 0 <= t < |blocks| && blocks[t].changeType == kind && Covers(blocks[t], side, n))
  {
    var blocks := RelevantChanges(diffs, startLine);
    var entries := LinesByType(blocks, side);
    KindOfNoMatch(entries, n);
    if exists t :: 0 <= t < |blocks| && Covers(blocks[t], side, n) {
      var t :| 0 <= t < |blocks| && Covers(blocks[t], side, n);
      var kind := blocks[t].changeType;
      assert kind in Kinds(blocks);
      var i :| 0 <= i < |Kinds(blocks)| && Kinds(blocks)[i] == kind;
      LinesByTypeContents(blocks, side, i, n);
      assert n in entries[i].lines;
    }
    if exists j :: 0 <= j < |entries| && n in entries[j].lines {
      var j :| 0 <= j < |entries| && n in entries[j].lines && entries[j].key == KindOf(entries, n);
      LinesByTypeContents(blocks, side, j, n);
      var t :| 0 <= t < |blocks| && blocks[t].changeType == entries[j].key && Covers(blocks[t], side, n);
      assert blocks[t] in blocks;
    }
  }
}
