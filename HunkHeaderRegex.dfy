/** The unified-diff hunk-header pattern `@@ -(\d+),?(\d*) \+(\d+),?(\d*) @@`,
    as an unanchored search that reports its four capture groups. */
module HunkHeaderRegex {
  import opened Wrappers
  import opened Text

  /** The four capture groups: original start, original count, new start,
      new count. The count groups may be empty. */
  datatype HeaderMatch = HeaderMatch(
    originalStart: string,
    originalCount: string,
    newStart: string,
    newCount: string)
  {
    /** What `\d+` and `\d*` can capture. */
    predicate WellFormed() {
      && AllDigits(originalStart) && |originalStart| > 0 && AllDigits(originalCount)
      && AllDigits(newStart) && |newStart| > 0 && AllDigits(newCount)
    }
  }

  /** The literal pieces of the pattern: what comes before the original
      range, between the two ranges, and after the new range. */
  const Open: string := "@@ -"
  const Plus: string := " +"
  const Close: string := " @@"

  /** Every character of `s[i..j]` is a digit. */
  predicate DigitsBetween(s: string, i: nat, j: nat)
    requires i <= j <= |s|
    decreases j - i
  {
    i == j || (IsDigit(s[i]) && DigitsBetween(s, i + 1, j))
  }

  lemma {:induction false} DigitsBetweenAt(s: string, i: nat, j: nat, k: nat)
    requires i <= k < j <= |s| && DigitsBetween(s, i, j)
    ensures IsDigit(s[k])
    decreases k - i
  {
    if i < k {
      DigitsBetweenAt(s, i + 1, j, k);
    }
  }

  lemma {:induction false} DigitsBetweenSlice(s: string, i: nat, j: nat)
    requires i <= j <= |s| && DigitsBetween(s, i, j)
    ensures AllDigits(s[i..j])
  {
    forall k | 0 <= k < j - i ensures IsDigit(s[i..j][k]) {
      DigitsBetweenAt(s, i, j, i + k);
    }
  }

  /** The end of the maximal run of digits that starts at `i`. */
  function DigitRun(s: string, i: nat): (j: nat)
    requires i <= |s|
    ensures i <= j <= |s|
    ensures DigitsBetween(s, i, j)
    ensures j == |s| || !IsDigit(s[j])
    decreases |s| - i
  {
    if i < |s| && IsDigit(s[i]) then DigitRun(s, i + 1) else i
  }

  /** A maximal digit run ends at one place only. */
  lemma {:induction false} DigitRunUnique(s: string, i: nat, j: nat)
    requires i <= j <= |s|
    requires DigitsBetween(s, i, j)
    requires j == |s| || !IsDigit(s[j])
    ensures DigitRun(s, i) == j
    decreases j - i
  {
    if i < j {
      DigitRunUnique(s, i + 1, j);
    }
  }

  /** Does `s[p..]` start with `lit`? */
  predicate LiteralAt(s: string, p: nat, lit: string)
    decreases |lit|
  {
    if lit == [] then p <= |s|
    else p < |s| && s[p] == lit[0] && LiteralAt(s, p + 1, lit[1..])
  }

  lemma {:induction false} LiteralAtBound(s: string, p: nat, lit: string)
    requires LiteralAt(s, p, lit)
    ensures p + |lit| <= |s|
    decreases |lit|
  {
    if lit != [] {
      LiteralAtBound(s, p + 1, lit[1..]);
    }
  }

  /** A literal found at `p` is the slice of `s` there. */
  lemma {:induction false} LiteralAtIsSlice(s: string, p: nat, lit: string)
    requires LiteralAt(s, p, lit)
    ensures p + |lit| <= |s| && s[p..p + |lit|] == lit
    decreases |lit|
  {
    LiteralAtBound(s, p, lit);
    if lit != [] {
      LiteralAtIsSlice(s, p + 1, lit[1..]);
      assert s[p..p + |lit|] == [s[p]] + s[p + 1..p + |lit|];
    }
  }

  /** A slice of `s` is found where it was cut. */
  lemma {:induction false} LiteralAtSlice(s: string, i: nat, j: nat)
    requires i <= j <= |s|
    ensures LiteralAt(s, i, s[i..j])
    decreases j - i
  {
    if i < j {
      assert s[i..j][1..] == s[i + 1..j];
      LiteralAtSlice(s, i + 1, j);
    }
  }

  /** Splitting a literal found at `p` into its two halves. */
  lemma {:induction false} LiteralAtConcat(s: string, p: nat, u: string, v: string)
    requires LiteralAt(s, p, u + v)
    ensures LiteralAt(s, p, u) && LiteralAt(s, p + |u|, v)
    decreases |u|
  {
    if u == [] {
      assert u + v == v;
    } else {
      assert (u + v)[1..] == u[1..] + v;
      LiteralAtConcat(s, p + 1, u[1..], v);
    }
    LiteralAtBound(s, p + |u|, v);
  }

  lemma {:induction false} LiteralAtExtend(s: string, tail: string, p: nat, lit: string)
    requires LiteralAt(s, p, lit)
    ensures LiteralAt(s + tail, p, lit)
    decreases |lit|
  {
    if lit != [] {
      LiteralAtExtend(s, tail, p + 1, lit[1..]);
    }
  }

  /** A literal of digits found at `x` makes a digit run there. */
  lemma {:induction false} DigitsLiteral(s: string, x: nat, g: string)
    requires LiteralAt(s, x, g) && AllDigits(g)
    ensures x + |g| <= |s| && DigitsBetween(s, x, x + |g|)
    decreases |g|
  {
    LiteralAtBound(s, x, g);
    if g != [] {
      DigitsLiteral(s, x + 1, g[1..]);
    }
  }

  /** `,?` : one comma if one is there. */
  function OptionalComma(s: string, i: nat): (j: nat)
    requires i <= |s|
    ensures j <= |s|
    ensures j == i || (j == i + 1 && i < |s| && s[i] == ',')
  {
    if i < |s| && s[i] == ',' then i + 1 else i
  }

  /** The match of the pattern starting exactly at position `p`, if any. The
      quantifiers are greedy; backtracking cannot produce a different match,
      because each group is followed by a non-digit literal. */
  function MatchAt(s: string, p: nat): (r: Option<HeaderMatch>)
    ensures r.Some? ==> p < |s| && s[p] == '@' && r.value.WellFormed()
  {
    if !LiteralAt(s, p, Open) then None
    else
      var a := p + 4;
      var b := DigitRun(s, a);
      if b == a then None
      else
        var c := OptionalComma(s, b);
        var d := DigitRun(s, c);
        if !LiteralAt(s, d, Plus) then None
        else
          var e := d + 2;
          var f := DigitRun(s, e);
          if f == e then None
          else
            var g := OptionalComma(s, f);
            var h := DigitRun(s, g);
            if !LiteralAt(s, h, Close) then None
            else
              DigitsBetweenSlice(s, a, b);
              DigitsBetweenSlice(s, c, d);
              DigitsBetweenSlice(s, e, f);
              DigitsBetweenSlice(s, g, h);
              Some(HeaderMatch(s[a..b], s[c..d], s[e..f], s[g..h]))
  }

  /** The leftmost position from `p` on, below `n`, where `hit` holds. */
  function Leftmost(hit: nat -> bool, p: nat, n: nat): (r: Option<nat>)
    ensures r.Some? ==> p <= r.value < n && hit(r.value)
    decreases n - p
  {
    if p >= n then None
    else if hit(p) then Some(p)
    else Leftmost(hit, p + 1, n)
  }

  /** `hit` fails everywhere before what `Leftmost` reports, and everywhere
      when it reports nothing. */
  lemma {:induction false} LeftmostSkipsOnlyMisses(hit: nat -> bool, p: nat, q: nat, n: nat)
    requires p <= q < n
    requires Leftmost(hit, p, n).Some? ==> q < Leftmost(hit, p, n).value
    ensures !hit(q)
    decreases q - p
  {
    if p < q {
      LeftmostSkipsOnlyMisses(hit, p + 1, q, n);
    }
  }

  /** Whether the pattern matches at a position of `s`. */
  function HitIn(s: string): nat -> bool {
    (q: nat) => MatchAt(s, q).Some?
  }

  /** The leftmost position at or after `p` where the pattern matches. */
  function Search(s: string, p: nat): (r: Option<nat>)
    ensures r.Some? ==> p <= r.value < |s| && MatchAt(s, r.value).Some?
  {
    Leftmost(HitIn(s), p, |s|)
  }

  /** No match starts between `p` and the position `Search` reports, nor
      anywhere from `p` on when it reports none. */
  lemma SearchSkipsOnlyMisses(s: string, p: nat, q: nat)
    requires p <= q
    requires Search(s, p).Some? ==> q < Search(s, p).value
    ensures MatchAt(s, q).None?
  {
    if q < |s| {
      LeftmostSkipsOnlyMisses(HitIn(s), p, q, |s|);
      assert !HitIn(s)(q);
    }
  }

  /** `Regex.Match`: the leftmost match in the line, if any. */
  function Match(s: string): (r: Option<HeaderMatch>)
    ensures r.Some? ==> r.value.WellFormed()
  {
    match Search(s, 0)
    case Some(q) => MatchAt(s, q)
    case None => None
  }

  /** The line matches exactly when the pattern matches at some position,
      and the match reported is the leftmost one. */
  lemma MatchLeftmost(s: string)
    ensures Match(s).Some? <==> exists q :: MatchAt(s, q).Some?
    ensures Match(s).Some? ==> exists q :: MatchAt(s, q) == Match(s) && forall q' :: q' < q ==> MatchAt(s, q').None?
  {
    forall q: nat | Search(s, 0).None? || q < Search(s, 0).value
      ensures MatchAt(s, q).None?
    {
      SearchSkipsOnlyMisses(s, 0, q);
    }
  }

  predicate IsHeader(s: string) {
    Match(s).Some?
  }

  /** A line without `@` is never a header. */
  lemma NoAtNoHeader(s: string)
    requires '@' !in s
    ensures !IsHeader(s)
  {
    MatchLeftmost(s);
  }

  /** `(\d+),?(\d*)` as a language: at `a` stand a non-empty group of
      digits, an optional comma and a possibly empty group of digits. */
  predicate SegmentAt(s: string, a: nat, g1: string, c1: string, g2: string) {
    && AllDigits(g1) && |g1| > 0 && (c1 == "" || c1 == ",") && AllDigits(g2)
    && LiteralAt(s, a, g1) && LiteralAt(s, a + |g1|, c1) && LiteralAt(s, a + |g1| + |c1|, g2)
  }

  /** The whole pattern as a language: at `p` stand `@@ -`, the first
      segment, ` +`, the second segment and ` @@`, one after the other. */
  predicate PatternAt(s: string, p: nat, g1: string, c1: string, g2: string, g3: string, c2: string, g4: string) {
    var d := p + 4 + |g1| + |c1| + |g2|;
    var h := d + 2 + |g3| + |c2| + |g4|;
    && LiteralAt(s, p, Open) && SegmentAt(s, p + 4, g1, c1, g2)
    && LiteralAt(s, d, Plus) && SegmentAt(s, d + 2, g3, c2, g4)
    && LiteralAt(s, h, Close)
  }

  /** The positions at which a match at `p` is cut into literals and groups. */
  lemma MatchAtShape(s: string, p: nat) returns (b: nat, c: nat, d: nat, f: nat, g: nat, h: nat)
    requires MatchAt(s, p).Some?
    ensures LiteralAt(s, p, Open) && p + 4 < b <= c <= d
    ensures DigitRun(s, p + 4) == b && OptionalComma(s, b) == c && DigitRun(s, c) == d
    ensures LiteralAt(s, d, Plus) && d + 2 < f <= g <= h
    ensures DigitRun(s, d + 2) == f && OptionalComma(s, f) == g && DigitRun(s, g) == h
    ensures LiteralAt(s, h, Close)
    ensures MatchAt(s, p).value == HeaderMatch(s[p + 4..b], s[c..d], s[d + 2..f], s[g..h])
  {
    b := DigitRun(s, p + 4);
    c := OptionalComma(s, b);
    d := DigitRun(s, c);
    f := DigitRun(s, d + 2);
    g := OptionalComma(s, f);
    h := DigitRun(s, g);
  }

  /** The converse of MatchAtShape: cuts that pass every check give a match. */
  lemma MatchAtFromCuts(s: string, p: nat, b: nat, c: nat, d: nat, f: nat, g: nat, h: nat)
    requires LiteralAt(s, p, Open) && p + 4 < b <= |s|
    requires DigitRun(s, p + 4) == b && OptionalComma(s, b) == c && c <= |s| && DigitRun(s, c) == d
    requires LiteralAt(s, d, Plus) && d + 2 < f <= |s|
    requires DigitRun(s, d + 2) == f && OptionalComma(s, f) == g && g <= |s| && DigitRun(s, g) == h
    requires LiteralAt(s, h, Close)
    ensures MatchAt(s, p) == Some(HeaderMatch(s[p + 4..b], s[c..d], s[d + 2..f], s[g..h]))
  {
  }

  /** One `(\d+),?(\d*)` segment as the greedy cuts leave it: two digit
      groups around an optional comma, each found where it was cut. */
  lemma SegmentSound(s: string, a: nat, b: nat, c: nat, d: nat)
    requires a <= |s| && a < DigitRun(s, a) && DigitRun(s, a) == b && OptionalComma(s, b) == c && c <= |s| && DigitRun(s, c) == d
    ensures SegmentAt(s, a, s[a..b], s[b..c], s[c..d])
  {
    DigitsBetweenSlice(s, a, b);
    DigitsBetweenSlice(s, c, d);
    LiteralAtSlice(s, a, b);
    LiteralAtSlice(s, b, c);
    LiteralAtSlice(s, c, d);
  }

  /** Cuts that pass every check of `MatchAt` delimit text of the pattern. */
  lemma PatternFromCuts(s: string, p: nat, b: nat, c: nat, d: nat, f: nat, g: nat, h: nat)
    requires LiteralAt(s, p, Open) && p + 4 < b <= c <= d
    requires DigitRun(s, p + 4) == b && OptionalComma(s, b) == c && DigitRun(s, c) == d
    requires LiteralAt(s, d, Plus) && d + 2 < f <= g <= h
    requires DigitRun(s, d + 2) == f && OptionalComma(s, f) == g && DigitRun(s, g) == h
    requires LiteralAt(s, h, Close)
    ensures PatternAt(s, p, s[p + 4..b], s[b..c], s[c..d], s[d + 2..f], s[f..g], s[g..h])
  {
    SegmentSound(s, p + 4, b, c, d);
    SegmentSound(s, d + 2, f, g, h);
  }

  /** Soundness: a reported match is text of the pattern, found at that
      position, with the reported groups. */
  lemma MatchAtSound(s: string, p: nat) returns (c1: string, c2: string)
    requires MatchAt(s, p).Some?
    ensures var m := MatchAt(s, p).value;
      PatternAt(s, p, m.originalStart, c1, m.originalCount, m.newStart, c2, m.newCount)
  {
    var b, c, d, f, g, h := MatchAtShape(s, p);
    c1, c2 := s[b..c], s[f..g];
    PatternFromCuts(s, p, b, c, d, f, g, h);
  }

  /** One `(\d+),?(\d*)` segment followed by a space: the greedy cuts land
      after the first group and after the second. */
  lemma NumberPairCuts(s: string, a: nat, g1: string, c1: string, g2: string, next: string) returns (b: nat, c: nat)
    requires SegmentAt(s, a, g1, c1, g2)
    requires LiteralAt(s, a + |g1| + |c1| + |g2|, next) && |next| > 0 && next[0] == ' '
    ensures a < b <= c <= |s| && DigitRun(s, a) == b && OptionalComma(s, b) == c
    ensures DigitRun(s, c) == a + |g1| + |c1| + |g2|
    ensures c1 == "," ==> s[a..b] == g1 && s[c..DigitRun(s, c)] == g2
    ensures c1 == "" ==> s[a..b] == g1 + g2 && s[c..DigitRun(s, c)] == ""
  {
    var b0, d := a + |g1|, a + |g1| + |c1| + |g2|;
    assert s[d] == next[0];
    DigitsLiteral(s, a, g1);
    DigitsLiteral(s, b0 + |c1|, g2);
    LiteralAtIsSlice(s, a, g1);
    LiteralAtIsSlice(s, b0 + |c1|, g2);
    if c1 == "," {
      assert s[b0] == ',';
      DigitRunUnique(s, a, b0);
      b, c := b0, b0 + 1;
      DigitRunUnique(s, c, d);
    } else {
      DigitsBetweenJoin(s, a, b0, d);
      DigitRunUnique(s, a, d);
      b, c := d, d;
      DigitRunUnique(s, d, d);
      assert s[a..d] == s[a..b0] + s[b0..d];
    }
  }

  lemma {:induction false} DigitsBetweenJoin(s: string, i: nat, j: nat, k: nat)
    requires i <= j <= k <= |s| && DigitsBetween(s, i, j) && DigitsBetween(s, j, k)
    ensures DigitsBetween(s, i, k)
    decreases j - i
  {
    if i < j {
      DigitsBetweenJoin(s, i + 1, j, k);
    }
  }

  /** Completeness: wherever text of the pattern starts, the pattern matches. */
  lemma MatchAtComplete(s: string, p: nat, g1: string, c1: string, g2: string, g3: string, c2: string, g4: string)
    requires PatternAt(s, p, g1, c1, g2, g3, c2, g4)
    ensures MatchAt(s, p).Some?
    ensures var m := MatchAt(s, p).value;
      && (c1 == "," ==> m.originalStart == g1 && m.originalCount == g2)
      && (c1 == "" ==> m.originalStart == g1 + g2 && m.originalCount == "")
      && (c2 == "," ==> m.newStart == g3 && m.newCount == g4)
      && (c2 == "" ==> m.newStart == g3 + g4 && m.newCount == "")
  {
    var d := p + 4 + |g1| + |c1| + |g2|;
    var h := d + 2 + |g3| + |c2| + |g4|;
    var b, c := NumberPairCuts(s, p + 4, g1, c1, g2, Plus);
    var f, g := NumberPairCuts(s, d + 2, g3, c2, g4, Close);
    LiteralAtBound(s, h, Close);
    MatchAtFromCuts(s, p, b, c, d, f, g, h);
  }

  /** The text of a header with the given groups and optional commas. */
  function HeaderText(g1: string, c1: string, g2: string, g3: string, c2: string, g4: string): string {
    Open + (g1 + c1 + g2) + Plus + (g3 + c2 + g4) + Close
  }

  /** A segment written out is text of the segment language. */
  lemma SegmentText(t: string, a: nat, g1: string, c1: string, g2: string)
    requires AllDigits(g1) && |g1| > 0 && (c1 == "" || c1 == ",") && AllDigits(g2)
    requires LiteralAt(t, a, g1 + c1 + g2)
    ensures SegmentAt(t, a, g1, c1, g2)
  {
    LiteralAtConcat(t, a, g1 + c1, g2);
    LiteralAtConcat(t, a, g1, c1);
  }

  /** Five pieces written one after the other each stand where the text
      puts them. */
  lemma PiecesAt(t: string, l1: string, s1: string, l2: string, s2: string, l3: string, tail: string)
    requires t == l1 + s1 + l2 + s2 + l3 + tail
    ensures LiteralAt(t, 0, l1) && LiteralAt(t, |l1|, s1) && LiteralAt(t, |l1| + |s1|, l2)
    ensures LiteralAt(t, |l1| + |s1| + |l2|, s2) && LiteralAt(t, |l1| + |s1| + |l2| + |s2|, l3)
  {
    var x2 := l1 + s1;
    var x3 := x2 + l2;
    var x4 := x3 + s2;
    var x5 := x4 + l3;
    LiteralAtSlice(t, 0, |t|);
    assert t == x5 + tail && t[0..|t|] == t;
    LiteralAtConcat(t, 0, x5, tail);
    LiteralAtConcat(t, 0, x4, l3);
    LiteralAtConcat(t, 0, x3, s2);
    LiteralAtConcat(t, 0, x2, l2);
    LiteralAtConcat(t, 0, l1, s1);
  }

  /** Every header text, whatever follows it, is text of the pattern with
      the groups it was built from. */
  lemma HeaderTextIsPattern(g1: string, c1: string, g2: string, g3: string, c2: string, g4: string, tail: string)
    requires AllDigits(g1) && |g1| > 0 && (c1 == "" || c1 == ",") && AllDigits(g2)
    requires AllDigits(g3) && |g3| > 0 && (c2 == "" || c2 == ",") && AllDigits(g4)
    ensures PatternAt(HeaderText(g1, c1, g2, g3, c2, g4) + tail, 0, g1, c1, g2, g3, c2, g4)
  {
    var t := HeaderText(g1, c1, g2, g3, c2, g4) + tail;
    var s1, s2 := g1 + c1 + g2, g3 + c2 + g4;
    PiecesAt(t, Open, s1, Plus, s2, Close, tail);
    SegmentText(t, 4, g1, c1, g2);
    SegmentText(t, 6 + |s1|, g3, c2, g4);
  }

  /** Appending text after a match at `p` does not change that match. */
  lemma MatchAtExtend(s: string, tail: string, p: nat)
    requires MatchAt(s, p).Some?
    ensures MatchAt(s + tail, p) == MatchAt(s, p)
  {
    var b, c, d, f, g, h := MatchAtShape(s, p);
    var u := s + tail;
    LiteralAtExtend(s, tail, p, Open);
    LiteralAtExtend(s, tail, d, Plus);
    LiteralAtExtend(s, tail, h, Close);
    DigitRunExtend(s, tail, p + 4);
    DigitRunExtend(s, tail, c);
    DigitRunExtend(s, tail, d + 2);
    DigitRunExtend(s, tail, g);
    assert OptionalComma(u, b) == c && OptionalComma(u, f) == g;
    MatchAtFromCuts(u, p, b, c, d, f, g, h);
    assert u[p + 4..b] == s[p + 4..b] && u[c..d] == s[c..d] && u[d + 2..f] == s[d + 2..f] && u[g..h] == s[g..h];
  }

  /** The pattern is unanchored: a line that starts with a header and goes on
      with other text (the function context git appends) still matches. */
  lemma HeaderWithTrailingText(hdr: string, tail: string)
    requires MatchAt(hdr, 0).Some?
    ensures Match(hdr + tail) == MatchAt(hdr, 0)
  {
    MatchAtExtend(hdr, tail, 0);
  }

  /** A digit run that ends before the end of `s` is unchanged by appending. */
  lemma DigitRunExtend(s: string, tail: string, i: nat)
    requires i <= |s|
    requires DigitRun(s, i) < |s|
    ensures DigitRun(s + tail, i) == DigitRun(s, i)
  {
    var j := DigitRun(s, i);
    assert (s + tail)[j] == s[j];
    DigitsBetweenExtend(s, tail, i, j);
    DigitRunUnique(s + tail, i, j);
  }

  lemma {:induction false} DigitsBetweenExtend(s: string, tail: string, i: nat, j: nat)
    requires i <= j <= |s| && DigitsBetween(s, i, j)
    ensures DigitsBetween(s + tail, i, j)
    decreases j - i
  {
    if i < j {
      assert (s + tail)[i] == s[i];
      DigitsBetweenExtend(s, tail, i + 1, j);
    }
  }
}
