/** Cache keys: each part formatted (a date as `yyyyMMddHHmmss`, anything
    else through its own text), trimmed, and the parts joined with `:`. */
module CacheKey {
  import opened Wrappers
  import opened Text

  /** The resource kinds that follow the provider tag in a key. */
  const Repositories: string := "repositories"
  const Commits: string := "commits"
  const Commit: string := "commit"
  const FileContent: string := "filecontent"
  const FileDiffs: string := "filediffs"

  /** The separator between parts. */
  const Separator: char := ':'

  type Year = y: nat | 1 <= y <= 9999 witness 1
  type Month = m: nat | 1 <= m <= 12 witness 1
  type Day = d: nat | 1 <= d <= 31 witness 1
  type Hour = h: nat | h < 24
  type Minute = m: nat | m < 60
  type Second = s: nat | s < 60

  /** A key part: a `DateTime`, or any other value given by what its
      `ToString()` returns (`None` for `null`). */
  datatype KeyPart =
    | DatePart(year: Year, month: Month, day: Day, hour: Hour, minute: Minute, second: Second)
    | ObjectPart(text: Option<string>)

  /** `FormatPart`: a date as its fourteen-digit `yyyyMMddHHmmss` stamp, any
      other part as its text, `""` when that text is missing. */
  function FormatPart(part: KeyPart): (r: string)
    ensures part.DatePart? ==> |r| == 14 && AllDigits(r)
    ensures part.ObjectPart? && part.text.None? ==> r == ""
    ensures part.ObjectPart? && part.text.Some? ==> r == part.text.value
  {
    match part
    case DatePart(y, mo, d, h, mi, s) =>
      PadDigits(y, 4) + PadDigits(mo, 2) + PadDigits(d, 2) + PadDigits(h, 2) + PadDigits(mi, 2) + PadDigits(s, 2)
    case ObjectPart(text) => if text.Some? then text.value else ""
  }

  /** Reading the stamp's digit groups back gives the date's fields. */
  lemma DateStampFields(y: Year, mo: Month, d: Day, h: Hour, mi: Minute, s: Second)
    ensures var r := FormatPart(DatePart(y, mo, d, h, mi, s));
            && ParseNat(r[0..4]) == y && ParseNat(r[4..6]) == mo && ParseNat(r[6..8]) == d
            && ParseNat(r[8..10]) == h && ParseNat(r[10..12]) == mi && ParseNat(r[12..14]) == s
  {
    var r := FormatPart(DatePart(y, mo, d, h, mi, s));
    assert r[0..4] == PadDigits(y, 4);
    assert r[4..6] == PadDigits(mo, 2);
    assert r[6..8] == PadDigits(d, 2);
    assert r[8..10] == PadDigits(h, 2);
    assert r[10..12] == PadDigits(mi, 2);
    assert r[12..14] == PadDigits(s, 2);
    assert Pow10(2) == 100 && Pow10(4) == 10000;
    ParsePadDigits(y, 4);
    ParsePadDigits(mo, 2);
    ParsePadDigits(d, 2);
    ParsePadDigits(h, 2);
    ParsePadDigits(mi, 2);
    ParsePadDigits(s, 2);
  }

  // ---------------------------------------------------------------------
  // Trimming

  /** `char.IsWhiteSpace`: the Unicode space, line and paragraph separators
      and the control characters U+0009 to U+000D and U+0085. */
  predicate IsWhiteSpace(c: char): (r: bool)
    ensures c == ' ' || c == '\t' || c == '\n' || c == '\r' ==> r
    ensures IsDigit(c) || 'a' <= c <= 'z' || 'A' <= c <= 'Z' || c == Separator ==> !r
  {
    || '\U{0009}' <= c <= '\U{000D}' || c == ' ' || c == '\U{0085}' || c == '\U{00A0}'
    || c == '\U{1680}' || '\U{2000}' <= c <= '\U{200A}' || c == '\U{2028}' || c == '\U{2029}'
    || c == '\U{202F}' || c == '\U{205F}' || c == '\U{3000}'
  }

  /** The first index from `i` on that does not hold white space, or `|s|`. */
  function TrimStartIndex(s: string, i: nat): (r: nat)
    requires i <= |s|
    ensures i <= r <= |s|
    ensures forall k :: i <= k < r ==> IsWhiteSpace(s[k])
    ensures r == |s| || !IsWhiteSpace(s[r])
    decreases |s| - i
  {
    if i < |s| && IsWhiteSpace(s[i]) then TrimStartIndex(s, i + 1) else i
  }

  /** The index after the last character of `s[a..j]` that is not white
      space, or `a` when there is none. */
  function TrimEndIndex(s: string, a: nat, j: nat): (r: nat)
    requires a <= j <= |s|
    ensures a <= r <= j
    ensures forall k :: r <= k < j ==> IsWhiteSpace(s[k])
    ensures r == a || !IsWhiteSpace(s[r - 1])
    decreases j - a
  {
    if a < j && IsWhiteSpace(s[j - 1]) then TrimEndIndex(s, a, j - 1) else j
  }

  /** `string.Trim()`: `s` without white space at either end. */
  function Trim(s: string): (r: string)
    ensures |r| <= |s|
  {
    var a := TrimStartIndex(s, 0);
    s[a..TrimEndIndex(s, a, |s|)]
  }

  /** Trimming cuts off white space only, and what is left neither starts
      nor ends with white space. */
  lemma TrimCutsOnlyWhiteSpace(s: string)
    ensures exists a, b :: 0 <= a <= b <= |s| && Trim(s) == s[a..b]
                           && (forall k :: 0 <= k < a ==> IsWhiteSpace(s[k]))
                           && (forall k :: b <= k < |s| ==> IsWhiteSpace(s[k]))
                           && (a < b ==> !IsWhiteSpace(s[a]) && !IsWhiteSpace(s[b - 1]))
  {
    var a := TrimStartIndex(s, 0);
    var b := TrimEndIndex(s, a, |s|);
    assert Trim(s) == s[a..b];
  }

  /** Text without white space at either end is left as it is. */
  lemma TrimKeepsTrimmed(s: string)
    requires s == [] || (!IsWhiteSpace(s[0]) && !IsWhiteSpace(s[|s| - 1]))
    ensures Trim(s) == s
  {
    assert s[0..|s|] == s;
  }

  /** Trimming twice trims nothing more. */
  lemma TrimIdempotent(s: string)
    ensures Trim(Trim(s)) == Trim(s)
  {
    var a := TrimStartIndex(s, 0);
    var b := TrimEndIndex(s, a, |s|);
    var r := s[a..b];
    if r != [] {
      assert r[0] == s[a] && r[|r| - 1] == s[b - 1];
    }
    TrimKeepsTrimmed(r);
  }

  // ---------------------------------------------------------------------
  // Keys

  /** The trimmed, formatted parts, in order. */
  function KeyParts(parts: seq<KeyPart>): (r: seq<string>)
    ensures |r| == |parts|
  {
    seq(|parts|, k requires 0 <= k < |parts| => Trim(FormatPart(parts[k])))
  }

  /** `GenerateKey`: the trimmed, formatted parts joined with `:`; no parts
      give the empty key. */
  function GenerateKey(parts: seq<KeyPart>): (r: string)
    ensures parts == [] ==> r == ""
    ensures |parts| == 1 ==> r == Trim(FormatPart(parts[0]))
  {
    Join(KeyParts(parts), Separator)
  }

  /** When no part's text holds `:`, splitting the key on `:` gives back the
      trimmed parts, one piece per part. */
  lemma SplitKey(parts: seq<KeyPart>)
    requires |parts| >= 1
    requires forall k :: 0 <= k < |parts| ==> Separator !in FormatPart(parts[k])
    ensures Split(GenerateKey(parts), Separator) == KeyParts(parts)
  {
    var trimmed := KeyParts(parts);
    forall k | 0 <= k < |trimmed| ensures Separator !in trimmed[k] {
      TrimCutsOnlyWhiteSpace(FormatPart(parts[k]));
    }
    SplitJoin(trimmed, Separator);
  }

  /** A date part appears in the key as its fourteen digits, unchanged by trimming. */
  lemma DatePartInKey(part: KeyPart)
    requires part.DatePart?
    ensures Trim(FormatPart(part)) == FormatPart(part)
  {
    var s := FormatPart(part);
    assert IsDigit(s[0]) && IsDigit(s[13]);
    TrimKeepsTrimmed(s);
  }

  /** Two leading object parts whose text needs no trimming come first, as they are. */
  lemma KeyPartsOfTagged(tag: string, kind: string, rest: seq<KeyPart>)
    requires tag != [] && !IsWhiteSpace(tag[0]) && !IsWhiteSpace(tag[|tag| - 1])
    requires kind != [] && !IsWhiteSpace(kind[0]) && !IsWhiteSpace(kind[|kind| - 1])
    ensures KeyParts([ObjectPart(Some(tag)), ObjectPart(Some(kind))] + rest) == [tag] + ([kind] + KeyParts(rest))
  {
    TrimKeepsTrimmed(tag);
    TrimKeepsTrimmed(kind);
  }

  /** Joining puts the first piece and the separator ahead of the join of the others. */
  lemma JoinCons(a: string, xs: seq<string>)
    requires |xs| >= 1
    ensures Join([a] + xs, Separator) == a + [Separator] + Join(xs, Separator)
  {
    assert ([a] + xs)[1..] == xs;
  }

  /** A key whose first two parts are a provider tag and a resource kind,
      both free of `:` and of white space at their ends, and which has more
      parts after them, starts with `tag:kind:`. */
  lemma KeyStartsWithTags(tag: string, kind: string, rest: seq<KeyPart>)
    requires tag != [] && !IsWhiteSpace(tag[0]) && !IsWhiteSpace(tag[|tag| - 1])
    requires kind != [] && !IsWhiteSpace(kind[0]) && !IsWhiteSpace(kind[|kind| - 1])
    requires |rest| >= 1
    ensures var key := GenerateKey([ObjectPart(Some(tag)), ObjectPart(Some(kind))] + rest);
            |key| >= |tag| + |kind| + 2 && key[..|tag| + |kind| + 2] == tag + [Separator] + kind + [Separator]
  {
    TaggedKey(tag, kind, rest);
    var prefix := tag + [Separator] + kind + [Separator];
    var tail := Join(KeyParts(rest), Separator);
    assert (prefix + tail)[..|prefix|] == prefix;
  }

  /** The key of a tag, a kind and further parts, written out. */
  lemma TaggedKey(tag: string, kind: string, rest: seq<KeyPart>)
    requires tag != [] && !IsWhiteSpace(tag[0]) && !IsWhiteSpace(tag[|tag| - 1])
    requires kind != [] && !IsWhiteSpace(kind[0]) && !IsWhiteSpace(kind[|kind| - 1])
    requires |rest| >= 1
    ensures GenerateKey([ObjectPart(Some(tag)), ObjectPart(Some(kind))] + rest)
            == tag + [Separator] + kind + [Separator] + Join(KeyParts(rest), Separator)
  {
    var tail := KeyParts(rest);
    var ys := [kind] + tail;
    KeyPartsOfTagged(tag, kind, rest);
    JoinCons(kind, tail);
    JoinCons(tag, ys);
  }

  /** The GitHub commit-list and commit keys start with `github:commits:`
      and `github:commit:`. */
  lemma GitHubCommitKeys(rest: seq<KeyPart>)
    requires |rest| >= 1
    ensures var key := GenerateKey([ObjectPart(Some("github")), ObjectPart(Some(Commits))] + rest);
            |key| >= 15 && key[..15] == "github:commits:"
    ensures var key := GenerateKey([ObjectPart(Some("github")), ObjectPart(Some(Commit))] + rest);
            |key| >= 14 && key[..14] == "github:commit:"
  {
    KeyStartsWithTags("github", Commits, rest);
    KeyStartsWithTags("github", Commit, rest);
  }
}
