/** The parser on the patches of the GitHub provider's unit tests, read with
    the window `[1, 10]` those tests use. Each patch is given as its lines; a
    header line is written with `HeaderText`, so `HeaderText("0", ",", "0",
    "1", ",", "2")` is the line `@@ -0,0 +1,2 @@`. Each case is first worked
    through for any header recogniser that classifies the patch's lines as
    the real one does, and then stated for the real one, `HeaderOf`. */
module GitDiffParserExamples {
  import opened Wrappers
  import opened Text
  import opened Models
  import opened HunkHeaderRegex
  import opened GitDiffParser

  // ---------------------------------------------------------------------
  // Headers and body lines as the real recogniser sees them

  /** The header lines of the cases, read by the real recogniser. */
  lemma OnlyAdditionsHeader()
    ensures HeaderOf(HeaderText("0", ",", "0", "1", ",", "2")) == Some(Hunk(0, 1, 2))
  {
    assert ParseNat("0") == 0 && ParseNat("1") == 1 && ParseNat("2") == 2;
    HeaderOfHeaderText("0", "0", "1", "2", "");
    assert HeaderText("0", ",", "0", "1", ",", "2") + "" == HeaderText("0", ",", "0", "1", ",", "2");
  }

  lemma OnlyDeletionsHeader()
    ensures HeaderOf(HeaderText("1", ",", "2", "0", ",", "0")) == Some(Hunk(1, 0, 0))
  {
    assert ParseNat("0") == 0 && ParseNat("1") == 1 && ParseNat("2") == 2;
    HeaderOfHeaderText("1", "2", "0", "0", "");
    assert HeaderText("1", ",", "2", "0", ",", "0") + "" == HeaderText("1", ",", "2", "0", ",", "0");
  }

  lemma TwoLineHeader()
    ensures HeaderOf(HeaderText("1", ",", "2", "1", ",", "2")) == Some(Hunk(1, 1, 2))
  {
    assert ParseNat("1") == 1 && ParseNat("2") == 2;
    HeaderOfHeaderText("1", "2", "1", "2", "");
    assert HeaderText("1", ",", "2", "1", ",", "2") + "" == HeaderText("1", ",", "2", "1", ",", "2");
  }

  lemma FirstEditHeader()
    ensures HeaderOf(HeaderText("1", ",", "2", "1", ",", "3")) == Some(Hunk(1, 1, 3))
  {
    assert ParseNat("1") == 1 && ParseNat("2") == 2 && ParseNat("3") == 3;
    HeaderOfHeaderText("1", "2", "1", "3", "");
    assert HeaderText("1", ",", "2", "1", ",", "3") + "" == HeaderText("1", ",", "2", "1", ",", "3");
  }

  lemma SecondEditHeader()
    ensures HeaderOf(HeaderText("5", ",", "2", "6", ",", "3")) == Some(Hunk(5, 6, 3))
  {
    assert ParseNat("2") == 2 && ParseNat("3") == 3 && ParseNat("5") == 5 && ParseNat("6") == 6;
    HeaderOfHeaderText("5", "2", "6", "3", "");
    assert HeaderText("5", ",", "2", "6", ",", "3") + "" == HeaderText("5", ",", "2", "6", ",", "3");
  }

  lemma InterleavedHeader()
    ensures HeaderOf(HeaderText("3", ",", "7", "3", ",", "7")) == Some(Hunk(3, 3, 7))
  {
    assert ParseNat("3") == 3 && ParseNat("7") == 7;
    HeaderOfHeaderText("3", "7", "3", "7", "");
    assert HeaderText("3", ",", "7", "3", ",", "7") + "" == HeaderText("3", ",", "7", "3", ",", "7");
  }

  lemma ZeroLengthHeader()
    ensures HeaderOf(HeaderText("10", ",", "0", "11", ",", "0")) == Some(Hunk(10, 11, 0))
  {
    assert ParseNat("0") == 0 && ParseNat("10") == 10 && ParseNat("11") == 11;
    HeaderOfHeaderText("10", "0", "11", "0", "");
    assert HeaderText("10", ",", "0", "11", ",", "0") + "" == HeaderText("10", ",", "0", "11", ",", "0");
  }

  /** The body lines of the cases: none of them holds `@`, so none is a header. */
  lemma OnlyAdditionsBody()
    ensures HeaderOf("+line1").None? && HeaderOf("+line2").None?
  {
    HeaderOfNoAt("+line1");
    HeaderOfNoAt("+line2");
  }

  lemma OnlyDeletionsBody()
    ensures HeaderOf("-line1").None? && HeaderOf("-line2").None?
  {
    HeaderOfNoAt("-line1");
    HeaderOfNoAt("-line2");
  }

  lemma RenameBody()
    ensures HeaderOf("-oldline").None? && HeaderOf("+newline").None?
  {
    HeaderOfNoAt("-oldline");
    HeaderOfNoAt("+newline");
  }

  lemma FirstEditBody()
    ensures HeaderOf(" line1").None? && HeaderOf("-line2").None? && HeaderOf("+line2_modified").None?
    ensures HeaderOf("+line3").None?
  {
    HeaderOfNoAt(" line1");
    HeaderOfNoAt("-line2");
    HeaderOfNoAt("+line2_modified");
    HeaderOfNoAt("+line3");
  }

  lemma SecondEditBody()
    ensures HeaderOf(" line5").None? && HeaderOf("-line6").None? && HeaderOf("+line6_modified").None?
    ensures HeaderOf("+line7").None?
  {
    HeaderOfNoAt(" line5");
    HeaderOfNoAt("-line6");
    HeaderOfNoAt("+line6_modified");
    HeaderOfNoAt("+line7");
  }

  lemma EndOfFileBody()
    ensures HeaderOf(" line1").None? && HeaderOf("-line2").None? && HeaderOf("+line2_modified").None?
    ensures HeaderOf(EndOfFileMarker).None?
  {
    HeaderOfNoAt(" line1");
    HeaderOfNoAt("-line2");
    HeaderOfNoAt("+line2_modified");
    HeaderOfNoAt(EndOfFileMarker);
  }

  lemma InterleavedBody()
    ensures HeaderOf(" line3").None? && HeaderOf(" line4").None? && HeaderOf("-line5").None?
    ensures HeaderOf("+line5_changed").None? && HeaderOf(" line6").None? && HeaderOf("-line7").None?
    ensures HeaderOf("+line7_changed").None? && HeaderOf(" line8").None? && HeaderOf(" line9").None?
  {
    HeaderOfNoAt(" line3");
    HeaderOfNoAt(" line4");
    HeaderOfNoAt("-line5");
    HeaderOfNoAt("+line5_changed");
    HeaderOfNoAt(" line6");
    HeaderOfNoAt("-line7");
    HeaderOfNoAt("+line7_changed");
    HeaderOfNoAt(" line8");
    HeaderOfNoAt(" line9");
  }

  // ---------------------------------------------------------------------
  // Two-line hunks

  lemma OnlyAdditionsWith(header: string -> Option<Hunk>, hd: string)
    requires header(hd) == Some(Hunk(0, 1, 2)) && header("+line1").None? && header("+line2").None?
    ensures Scan(header, [hd, "+line1", "+line2"], 1, 10) == [CodeLine(1, "+line1"), CodeLine(2, "+line2")]
  {
    var h := Hunk(0, 1, 2);
    var body := ["+line1", "+line2"];
    assert [hd, "+line1", "+line2"][1..] == body && body[1..] == ["+line2"] && ["+line2"][1..] == [];
    BodyStep(header, body, h, Counts(0, 0, 0), 1, 10);
    BodyStep(header, ["+line2"], h, Counts(1, 0, 0), 1, 10);
  }

  /** `@@ -0,0 +1,2 @@`, `+line1`, `+line2`: new lines 1 and 2. */
  lemma OnlyAdditions()
    ensures Scan(HeaderOf, [HeaderText("0", ",", "0", "1", ",", "2"), "+line1", "+line2"], 1, 10)
            == [CodeLine(1, "+line1"), CodeLine(2, "+line2")]
  {
    OnlyAdditionsHeader();
    OnlyAdditionsBody();
    OnlyAdditionsWith(HeaderOf, HeaderText("0", ",", "0", "1", ",", "2"));
  }

  lemma OnlyDeletionsWith(header: string -> Option<Hunk>, hd: string)
    requires header(hd) == Some(Hunk(1, 0, 0)) && header("-line1").None? && header("-line2").None?
    ensures Scan(header, [hd, "-line1", "-line2"], 1, 10) == [CodeLine(1, "-line1"), CodeLine(2, "-line2")]
  {
    var h := Hunk(1, 0, 0);
    var body := ["-line1", "-line2"];
    assert [hd, "-line1", "-line2"][1..] == body && body[1..] == ["-line2"] && ["-line2"][1..] == [];
    BodyStep(header, body, h, Counts(0, 0, 0), 1, 10);
    BodyStep(header, ["-line2"], h, Counts(0, 1, 0), 1, 10);
  }

  /** `@@ -1,2 +0,0 @@`, `-line1`, `-line2`: original lines 1 and 2; the
      empty new range does not make the hunk skipped. */
  lemma OnlyDeletions()
    ensures Scan(HeaderOf, [HeaderText("1", ",", "2", "0", ",", "0"), "-line1", "-line2"], 1, 10)
            == [CodeLine(1, "-line1"), CodeLine(2, "-line2")]
  {
    OnlyDeletionsHeader();
    OnlyDeletionsBody();
    OnlyDeletionsWith(HeaderOf, HeaderText("1", ",", "2", "0", ",", "0"));
  }

  lemma RenameWith(header: string -> Option<Hunk>, hd: string)
    requires header(hd) == Some(Hunk(1, 1, 2)) && header("-oldline").None? && header("+newline").None?
    ensures Scan(header, [hd, "-oldline", "+newline"], 1, 10) == [CodeLine(1, "-oldline"), CodeLine(1, "+newline")]
  {
    var h := Hunk(1, 1, 2);
    var body := ["-oldline", "+newline"];
    assert [hd, "-oldline", "+newline"][1..] == body && body[1..] == ["+newline"] && ["+newline"][1..] == [];
    BodyStep(header, body, h, Counts(0, 0, 0), 1, 10);
    BodyStep(header, ["+newline"], h, Counts(0, 1, 0), 1, 10);
  }

  /** `@@ -1,2 +1,2 @@`, `-oldline`, `+newline`: both numbered 1, each on its side. */
  lemma Rename()
    ensures Scan(HeaderOf, [HeaderText("1", ",", "2", "1", ",", "2"), "-oldline", "+newline"], 1, 10)
            == [CodeLine(1, "-oldline"), CodeLine(1, "+newline")]
  {
    TwoLineHeader();
    RenameBody();
    RenameWith(HeaderOf, HeaderText("1", ",", "2", "1", ",", "2"));
  }

  // ---------------------------------------------------------------------
  // Hunks with context lines

  /** One context line, one deleted and two added lines: the deleted line
      is the original line after the context line, the added lines the two
      new lines after it. */
  lemma EditHunkWith(header: string -> Option<Hunk>, hd: string, o: nat, n: nat, c: string, d: string, a1: string, a2: string)
    requires header(hd) == Some(Hunk(o, n, 3))
    requires header(c).None? && header(d).None? && header(a1).None? && header(a2).None?
    requires c != [] && c[0] == ' ' && d != [] && d[0] == '-'
    requires a1 != [] && a1[0] == '+' && a2 != [] && a2[0] == '+'
    requires 1 <= o + 1 <= 10 && 1 <= n + 1 && n + 2 <= 10
    ensures Scan(header, [hd, c, d, a1, a2], 1, 10) == [CodeLine(o + 1, d), CodeLine(n + 1, a1), CodeLine(n + 2, a2)]
  {
    var h := Hunk(o, n, 3);
    var r3: seq<string> := [a2];
    var r2 := [a1] + r3;
    var r1 := [d] + r2;
    var body := [c] + r1;
    calc {
      Scan(header, [hd, c, d, a1, a2], 1, 10);
      { assert [hd, c, d, a1, a2] == [hd] + body; }
      Scan(header, [hd] + body, 1, 10);
      { ScanAtHunk(header, hd, body, h, 1, 10); }
      Body(header, body, h, Counts(0, 0, 0), 1, 10);
      { ContextStep(header, c, r1, h, Counts(0, 0, 0)); }
      Body(header, r1, h, Counts(0, 0, 1), 1, 10);
      { DeletedStep(header, d, r2, h, Counts(0, 0, 1), o + 1); }
      [CodeLine(o + 1, d)] + Body(header, r2, h, Counts(0, 1, 1), 1, 10);
      { AddedStep(header, a1, r3, h, Counts(0, 1, 1), n + 1); }
      [CodeLine(o + 1, d)] + ([CodeLine(n + 1, a1)] + Body(header, r3, h, Counts(1, 1, 1), 1, 10));
      { assert r3 == [a2] + [];
        AddedStep(header, a2, [], h, Counts(1, 1, 1), n + 2); }
      [CodeLine(o + 1, d)] + ([CodeLine(n + 1, a1)] + ([CodeLine(n + 2, a2)] + Body(header, [], h, Counts(2, 1, 1), 1, 10)));
      [CodeLine(o + 1, d), CodeLine(n + 1, a1), CodeLine(n + 2, a2)];
    }
  }

  lemma MultipleHunksWith(header: string -> Option<Hunk>, hd1: string, c1: string, d2: string, a2: string, a3: string,
                          hd2: string, c5: string, d6: string, a6: string, a7: string)
    requires header(hd1) == Some(Hunk(1, 1, 3)) && header(hd2) == Some(Hunk(5, 6, 3))
    requires Plain(header, c1, ' ') && Plain(header, d2, '-') && Plain(header, a2, '+') && Plain(header, a3, '+')
    requires Plain(header, c5, ' ') && Plain(header, d6, '-') && Plain(header, a6, '+') && Plain(header, a7, '+')
    ensures Scan(header, [hd1, c1, d2, a2, a3, hd2, c5, d6, a6, a7], 1, 10)
            == [CodeLine(2, d2), CodeLine(2, a2), CodeLine(3, a3), CodeLine(6, d6), CodeLine(7, a6), CodeLine(8, a7)]
  {
    var l1 := [hd1, c1, d2, a2, a3];
    var l2 := [hd2, c5, d6, a6, a7];
    assert l1 + l2 == [hd1, c1, d2, a2, a3, hd2, c5, d6, a6, a7];
    ScanAppend(header, l1, l2, 1, 10);
    EditHunkWith(header, hd1, 1, 1, c1, d2, a2, a3);
    EditHunkWith(header, hd2, 5, 6, c5, d6, a6, a7);
  }

  /** Two such hunks, `@@ -1,2 +1,3 @@` and `@@ -5,2 +6,3 @@`: the second
      hunk's counts start again from zero, giving lines 2, 2, 3 and 6, 7, 8. */
  lemma MultipleHunks()
    ensures Scan(HeaderOf, [HeaderText("1", ",", "2", "1", ",", "3"), " line1", "-line2", "+line2_modified", "+line3",
                            HeaderText("5", ",", "2", "6", ",", "3"), " line5", "-line6", "+line6_modified", "+line7"], 1, 10)
            == [CodeLine(2, "-line2"), CodeLine(2, "+line2_modified"), CodeLine(3, "+line3"),
                CodeLine(6, "-line6"), CodeLine(7, "+line6_modified"), CodeLine(8, "+line7")]
  {
    FirstEditHeader();
    SecondEditHeader();
    FirstEditBody();
    SecondEditBody();
    MultipleHunksWith(HeaderOf, HeaderText("1", ",", "2", "1", ",", "3"), " line1", "-line2", "+line2_modified", "+line3",
                      HeaderText("5", ",", "2", "6", ",", "3"), " line5", "-line6", "+line6_modified", "+line7");
  }

  /** `@@ -1,2 +1,2 @@` over two context lines reports nothing. */
  lemma ContextLinesOnly()
    ensures Scan(HeaderOf, [HeaderText("1", ",", "2", "1", ",", "2"), " line1", " line2"], 1, 10) == []
  {
    var lines := [HeaderText("1", ",", "2", "1", ",", "2"), " line1", " line2"];
    assert lines[0][0] == '@';
    NothingToReport(HeaderOf, lines, 1, 10);
  }

  lemma EndOfFileTail(header: string -> Option<Hunk>)
    requires header("+line2_modified").None? && header(EndOfFileMarker).None?
    ensures Body(header, ["+line2_modified", EndOfFileMarker], Hunk(1, 1, 2), Counts(0, 1, 1), 1, 10)
            == [CodeLine(2, "+line2_modified")]
  {
    var h := Hunk(1, 1, 2);
    var m: seq<string> := [EndOfFileMarker];
    assert m[0] == EndOfFileMarker && m[1..] == [];
    BodyStep(header, m, h, Counts(1, 1, 1), 1, 10);
    assert ["+line2_modified", EndOfFileMarker] == ["+line2_modified"] + m;
    AddedStep(header, "+line2_modified", m, h, Counts(0, 1, 1), 2);
  }

  /** A context line, a deleted and an added line, then the end-of-file
      marker, which is passed over. */
  lemma EndOfFileWith(header: string -> Option<Hunk>, hd: string)
    requires header(hd) == Some(Hunk(1, 1, 2))
    requires header(" line1").None? && header("-line2").None? && header("+line2_modified").None?
    requires header(EndOfFileMarker).None?
    ensures Scan(header, [hd, " line1", "-line2", "+line2_modified", EndOfFileMarker], 1, 10)
            == [CodeLine(2, "-line2"), CodeLine(2, "+line2_modified")]
  {
    var h := Hunk(1, 1, 2);
    var r3 := ["+line2_modified", EndOfFileMarker];
    var r2 := ["-line2"] + r3;
    var r1 := [" line1"] + r2;
    var all := [hd, " line1", "-line2", "+line2_modified", EndOfFileMarker];
    calc {
      Scan(header, all, 1, 10);
      { assert all == [hd] + r1; }
      Scan(header, [hd] + r1, 1, 10);
      { ScanAtHunk(header, hd, r1, h, 1, 10); }
      Body(header, r1, h, Counts(0, 0, 0), 1, 10);
      { ContextStep(header, " line1", r2, h, Counts(0, 0, 0)); }
      Body(header, r2, h, Counts(0, 0, 1), 1, 10);
      { DeletedStep(header, "-line2", r3, h, Counts(0, 0, 1), 2); }
      [CodeLine(2, "-line2")] + Body(header, r3, h, Counts(0, 1, 1), 1, 10);
      { EndOfFileTail(header); }
      [CodeLine(2, "-line2")] + [CodeLine(2, "+line2_modified")];
    }
  }

  lemma EndOfFileMarkerCase()
    ensures Scan(HeaderOf, [HeaderText("1", ",", "2", "1", ",", "2"), " line1", "-line2", "+line2_modified", EndOfFileMarker], 1, 10)
            == [CodeLine(2, "-line2"), CodeLine(2, "+line2_modified")]
  {
    TwoLineHeader();
    EndOfFileBody();
    EndOfFileWith(HeaderOf, HeaderText("1", ",", "2", "1", ",", "2"));
  }

  /** A body line that is neither a header, an empty line nor the marker,
      and that starts with `sign`. */
  predicate Plain(header: string -> Option<Hunk>, line: string, sign: char) {
    header(line).None? && line != [] && line[0] == sign
  }

  /** A context line moves the context count on and reports nothing. */
  lemma ContextStep(header: string -> Option<Hunk>, line: string, tail: seq<string>, h: Hunk, k: Counts)
    requires Plain(header, line, ' ')
    ensures Body(header, [line] + tail, h, k, 1, 10) == Body(header, tail, h, k.(context := k.context + 1), 1, 10)
  {
    assert EndOfFileMarker[0] == '\\';
    assert ([line] + tail)[1..] == tail;
    BodyStep(header, [line] + tail, h, k, 1, 10);
  }

  /** A deleted line numbered `n` inside the window is reported with that number. */
  lemma DeletedStep(header: string -> Option<Hunk>, line: string, tail: seq<string>, h: Hunk, k: Counts, n: int)
    requires Plain(header, line, '-')
    requires n == h.originalStart + k.deleted + k.context && 1 <= n <= 10
    ensures Body(header, [line] + tail, h, k, 1, 10)
            == [CodeLine(n, line)] + Body(header, tail, h, k.(deleted := k.deleted + 1), 1, 10)
  {
    assert EndOfFileMarker[0] == '\\';
    assert !Ignored(line);
    assert LineNumber(line, h, k) == n;
    assert LineOut(line, h, k, 1, 10) == [CodeLine(n, line)];
    assert Next(line, k) == k.(deleted := k.deleted + 1);
    assert ([line] + tail)[1..] == tail && ([line] + tail)[0] == line;
    BodyStep(header, [line] + tail, h, k, 1, 10);
  }

  /** An added line numbered `n` inside the window is reported with that number. */
  lemma AddedStep(header: string -> Option<Hunk>, line: string, tail: seq<string>, h: Hunk, k: Counts, n: int)
    requires Plain(header, line, '+')
    requires n == h.newStart + k.added + k.context && 1 <= n <= 10
    ensures Body(header, [line] + tail, h, k, 1, 10)
            == [CodeLine(n, line)] + Body(header, tail, h, k.(added := k.added + 1), 1, 10)
  {
    assert EndOfFileMarker[0] == '\\';
    assert !Ignored(line);
    assert LineNumber(line, h, k) == n;
    assert LineOut(line, h, k, 1, 10) == [CodeLine(n, line)];
    assert Next(line, k) == k.(added := k.added + 1);
    assert ([line] + tail)[1..] == tail && ([line] + tail)[0] == line;
    BodyStep(header, [line] + tail, h, k, 1, 10);
  }

  /** Trailing context lines add nothing. */
  lemma InterleavedEnd(header: string -> Option<Hunk>, c8: string, c9: string)
    requires Plain(header, c8, ' ') && Plain(header, c9, ' ')
    ensures Body(header, [c8, c9], Hunk(3, 3, 7), Counts(2, 2, 3), 1, 10) == []
  {
    var h := Hunk(3, 3, 7);
    assert [c8, c9] == [c8] + [c9] && [c9] == [c9] + [];
    ContextStep(header, c8, [c9], h, Counts(2, 2, 3));
    ContextStep(header, c9, [], h, Counts(2, 2, 4));
  }

  /** The second pair, after three context lines, one deleted and one added line. */
  lemma InterleavedSecondPair(header: string -> Option<Hunk>, d7: string, a7: string, c8: string, c9: string)
    requires Plain(header, d7, '-') && Plain(header, a7, '+')
    requires Plain(header, c8, ' ') && Plain(header, c9, ' ')
    ensures Body(header, [d7, a7, c8, c9], Hunk(3, 3, 7), Counts(1, 1, 3), 1, 10)
            == [CodeLine(7, d7), CodeLine(7, a7)]
  {
    var h := Hunk(3, 3, 7);
    var r3 := [c8, c9];
    var r2 := [a7] + r3;
    calc {
      Body(header, [d7, a7, c8, c9], h, Counts(1, 1, 3), 1, 10);
      { assert [d7, a7, c8, c9] == [d7] + r2; }
      Body(header, [d7] + r2, h, Counts(1, 1, 3), 1, 10);
      { DeletedStep(header, d7, r2, h, Counts(1, 1, 3), 7); }
      [CodeLine(7, d7)] + Body(header, r2, h, Counts(1, 2, 3), 1, 10);
      { AddedStep(header, a7, r3, h, Counts(1, 2, 3), 7); }
      [CodeLine(7, d7)] + ([CodeLine(7, a7)] + Body(header, r3, h, Counts(2, 2, 3), 1, 10));
      { InterleavedEnd(header, c8, c9); }
      [CodeLine(7, d7)] + ([CodeLine(7, a7)] + []);
      [CodeLine(7, d7), CodeLine(7, a7)];
    }
  }

  /** The first pair, after two context lines, then a context line. */
  lemma InterleavedFirstPair(header: string -> Option<Hunk>, d5: string, a5: string, c6: string,
                             d7: string, a7: string, c8: string, c9: string)
    requires Plain(header, d5, '-') && Plain(header, a5, '+') && Plain(header, c6, ' ')
    requires Plain(header, d7, '-') && Plain(header, a7, '+')
    requires Plain(header, c8, ' ') && Plain(header, c9, ' ')
    ensures Body(header, [d5, a5, c6, d7, a7, c8, c9], Hunk(3, 3, 7), Counts(0, 0, 2), 1, 10)
            == [CodeLine(5, d5), CodeLine(5, a5), CodeLine(7, d7), CodeLine(7, a7)]
  {
    var h := Hunk(3, 3, 7);
    var r4 := [d7, a7, c8, c9];
    var r3 := [c6] + r4;
    var r2 := [a5] + r3;
    calc {
      Body(header, [d5, a5, c6, d7, a7, c8, c9], h, Counts(0, 0, 2), 1, 10);
      { assert [d5, a5, c6, d7, a7, c8, c9] == [d5] + r2; }
      Body(header, [d5] + r2, h, Counts(0, 0, 2), 1, 10);
      { DeletedStep(header, d5, r2, h, Counts(0, 0, 2), 5); }
      [CodeLine(5, d5)] + Body(header, r2, h, Counts(0, 1, 2), 1, 10);
      { AddedStep(header, a5, r3, h, Counts(0, 1, 2), 5); }
      [CodeLine(5, d5)] + ([CodeLine(5, a5)] + Body(header, r3, h, Counts(1, 1, 2), 1, 10));
      { ContextStep(header, c6, r4, h, Counts(1, 1, 2)); }
      [CodeLine(5, d5)] + ([CodeLine(5, a5)] + Body(header, r4, h, Counts(1, 1, 3), 1, 10));
      { InterleavedSecondPair(header, d7, a7, c8, c9); }
      [CodeLine(5, d5)] + ([CodeLine(5, a5)] + [CodeLine(7, d7), CodeLine(7, a7)]);
      [CodeLine(5, d5), CodeLine(5, a5), CodeLine(7, d7), CodeLine(7, a7)];
    }
  }

  lemma InterleavedWith(header: string -> Option<Hunk>, hd: string, c3: string, c4: string, d5: string, a5: string,
                        c6: string, d7: string, a7: string, c8: string, c9: string)
    requires header(hd) == Some(Hunk(3, 3, 7))
    requires Plain(header, c3, ' ') && Plain(header, c4, ' ')
    requires Plain(header, d5, '-') && Plain(header, a5, '+') && Plain(header, c6, ' ')
    requires Plain(header, d7, '-') && Plain(header, a7, '+')
    requires Plain(header, c8, ' ') && Plain(header, c9, ' ')
    ensures Scan(header, [hd, c3, c4, d5, a5, c6, d7, a7, c8, c9], 1, 10)
            == [CodeLine(5, d5), CodeLine(5, a5), CodeLine(7, d7), CodeLine(7, a7)]
  {
    var h := Hunk(3, 3, 7);
    var r3 := [d5, a5, c6, d7, a7, c8, c9];
    var r2 := [c4] + r3;
    var r1 := [c3] + r2;
    var all := [hd, c3, c4, d5, a5, c6, d7, a7, c8, c9];
    calc {
      Scan(header, all, 1, 10);
      { assert all == [hd] + r1; }
      Scan(header, [hd] + r1, 1, 10);
      { ScanAtHunk(header, hd, r1, h, 1, 10); }
      Body(header, r1, h, Counts(0, 0, 0), 1, 10);
      { ContextStep(header, c3, r2, h, Counts(0, 0, 0)); }
      Body(header, r2, h, Counts(0, 0, 1), 1, 10);
      { ContextStep(header, c4, r3, h, Counts(0, 0, 1)); }
      Body(header, r3, h, Counts(0, 0, 2), 1, 10);
      { InterleavedFirstPair(header, d5, a5, c6, d7, a7, c8, c9); }
      [CodeLine(5, d5), CodeLine(5, a5), CodeLine(7, d7), CodeLine(7, a7)];
    }
  }

  /** `@@ -3,7 +3,7 @@` with changes in the middle: the deleted and added
      lines of each pair share a number, 5 and then 7. */
  lemma Interleaved()
    ensures Scan(HeaderOf, [HeaderText("3", ",", "7", "3", ",", "7"), " line3", " line4", "-line5", "+line5_changed",
                            " line6", "-line7", "+line7_changed", " line8", " line9"], 1, 10)
            == [CodeLine(5, "-line5"), CodeLine(5, "+line5_changed"), CodeLine(7, "-line7"), CodeLine(7, "+line7_changed")]
  {
    InterleavedHeader();
    InterleavedBody();
    InterleavedWith(HeaderOf, HeaderText("3", ",", "7", "3", ",", "7"), " line3", " line4", "-line5", "+line5_changed",
                    " line6", "-line7", "+line7_changed", " line8", " line9");
  }

  lemma ZeroLengthWith(header: string -> Option<Hunk>, hd: string)
    requires header(hd) == Some(Hunk(10, 11, 0))
    ensures Scan(header, [hd], 1, 10) == []
  {
    assert [hd][1..] == [];
  }

  /** `@@ -10,0 +11,0 @@` with no body reports nothing. */
  lemma ZeroLengthHunk()
    ensures Scan(HeaderOf, [HeaderText("10", ",", "0", "11", ",", "0")], 1, 10) == []
  {
    ZeroLengthHeader();
    ZeroLengthWith(HeaderOf, HeaderText("10", ",", "0", "11", ",", "0"));
  }
}
