/** The Markdown security report (internal/securitycheck/render.go): a table whose rows can
    be read back, whatever pipes, backslashes and newlines the findings contain. Table rows
    are read as in section 4.10 of the GitHub Flavored Markdown specification: a pipe after
    a backslash does not end a cell. A carriage return also ends a line there (section 2.1)
    and is not escaped, so a row stays whole exactly when no finding contains one. */
module MarkdownReport {
  import opened Base

  datatype Check = Check(
    status: string, severity: string, category: string, id: string, message: string, remediation: string)

  function Texts(c: Check): seq<string> {
    [c.status, c.severity, c.category, c.id, c.message, c.remediation]
  }

  // ---- Writing ----------------------------------------------------------------------

  /** strings.ReplaceAll for a one-character pattern. */
  function ReplaceAll(s: string, pattern: char, replacement: string): string {
    if s == "" then ""
    else (if s[0] == pattern then replacement else [s[0]]) + ReplaceAll(s[1..], pattern, replacement)
  }

  function EscapeMD(value: string): string {
    ReplaceAll(ReplaceAll(value, '|', "\\|"), '\n', " ")
  }

  /** The line of one check, without the newline. */
  function Row(c: Check): string {
    "| " + (EscapeMD(c.status) + (" | " + (EscapeMD(c.severity) + (" | " + (EscapeMD(c.category) + (" | `" +
    (EscapeMD(c.id) + ("` | " + (EscapeMD(c.message) + (" | " + (EscapeMD(c.remediation) + " |")))))))))))
  }

  function Rows(checks: seq<Check>): seq<string> {
    if checks == [] then [] else Rows(checks[..|checks| - 1]) + [Row(checks[|checks| - 1])]
  }

  function Heading(): seq<string> {
    ["# IronRoot Security Check Report", "", "## Summary", ""]
  }

  function Counts(passed: string, warnings: string, failed: string, skipped: string): seq<string> {
    ["- Passed: " + passed, "- Warnings: " + warnings, "- Failed: " + failed, "- Skipped: " + skipped, ""]
  }

  function TableHead(): seq<string> {
    ["## Checks", "", "| Status | Severity | Category " + "| ID | Message | Remediation |",
     "| --- | --- | --- | --- | --- | --- |"]
  }

  /** The lines before the first row; the counts come as decimal text. */
  function Preamble(passed: string, warnings: string, failed: string, skipped: string): seq<string> {
    Heading() + Counts(passed, warnings, failed, skipped) + TableHead()
  }

  ghost predicate Plain(lines: seq<string>) {
    forall k :: 0 <= k < |lines| ==> '\n' !in lines[k]
  }

  lemma HeadingIsPlain()
    ensures Plain(Heading())
  {
  }

  lemma TableHeadIsPlain()
    ensures Plain(TableHead())
  {
    assert '\n' !in "| Status | Severity | Category " && '\n' !in "| ID | Message | Remediation |";
  }

  lemma PreambleIsPlain(passed: string, warnings: string, failed: string, skipped: string)
    requires '\n' !in passed && '\n' !in warnings && '\n' !in failed && '\n' !in skipped
    ensures Plain(Preamble(passed, warnings, failed, skipped))
  {
    HeadingIsPlain();
    TableHeadIsPlain();
  }

  /** RenderMarkdown: the buffer's content. */
  method RenderMarkdown(passed: string, warnings: string, failed: string, skipped: string, checks: seq<Check>)
    returns (b: string)
    requires '\n' !in passed && '\n' !in warnings && '\n' !in failed && '\n' !in skipped
    ensures Fields(b, '\n') == Preamble(passed, warnings, failed, skipped) + Rows(checks) + [""]
    ensures ShowsCounts(Fields(b, '\n'), passed, warnings, failed, skipped)
    ensures ShowsChecks(Fields(b, '\n'), checks)
  {
    var lines := Preamble(passed, warnings, failed, skipped);
    PreambleIsPlain(passed, warnings, failed, skipped);
    b := "";
    var k := 0;
    while k < |lines|
      invariant 0 <= k <= |lines|
      invariant Fields(b, '\n') == lines[..k] + [""]
    {
      AppendLine(b, lines[..k], lines[k]);
      assert lines[..k + 1] == lines[..k] + [lines[k]];
      b := b + lines[k] + "\n";
      k := k + 1;
    }
    assert lines[..k] == lines && Rows(checks[..0]) == [];
    var i := 0;
    while i < |checks|
      invariant 0 <= i <= |checks|
      invariant Fields(b, '\n') == lines + Rows(checks[..i]) + [""]
    {
      var row := Row(checks[i]);
      RowIsOneLine(checks[i]);
      AppendLine(b, lines + Rows(checks[..i]), row);
      assert checks[..i + 1][..i] == checks[..i];
      assert lines + Rows(checks[..i + 1]) == lines + Rows(checks[..i]) + [row];
      b := b + row + "\n";
      i := i + 1;
    }
    assert checks[..i] == checks;
    CountsReadBack(passed, warnings, failed, skipped, Rows(checks) + [""]);
    assert lines + Rows(checks) + [""] == lines + (Rows(checks) + [""]);
    ChecksReadBack(lines, checks);
  }

  /** The fifth to eighth line are the four labels, each followed by its number. */
  ghost predicate ShowsCounts(
    lines: seq<string>, passed: string, warnings: string, failed: string, skipped: string) {
    && |lines| > 7
    && lines[4] == "- Passed: " + passed && lines[5] == "- Warnings: " + warnings
    && lines[6] == "- Failed: " + failed && lines[7] == "- Skipped: " + skipped
  }

  lemma CountsReadBack(passed: string, warnings: string, failed: string, skipped: string, rest: seq<string>)
    ensures ShowsCounts(Preamble(passed, warnings, failed, skipped) + rest, passed, warnings, failed, skipped)
  {
  }

  /** The row of one check reads back as its six texts, each in its column. */
  ghost predicate ReadsAs(row: string, c: Check) {
    ReadRow(row) == Some([OneLine(c.status), OneLine(c.severity), OneLine(c.category), OneLine(c.id),
                          OneLine(c.message), OneLine(c.remediation)])
  }

  /** After thirteen lines there is one row per check, in order, and an empty line ends it. */
  ghost predicate ShowsChecks(lines: seq<string>, checks: seq<Check>) {
    && |lines| == 14 + |checks| && lines[|lines| - 1] == ""
    && forall k :: 0 <= k < |checks| ==> ReadsAs(lines[13 + k], checks[k])
  }

  lemma {:induction false} ChecksReadBack(preamble: seq<string>, checks: seq<Check>)
    requires |preamble| == 13
    ensures ShowsChecks(preamble + Rows(checks) + [""], checks)
  {
    OneRowPerCheck(checks);
    forall k | 0 <= k < |checks| ensures ReadsAs(Row(checks[k]), checks[k]) {
      RowShowsCheck(checks[k]);
    }
  }

  lemma {:induction false} AppendLine(b: string, lines: seq<string>, line: string)
    requires Fields(b, '\n') == lines + [""] && '\n' !in line
    ensures Fields(b + line + "\n", '\n') == lines + [line] + [""]
  {
    FieldsJoinBack(b, '\n');
    var all := lines + [line] + [""];
    assert forall x :: x in lines ==> x in Fields(b, '\n');
    JoinExtended(lines, line);
    FieldsOfJoin(all, '\n');
  }

  lemma {:induction false} JoinExtended(lines: seq<string>, line: string)
    ensures Join(lines + [line] + [""], "\n") == Join(lines + [""], "\n") + line + "\n"
  {
    if lines == [] {
      assert [line, ""][1..] == [""];
    } else {
      JoinExtended(lines[1..], line);
      assert (lines + [line] + [""])[1..] == lines[1..] + [line] + [""];
      assert (lines + [""])[1..] == lines[1..] + [""];
    }
  }

  lemma {:induction false} NoNewlineAfterReplace(s: string)
    ensures '\n' !in ReplaceAll(s, '\n', " ")
  {
    if s != "" {
      NoNewlineAfterReplace(s[1..]);
    }
  }

  lemma EscapedIsOneLine(text: string)
    ensures '\n' !in EscapeMD(text)
  {
    NoNewlineAfterReplace(ReplaceAll(text, '|', "\\|"));
  }

  lemma StaysOneLine(lead: string, text: string, rest: string)
    requires '\n' !in lead && '\n' !in rest
    ensures '\n' !in lead + (EscapeMD(text) + rest)
  {
    EscapedIsOneLine(text);
  }

  lemma RowIsOneLine(c: Check)
    ensures '\n' !in Row(c)
  {
    var r5 := " | " + (EscapeMD(c.remediation) + " |");
    var r4 := "` | " + (EscapeMD(c.message) + r5);
    var r3 := " | `" + (EscapeMD(c.id) + r4);
    var r2 := " | " + (EscapeMD(c.category) + r3);
    var r1 := " | " + (EscapeMD(c.severity) + r2);
    StaysOneLine(" | ", c.remediation, " |");
    StaysOneLine("` | ", c.message, r5);
    StaysOneLine(" | `", c.id, r4);
    StaysOneLine(" | ", c.category, r3);
    StaysOneLine(" | ", c.severity, r2);
    StaysOneLine("| ", c.status, r1);
  }

  // ---- Carriage returns ---------------------------------------------------------------

  /** The lines of a text: a newline, a carriage return, or both in this order end one. */
  function GfmLines(s: string): (r: seq<string>)
    ensures |r| > 0
  {
    if s == "" then [""]
    else if |s| >= 2 && s[0] == '\r' && s[1] == '\n' then [""] + GfmLines(s[2..])
    else if s[0] == '\n' || s[0] == '\r' then [""] + GfmLines(s[1..])
    else
      var rest := GfmLines(s[1..]);
      [[s[0]] + rest[0]] + rest[1..]
  }

  lemma {:induction false} OneGfmLineIff(s: string)
    ensures |GfmLines(s)| == 1 <==> '\n' !in s && '\r' !in s
  {
    if s != "" {
      assert s == [s[0]] + s[1..];
      if s[0] != '\n' && s[0] != '\r' {
        OneGfmLineIff(s[1..]);
      }
    }
  }

  lemma {:induction false} ReplaceKeepsReturns(s: string, pattern: char, replacement: string)
    requires pattern != '\r' && '\r' !in replacement
    ensures '\r' in ReplaceAll(s, pattern, replacement) <==> '\r' in s
  {
    if s != "" {
      assert s == [s[0]] + s[1..];
      ReplaceKeepsReturns(s[1..], pattern, replacement);
    }
  }

  lemma CellReturnsIff(lead: string, text: string, rest: string)
    requires '\r' !in lead
    ensures '\r' in lead + (EscapeMD(text) + rest) <==> '\r' in text || '\r' in rest
  {
    var bars := ReplaceAll(text, '|', "\\|");
    ReplaceKeepsReturns(text, '|', "\\|");
    ReplaceKeepsReturns(bars, '\n', " ");
  }

  lemma RowReturnsIff(c: Check)
    ensures '\r' in Row(c) <==> exists k :: 0 <= k < 6 && '\r' in Texts(c)[k]
  {
    var r5 := " | " + (EscapeMD(c.remediation) + " |");
    var r4 := "` | " + (EscapeMD(c.message) + r5);
    var r3 := " | `" + (EscapeMD(c.id) + r4);
    var r2 := " | " + (EscapeMD(c.category) + r3);
    var r1 := " | " + (EscapeMD(c.severity) + r2);
    CellReturnsIff(" | ", c.remediation, " |");
    CellReturnsIff("` | ", c.message, r5);
    CellReturnsIff(" | `", c.id, r4);
    CellReturnsIff(" | ", c.category, r3);
    CellReturnsIff(" | ", c.severity, r2);
    CellReturnsIff("| ", c.status, r1);
    SixTexts(c);
  }

  lemma SixTexts(c: Check)
    ensures (exists k :: 0 <= k < 6 && '\r' in Texts(c)[k]) <==>
            '\r' in c.status || '\r' in c.severity || '\r' in c.category || '\r' in c.id || '\r' in c.message ||
              '\r' in c.remediation
  {
    var t := Texts(c);
    assert t[0] == c.status && t[1] == c.severity && t[2] == c.category;
    assert t[3] == c.id && t[4] == c.message && t[5] == c.remediation;
  }

  /** A check's row is one line of the table exactly when no text of it contains a carriage
      return. */
  lemma RowIsOneGfmLineIff(c: Check)
    ensures |GfmLines(Row(c))| == 1 <==> forall k :: 0 <= k < 6 ==> '\r' !in Texts(c)[k]
  {
    OneGfmLineIff(Row(c));
    RowIsOneLine(c);
    RowReturnsIff(c);
  }

  /** A message with a carriage return breaks its row. */
  lemma ReturnBreaksRow() returns (c: Check)
    ensures |GfmLines(Row(c))| > 1
  {
    c := Check("pass", "low", "host", "host.runtime", "one\rtwo", "");
    assert c.message[3] == '\r' && Texts(c)[4] == c.message;
    RowIsOneGfmLineIff(c);
  }

  // ---- Reading ----------------------------------------------------------------------

  /** The pieces of a row between pipes that no backslash precedes; `escaped` says whether
      a backslash came before s. */
  function Pieces(s: string, escaped: bool): (r: seq<string>)
    ensures |r| > 0
  {
    if s == "" then [""]
    else
      var rest := Pieces(s[1..], s[0] == '\\');
      if s[0] == '|' && !escaped then [""] + rest
      else [[s[0]] + rest[0]] + rest[1..]
  }

  /** Every backslash before a pipe is taken away. */
  function Unescape(s: string): string {
    if |s| >= 2 && s[0] == '\\' && s[1] == '|' then "|" + Unescape(s[2..])
    else if s == "" then ""
    else [s[0]] + Unescape(s[1..])
  }

  /** What surrounds the text in column k. */
  function Pad(k: nat): string {
    if k == 3 then "`" else ""
  }

  function Cell(k: nat, text: string): string {
    " " + Pad(k) + EscapeMD(text) + Pad(k) + " "
  }

  function Stripped(k: nat, cell: string): Option<string> {
    var n := 1 + |Pad(k)|;
    if |cell| >= 2 * n && cell[..n] == " " + Pad(k) && cell[|cell| - n..] == Pad(k) + " "
    then Some(cell[n..|cell| - n]) else None
  }

  /** Reads the cells from column k on, up to the empty piece after the last pipe. */
  function ReadCells(pieces: seq<string>, k: nat): Option<seq<string>> {
    if pieces == [] then None
    else if |pieces| == 1 then if pieces[0] == "" then Some([]) else None
    else
      var cell, rest := Stripped(k, pieces[0]), ReadCells(pieces[1..], k + 1);
      if cell.None? || rest.None? then None else Some([Unescape(cell.value)] + rest.value)
  }

  /** The texts of a row; the first pipe must start it. */
  function ReadRow(row: string): Option<seq<string>> {
    var pieces := Pieces(row, false);
    if pieces[0] != "" then None else ReadCells(pieces[1..], 0)
  }

  /** Newlines turned to spaces. */
  function OneLine(s: string): string {
    ReplaceAll(s, '\n', " ")
  }

  lemma {:induction false} OneLineIs(s: string)
    ensures |OneLine(s)| == |s|
    ensures forall i :: 0 <= i < |s| ==> OneLine(s)[i] == if s[i] == '\n' then ' ' else s[i]
  {
    if s != "" {
      OneLineIs(s[1..]);
    }
  }

  function OneLines(texts: seq<string>): seq<string> {
    if texts == [] then [] else [OneLine(texts[0])] + OneLines(texts[1..])
  }

  lemma {:induction false} OneLinesAt(texts: seq<string>, k: nat)
    ensures |OneLines(texts)| == |texts| && (k < |texts| ==> OneLines(texts)[k] == OneLine(texts[k]))
  {
    if texts != [] {
      OneLinesAt(texts[1..], if k == 0 then 0 else k - 1);
    }
  }

  lemma OneLinesAre(c: Check)
    ensures OneLines(Texts(c)) == [OneLine(c.status), OneLine(c.severity), OneLine(c.category), OneLine(c.id),
                                   OneLine(c.message), OneLine(c.remediation)]
  {
    forall k: nat | k < 6 ensures |OneLines(Texts(c))| == 6 && OneLines(Texts(c))[k] == OneLine(Texts(c)[k]) {
      OneLinesAt(Texts(c), k);
    }
  }

  // ---- Reading undoes writing ---------------------------------------------------------

  lemma {:induction false} EscapeStep(s: string)
    requires s != ""
    ensures EscapeMD(s) == (if s[0] == '|' then "\\|" else if s[0] == '\n' then " " else [s[0]]) + EscapeMD(s[1..])
  {
    var rest := ReplaceAll(s[1..], '|', "\\|");
    if s[0] == '|' {
      var t, u := "\\|" + rest, "|" + rest;
      assert t[1..] == u && u[1..] == rest;
      assert ReplaceAll(t, '\n', " ") == "\\" + ReplaceAll(u, '\n', " ");
      assert "\\" + ("|" + EscapeMD(s[1..])) == "\\|" + EscapeMD(s[1..]);
    } else {
      assert ([s[0]] + rest)[1..] == rest;
    }
  }

  lemma {:induction false} UnescapeUndoesEscape(s: string)
    ensures Unescape(EscapeMD(s)) == OneLine(s)
  {
    if s != "" {
      var rest := EscapeMD(s[1..]);
      EscapeStep(s);
      UnescapeUndoesEscape(s[1..]);
      if s[0] == '|' {
        assert EscapeMD(s)[2..] == rest;
      } else {
        EscapeStartsPlain(s[1..]);
        assert EscapeMD(s)[1..] == rest;
      }
    }
  }

  /** Escaped text never starts with a pipe. */
  lemma EscapeStartsPlain(s: string)
    ensures EscapeMD(s) == "" || EscapeMD(s)[0] != '|'
  {
    if s != "" {
      EscapeStep(s);
    }
  }

  /** A pipe directly after x ends a piece, and no pipe inside x does. */
  predicate Sealed(x: string, escaped: bool) {
    if x == "" then !escaped
    else !(x[0] == '|' && !escaped) && Sealed(x[1..], x[0] == '\\')
  }

  lemma {:induction false} PiecesOfSealed(x: string, escaped: bool, tail: string)
    requires Sealed(x, escaped)
    ensures Pieces(x + "|" + tail, escaped) == [x] + Pieces(tail, false)
  {
    var s := x + "|" + tail;
    if x == "" {
      assert s[1..] == tail;
    } else {
      PiecesOfSealed(x[1..], x[0] == '\\', tail);
      assert s[1..] == x[1..] + "|" + tail;
      assert [x[0]] + x[1..] == x;
    }
  }

  lemma {:induction false} EscapedIsSealed(s: string, after: string, escaped: bool)
    requires after != "" && after[0] != '|' && after[0] != '\\' && Sealed(after[1..], false)
    ensures Sealed(EscapeMD(s) + after, escaped)
  {
    if s == "" {
      assert EscapeMD(s) + after == after;
    } else {
      EscapeStep(s);
      var rest := EscapeMD(s[1..]) + after;
      var t := EscapeMD(s) + after;
      if s[0] == '|' {
        EscapedIsSealed(s[1..], after, false);
        assert t[1..] == "|" + rest && t[1..][1..] == rest;
      } else {
        EscapedIsSealed(s[1..], after, s[0] == '\\');
        assert t[1..] == rest;
      }
    }
  }

  lemma CellIsSealed(k: nat, text: string)
    ensures Sealed(Cell(k, text), false)
  {
    var after := Pad(k) + " ";
    assert Sealed(" "[1..], false) && after[|after| - 1..] == " ";
    if k == 3 {
      assert after[1..] == " ";
    }
    EscapedIsSealed(text, after, false);
    var inner := EscapeMD(text) + after;
    if k == 3 {
      assert Cell(k, text)[1..] == "`" + inner && ("`" + inner)[1..] == inner;
    } else {
      assert Cell(k, text)[1..] == inner;
    }
  }

  /** The rest of a row from column k on. */
  function RowFrom(texts: seq<string>, k: nat): string {
    if texts == [] then "" else Cell(k, texts[0]) + "|" + RowFrom(texts[1..], k + 1)
  }

  lemma {:induction false} CellsReadBack(texts: seq<string>, k: nat)
    ensures |Pieces(RowFrom(texts, k), false)| == |texts| + 1
    ensures ReadCells(Pieces(RowFrom(texts, k), false), k) == Some(OneLines(texts))
    decreases texts
  {
    if texts != [] {
      var rest := RowFrom(texts[1..], k + 1);
      CellsReadBack(texts[1..], k + 1);
      CellIsSealed(k, texts[0]);
      PiecesOfSealed(Cell(k, texts[0]), false, rest);
      StripUndoesPad(k, texts[0]);
      UnescapeUndoesEscape(texts[0]);
    }
  }

  lemma StripUndoesPad(k: nat, text: string)
    ensures Stripped(k, Cell(k, text)) == Some(EscapeMD(text))
  {
    var cell, n := Cell(k, text), 1 + |Pad(k)|;
    assert cell[..n] == " " + Pad(k);
    assert cell[|cell| - n..] == Pad(k) + " ";
    assert cell[n..|cell| - n] == EscapeMD(text);
  }

  lemma PlainCell(k: nat, text: string, rest: string)
    requires k != 3
    ensures Cell(k, text) + "|" + (" " + rest) == " " + (EscapeMD(text) + (" | " + rest))
    ensures Cell(k, text) + "|" + (" `" + rest) == " " + (EscapeMD(text) + (" | `" + rest))
    ensures Cell(k, text) + "|" + "" == " " + (EscapeMD(text) + " |")
  {
    var e := EscapeMD(text);
    assert Cell(k, text) == " " + e + " ";
  }

  lemma CodeCell(text: string, rest: string)
    ensures Cell(3, text) + "|" + (" " + rest) == " `" + (EscapeMD(text) + ("` | " + rest))
  {
    var e := EscapeMD(text);
    assert Cell(3, text) == " `" + e + "` ";
  }

  function LastThree(t: seq<string>): string
    requires |t| == 6
  {
    EscapeMD(t[3]) + ("` | " + (EscapeMD(t[4]) + (" | " + (EscapeMD(t[5]) + " |"))))
  }

  lemma LastThreeCells(t: seq<string>)
    requires |t| == 6
    ensures RowFrom(t[3..], 3) == " `" + LastThree(t)
  {
    assert RowFrom(t[6..], 6) == "";
    var r5 := EscapeMD(t[5]) + " |";
    var r4 := EscapeMD(t[4]) + (" | " + r5);
    RowFromUnfolds(t, 5, "", " " + r5) by { PlainCell(5, t[5], ""); }
    RowFromUnfolds(t, 4, " " + r5, " " + r4) by { PlainCell(4, t[4], r5); }
    RowFromUnfolds(t, 3, " " + r4, " `" + LastThree(t)) by { CodeCell(t[3], r4); }
  }

  function LastFive(t: seq<string>): string
    requires |t| == 6
  {
    EscapeMD(t[1]) + (" | " + (EscapeMD(t[2]) + (" | `" + LastThree(t))))
  }

  lemma LastFiveCells(t: seq<string>)
    requires |t| == 6
    ensures RowFrom(t[1..], 1) == " " + LastFive(t)
  {
    var r3 := LastThree(t);
    var r2 := EscapeMD(t[2]) + (" | `" + r3);
    LastThreeCells(t);
    RowFromUnfolds(t, 2, " `" + r3, " " + r2) by { PlainCell(2, t[2], r3); }
    RowFromUnfolds(t, 1, " " + r2, " " + LastFive(t)) by { PlainCell(1, t[1], r2); }
  }

  lemma {:induction false} AllSixCells(t: seq<string>)
    requires |t| == 6
    ensures RowFrom(t, 0) == " " + (EscapeMD(t[0]) + (" | " + LastFive(t)))
  {
    var r1 := LastFive(t);
    LastFiveCells(t);
    RowFromUnfolds(t, 0, " " + r1, " " + (EscapeMD(t[0]) + (" | " + r1))) by { PlainCell(0, t[0], r1); }
    assert t[0..] == t;
  }

  lemma RowIsCells(c: Check)
    ensures Row(c) == "|" + RowFrom(Texts(c), 0)
  {
    var t := Texts(c);
    AllSixCells(t);
    assert Row(c) == "| " + (EscapeMD(t[0]) + (" | " + LastFive(t)));
  }

  lemma RowFromUnfolds(texts: seq<string>, k: nat, rest: string, row: string)
    requires k < |texts| && RowFrom(texts[k + 1..], k + 1) == rest && Cell(k, texts[k]) + "|" + rest == row
    ensures RowFrom(texts[k..], k) == row
  {
    assert texts[k..][1..] == texts[k + 1..];
  }

  /** Every check's row has exactly six cells and they read back as the check's texts, with
      newlines turned to spaces. */
  lemma RowReadsBack(c: Check)
    ensures |Pieces(Row(c), false)| == 8
    ensures ReadRow(Row(c)) == Some(OneLines(Texts(c)))
  {
    RowIsCells(c);
    CellsReadBack(Texts(c), 0);
    PiecesOfSealed("", false, RowFrom(Texts(c), 0));
    assert "" + "|" + RowFrom(Texts(c), 0) == "|" + RowFrom(Texts(c), 0);
  }

  lemma RowShowsCheck(c: Check)
    ensures ReadsAs(Row(c), c)
  {
    RowReadsBack(c);
    OneLinesAre(c);
  }

  /** The body of the table has one row per check, in order. */
  lemma {:induction false} OneRowPerCheck(checks: seq<Check>)
    ensures |Rows(checks)| == |checks|
    ensures forall i :: 0 <= i < |checks| ==> Rows(checks)[i] == Row(checks[i])
  {
    if checks != [] {
      OneRowPerCheck(checks[..|checks| - 1]);
    }
  }

  lemma SameRowSameTexts(x: Check, y: Check)
    requires Row(x) == Row(y)
    ensures OneLines(Texts(x)) == OneLines(Texts(y))
  {
    RowReadsBack(x);
    RowReadsBack(y);
  }

  /** What RenderMarkdown wrote determines every check up to newlines. */
  lemma {:induction false} ReportDeterminesChecks(xs: seq<Check>, ys: seq<Check>, i: nat)
    requires Rows(xs) == Rows(ys)
    ensures |xs| == |ys|
    ensures i < |xs| ==> OneLines(Texts(xs[i])) == OneLines(Texts(ys[i]))
  {
    OneRowPerCheck(xs);
    OneRowPerCheck(ys);
    if i < |xs| {
      var x, y := xs[i], ys[i];
      assert Row(x) == Rows(xs)[i] == Rows(ys)[i] == Row(y);
      SameRowSameTexts(x, y);
    }
  }
}
