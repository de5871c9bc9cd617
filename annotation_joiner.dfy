/**
 * The annotation joiner of scripts/GAF2GO/obo2go.py (`process_annotations`):
 * every line `gene<TAB>GO:1,GO:2,...` of a gene-to-GO list becomes one output
 * row `gene<TAB>namespace<TAB>GO id<TAB>name` per GO id the ontology index
 * knows, after a fixed header line. Unknown ids and lines with more than one
 * tab are reported on the diagnostic stream and skipped.
 */
module AnnotationJoiner {
  import opened PyStr
  import opened Seqs
  import opened OboIndexer

  /** One output row: `gene_id`, `go_type` (the namespace), `go_id`, `go_desc` (the name). */
  datatype Row = Row(geneId: string, goType: string, goId: string, goDesc: string)

  const Header: string := "GeneID\tGO_Type\tGO_ID\tGO_Description"

  /** The text line a row is written as, without its newline. */
  function RowLine(r: Row): string {
    r.geneId + "\t" + r.goType + "\t" + r.goId + "\t" + r.goDesc
  }

  /** The diagnostics the joiner prints: a line with more than one tab (with its 1-based number), an unknown GO id. */
  datatype Warning = MalformedLine(lineNo: nat, line: string) | UnknownGoId(geneId: string, goId: string)

  /** What a stretch of input contributes: rows written to the output, warnings printed. */
  datatype Report = Report(rows: seq<Row>, warnings: seq<Warning>)

  const Nothing := Report([], [])

  function Then(a: Report, b: Report): Report {
    Report(a.rows + b.rows, a.warnings + b.warnings)
  }

  lemma ThenAssoc(x: Report, y: Report, z: Report)
    ensures Then(Then(x, y), z) == Then(x, Then(y, z))
  {
    assert x.rows + y.rows + z.rows == x.rows + (y.rows + z.rows);
    assert x.warnings + y.warnings + z.warnings == x.warnings + (y.warnings + z.warnings);
  }

  lemma ThenNothing(x: Report)
    ensures Then(x, Nothing) == x && Then(Nothing, x) == x
  {
    assert x.rows + [] == x.rows && [] + x.rows == x.rows;
    assert x.warnings + [] == x.warnings && [] + x.warnings == x.warnings;
  }

  /** The row a known GO id yields for a gene. */
  function RowFor(goData: GoIndex, gene: string, goId: string): Row
    requires goId in goData
  {
    Row(gene, goData[goId].namespace, goId, goData[goId].name)
  }

  /** One comma-separated token: blank after strip is skipped, a known id is a row, an unknown one a warning. */
  function TokenReport(goData: GoIndex, gene: string, token: string): Report {
    var goId := Strip(token);
    if goId == [] then Nothing
    else if goId in goData then Report([RowFor(goData, gene, goId)], [])
    else Report([], [UnknownGoId(gene, goId)])
  }

  /** The tokens of one line's GO list, in order. */
  function TokensReport(goData: GoIndex, gene: string, tokens: seq<string>): Report
    decreases |tokens|
  {
    if tokens == [] then Nothing
    else Then(TokensReport(goData, gene, tokens[..|tokens| - 1]), TokenReport(goData, gene, tokens[|tokens| - 1]))
  }

  /** The lines the joiner passes over without a word: blank, without a tab, or starting with `[`. */
  predicate Ignored(line: string) {
    line == [] || '\t' !in line || StartsWith(line, "[")
  }

  /** One input line, numbered `lineNo` from 1. */
  function LineReport(goData: GoIndex, lineNo: nat, raw: string): Report {
    var line := Strip(raw);
    if Ignored(line) then Nothing
    else
      var fields := Split(line, '\t');
      if |fields| != 2 then Report([], [MalformedLine(lineNo, line)])
      else if fields[1] == "-" then Nothing
      else TokensReport(goData, fields[0], Split(fields[1], ','))
  }

  /** Lines numbered from `first` on. */
  function AnnotateFrom(goData: GoIndex, first: nat, lines: seq<string>): Report
    decreases |lines|
  {
    if lines == [] then Nothing
    else Then(AnnotateFrom(goData, first, lines[..|lines| - 1]),
              LineReport(goData, first + |lines| - 1, lines[|lines| - 1]))
  }

  /** What `process_annotations` writes and reports for a whole file. */
  function Annotate(goData: GoIndex, lines: seq<string>): Report {
    AnnotateFrom(goData, 1, lines)
  }

  /** The output lines of a sequence of rows. */
  function RowLines(rows: seq<Row>): seq<string>
    decreases |rows|
  {
    if rows == [] then [] else RowLines(rows[..|rows| - 1]) + [RowLine(rows[|rows| - 1])]
  }

  /** One output line per row, in the rows' order. */
  lemma {:induction false} RowLinesSpec(rows: seq<Row>)
    ensures |RowLines(rows)| == |rows|
    ensures forall k :: 0 <= k < |rows| ==> RowLines(rows)[k] == RowLine(rows[k])
    decreases |rows|
  {
    if rows != [] {
      RowLinesSpec(rows[..|rows| - 1]);
    }
  }

  lemma RowLinesSnoc(rows: seq<Row>, row: Row)
    ensures RowLines(rows + [row]) == RowLines(rows) + [RowLine(row)]
  {
    assert (rows + [row])[..|rows|] == rows;
  }

  lemma TokensSnoc(goData: GoIndex, gene: string, goIds: seq<string>, j: nat)
    requires j < |goIds|
    ensures TokensReport(goData, gene, goIds[..j + 1]) ==
            Then(TokensReport(goData, gene, goIds[..j]), TokenReport(goData, gene, goIds[j]))
  {
    assert goIds[..j + 1][..j] == goIds[..j];
  }

  lemma AnnotateSnoc(goData: GoIndex, lines: seq<string>, i: nat)
    requires i < |lines|
    ensures AnnotateFrom(goData, 1, lines[..i + 1]) ==
            Then(AnnotateFrom(goData, 1, lines[..i]), LineReport(goData, i + 1, lines[i]))
  {
    assert lines[..i + 1][..i] == lines[..i];
  }

  lemma {:induction false} RowLinesAppend(a: seq<Row>, b: seq<Row>)
    ensures RowLines(a + b) == RowLines(a) + RowLines(b)
    decreases |b|
  {
    if b == [] {
      assert a + b == a;
    } else {
      var n := |b|;
      assert (a + b)[..|a + b| - 1] == a + b[..n - 1];
      assert (a + b)[|a + b| - 1] == b[n - 1];
      RowLinesAppend(a, b[..n - 1]);
    }
  }

  /**
   * The body of the inner loop of `process_annotations` for one token of the
   * GO list: it writes the row line of a known id or warns about an unknown one.
   */
  method WriteGoId(goData: GoIndex, geneId: string, token: string,
                   out0: seq<string>, warnings0: seq<Warning>, written0: nat)
    returns (out: seq<string>, warnings: seq<Warning>, written: nat)
    ensures out == out0 + RowLines(TokenReport(goData, geneId, token).rows)
    ensures warnings == warnings0 + TokenReport(goData, geneId, token).warnings
    ensures written == written0 + |TokenReport(goData, geneId, token).rows|
  {
    out, warnings, written := out0, warnings0, written0;
    var goId := Strip(token);
    if goId == [] {
      AppendEmpty(out0);
      AppendEmpty(warnings0);
      return;
    }
    if goId in goData {
      var info := goData[goId];
      var row := Row(geneId, info.namespace, goId, info.name);
      RowLinesSnoc([], row);
      AppendEmpty(warnings0);
      out := out + [RowLine(row)];
      written := written + 1;
    } else {
      AppendEmpty(out0);
      warnings := warnings + [UnknownGoId(geneId, goId)];
    }
  }

  /**
   * The inner loop of `process_annotations` over the comma-separated GO ids of
   * one gene: it appends a row line per known id to `out` and a warning per
   * unknown id to `warnings`, and counts the rows in `written`.
   */
  method WriteGoIds(goData: GoIndex, geneId: string, goIds: seq<string>,
                    out0: seq<string>, warnings0: seq<Warning>, written0: nat)
    returns (out: seq<string>, warnings: seq<Warning>, written: nat)
    ensures out == out0 + RowLines(TokensReport(goData, geneId, goIds).rows)
    ensures warnings == warnings0 + TokensReport(goData, geneId, goIds).warnings
    ensures written == written0 + |TokensReport(goData, geneId, goIds).rows|
  {
    out, warnings, written := out0, warnings0, written0;
    ghost var rows: seq<Row> := [];
    ghost var warned: seq<Warning> := [];
    var j := 0;
    while j < |goIds|
      invariant 0 <= j <= |goIds|
      invariant TokensReport(goData, geneId, goIds[..j]) == Report(rows, warned)
      invariant out == out0 + RowLines(rows) && written == written0 + |rows|
      invariant warnings == warnings0 + warned
    {
      ghost var step := TokenReport(goData, geneId, goIds[j]);
      TokensSnoc(goData, geneId, goIds, j);
      RowLinesAppend(rows, step.rows);
      AppendAssoc(out0, RowLines(rows), RowLines(step.rows));
      AppendAssoc(warnings0, warned, step.warnings);
      out, warnings, written := WriteGoId(goData, geneId, goIds[j], out, warnings, written);
      rows, warned := rows + step.rows, warned + step.warnings;
      j := j + 1;
    }
    assert goIds[..j] == goIds;
  }

  /**
   * The body of the outer loop of `process_annotations` for line `lineNo`:
   * skip it, warn that it is malformed, or write its GO ids.
   */
  method AnnotateLine(goData: GoIndex, lineNo: nat, raw: string,
                      out0: seq<string>, warnings0: seq<Warning>, written0: nat)
    returns (out: seq<string>, warnings: seq<Warning>, written: nat)
    ensures out == out0 + RowLines(LineReport(goData, lineNo, raw).rows)
    ensures warnings == warnings0 + LineReport(goData, lineNo, raw).warnings
    ensures written == written0 + |LineReport(goData, lineNo, raw).rows|
  {
    out, warnings, written := out0, warnings0, written0;
    var line := Strip(raw);
    if line == [] || '\t' !in line || StartsWith(line, "[") {
      AppendEmpty(out0);
      AppendEmpty(warnings0);
      return;
    }
    var fields := Split(line, '\t');
    if |fields| != 2 {
      AppendEmpty(out0);
      warnings := warnings + [MalformedLine(lineNo, line)];
      return;
    }
    var geneId, goListStr := fields[0], fields[1];
    if goListStr == "-" {
      AppendEmpty(out0);
      AppendEmpty(warnings0);
      return;
    }
    out, warnings, written := WriteGoIds(goData, geneId, Split(goListStr, ','), out, warnings, written);
  }

  /**
   * `process_annotations` over an index and the lines of the gene file: the
   * output file's lines, the warnings printed, `line_count` and `written_count`.
   */
  method ProcessAnnotations(lines: seq<string>, goData: GoIndex)
    returns (out: seq<string>, warnings: seq<Warning>, lineCount: nat, writtenCount: nat)
    ensures out == [Header] + RowLines(Annotate(goData, lines).rows)
    ensures warnings == Annotate(goData, lines).warnings
    ensures lineCount == |lines|
    ensures writtenCount == |Annotate(goData, lines).rows|
  {
    out := [Header];
    warnings := [];
    lineCount := 0;
    writtenCount := 0;
    ghost var rows: seq<Row> := [];
    while lineCount < |lines|
      invariant 0 <= lineCount <= |lines|
      invariant AnnotateFrom(goData, 1, lines[..lineCount]) == Report(rows, warnings)
      invariant out == [Header] + RowLines(rows) && writtenCount == |rows|
    {
      ghost var step := LineReport(goData, lineCount + 1, lines[lineCount]);
      AnnotateSnoc(goData, lines, lineCount);
      RowLinesAppend(rows, step.rows);
      AppendAssoc([Header], RowLines(rows), RowLines(step.rows));
      out, warnings, writtenCount := AnnotateLine(goData, lineCount + 1, lines[lineCount], out, warnings, writtenCount);
      rows := rows + step.rows;
      lineCount := lineCount + 1;
    }
    assert lines[..lineCount] == lines;
  }

  // What the report says about the rows and the warnings

  /** Every row written is the index's entry for its GO id, under a non-empty id. */
  predicate Grounded(goData: GoIndex, r: Row) {
    && r.goId in goData
    && goData[r.goId] == GoInfo(r.goType, r.goDesc)
    && r.goId != []
  }

  /** Every unknown-id warning names a non-empty id the index lacks. */
  predicate Justified(goData: GoIndex, w: Warning) {
    w.UnknownGoId? ==> w.goId !in goData && w.goId != []
  }

  predicate Sound(goData: GoIndex, rep: Report) {
    && (forall k :: 0 <= k < |rep.rows| ==> Grounded(goData, rep.rows[k]))
    && (forall k :: 0 <= k < |rep.warnings| ==> Justified(goData, rep.warnings[k]))
  }

  lemma ThenSound(goData: GoIndex, a: Report, b: Report)
    requires Sound(goData, a) && Sound(goData, b)
    ensures Sound(goData, Then(a, b))
  {
    var c := Then(a, b);
    assert forall k :: |a.rows| <= k < |c.rows| ==> c.rows[k] == b.rows[k - |a.rows|];
    assert forall k :: |a.warnings| <= k < |c.warnings| ==> c.warnings[k] == b.warnings[k - |a.warnings|];
  }

  lemma TokenSound(goData: GoIndex, gene: string, token: string)
    ensures Sound(goData, TokenReport(goData, gene, token))
  {
  }

  lemma {:induction false} TokensSound(goData: GoIndex, gene: string, tokens: seq<string>)
    ensures Sound(goData, TokensReport(goData, gene, tokens))
    decreases |tokens|
  {
    if tokens != [] {
      TokensSound(goData, gene, tokens[..|tokens| - 1]);
      TokenSound(goData, gene, tokens[|tokens| - 1]);
      ThenSound(goData, TokensReport(goData, gene, tokens[..|tokens| - 1]), TokenReport(goData, gene, tokens[|tokens| - 1]));
    }
  }

  lemma LineSound(goData: GoIndex, lineNo: nat, raw: string)
    ensures Sound(goData, LineReport(goData, lineNo, raw))
  {
    var line := Strip(raw);
    if !Ignored(line) {
      var fields := Split(line, '\t');
      if |fields| == 2 && fields[1] != "-" {
        TokensSound(goData, fields[0], Split(fields[1], ','));
      }
    }
  }

  /**
   * Each row the joiner writes carries the namespace and name the index holds
   * for its GO id, and each unknown-id warning is for a non-empty id the index
   * does not hold.
   */
  lemma {:induction false} AnnotateSound(goData: GoIndex, first: nat, lines: seq<string>)
    ensures Sound(goData, AnnotateFrom(goData, first, lines))
    decreases |lines|
  {
    if lines != [] {
      AnnotateSound(goData, first, lines[..|lines| - 1]);
      LineSound(goData, first + |lines| - 1, lines[|lines| - 1]);
      ThenSound(goData, AnnotateFrom(goData, first, lines[..|lines| - 1]),
                LineReport(goData, first + |lines| - 1, lines[|lines| - 1]));
    }
  }

  /** Reading two stretches of a file is reading the first, then the second numbered on from where the first ended. */
  lemma {:induction false} AnnotateAppend(goData: GoIndex, first: nat, a: seq<string>, b: seq<string>)
    ensures AnnotateFrom(goData, first, a + b) == Then(AnnotateFrom(goData, first, a), AnnotateFrom(goData, first + |a|, b))
    decreases |b|
  {
    if b == [] {
      assert a + b == a;
      ThenNothing(AnnotateFrom(goData, first, a));
    } else {
      var n := |b|;
      assert (a + b)[..|a + b| - 1] == a + b[..n - 1];
      assert (a + b)[|a + b| - 1] == b[n - 1];
      AnnotateAppend(goData, first, a, b[..n - 1]);
      ThenAssoc(AnnotateFrom(goData, first, a), AnnotateFrom(goData, first + |a|, b[..n - 1]),
                LineReport(goData, first + |a| + n - 1, b[n - 1]));
    }
  }

  /** Rows do not depend on where a line stands in the file: the rows of `a + b` are those of `a`, then those of `b`. */
  lemma RowsAppend(goData: GoIndex, a: seq<string>, b: seq<string>)
    ensures Annotate(goData, a + b).rows == Annotate(goData, a).rows + Annotate(goData, b).rows
  {
    AnnotateAppend(goData, 1, a, b);
    RowsIgnoreNumbering(goData, 1, 1 + |a|, b);
  }

  lemma {:induction false} RowsIgnoreNumbering(goData: GoIndex, f1: nat, f2: nat, lines: seq<string>)
    ensures AnnotateFrom(goData, f1, lines).rows == AnnotateFrom(goData, f2, lines).rows
    decreases |lines|
  {
    if lines != [] {
      RowsIgnoreNumbering(goData, f1, f2, lines[..|lines| - 1]);
    }
  }

  // What one line yields

  /** Blank lines, lines without a tab and lines starting with `[` yield no row and no warning. */
  lemma IgnoredLineSilent(goData: GoIndex, lineNo: nat, raw: string)
    requires Ignored(Strip(raw))
    ensures LineReport(goData, lineNo, raw) == Nothing
  {
  }

  /** A line that is not ignored draws the malformed-line warning, and nothing else, exactly when it holds more than one tab. */
  lemma MalformedIff(goData: GoIndex, lineNo: nat, raw: string)
    requires !Ignored(Strip(raw))
    ensures Count(Strip(raw), '\t') != 1 <==>
            LineReport(goData, lineNo, raw) == Report([], [MalformedLine(lineNo, Strip(raw))])
  {
    var line := Strip(raw);
    var fields := Split(line, '\t');
    if |fields| == 2 && fields[1] != "-" {
      var rep := TokensReport(goData, fields[0], Split(fields[1], ','));
      NoOtherGene(goData, fields[0], Split(fields[1], ','));
      assert rep.warnings == [] || rep.warnings[0].UnknownGoId?;
    }
  }

  /** `gene<TAB>list` with a single tab: the tokens of the comma-split list, or nothing when the list is `-`. */
  lemma OneTabLine(goData: GoIndex, lineNo: nat, raw: string, gene: string, list: string)
    requires Strip(raw) == gene + "\t" + list && '\t' !in gene && '\t' !in list
    requires gene == [] || gene[0] != '['
    ensures list == "-" ==> LineReport(goData, lineNo, raw) == Nothing
    ensures list != "-" ==> LineReport(goData, lineNo, raw) == TokensReport(goData, gene, Split(list, ','))
  {
    var line := Strip(raw);
    assert '\t' in line by { assert line[|gene|] == '\t'; }
    assert line[0] != '[' by {
      if gene == [] {
        assert line[0] == '\t';
      } else {
        assert line[0] == gene[0];
      }
    }
    NotStartsWith(line, "[", 0);
    SplitCons(gene, '\t', list);
    SplitNoSep(list, '\t');
  }

  /** The rows of a GO list are, in order, those of its tokens whose stripped text the index knows. */
  lemma {:induction false} TokenRowsIff(goData: GoIndex, gene: string, tokens: seq<string>, r: Row)
    ensures r in TokensReport(goData, gene, tokens).rows <==>
            exists k :: 0 <= k < |tokens| && Strip(tokens[k]) in goData && Strip(tokens[k]) != [] &&
                        r == RowFor(goData, gene, Strip(tokens[k]))
    decreases |tokens|
  {
    if tokens != [] {
      var init, last := tokens[..|tokens| - 1], tokens[|tokens| - 1];
      TokenRowsIff(goData, gene, init, r);
      var rows := TokensReport(goData, gene, tokens).rows;
      assert rows == TokensReport(goData, gene, init).rows + TokenReport(goData, gene, last).rows;
      if exists k :: 0 <= k < |init| && Strip(init[k]) in goData && Strip(init[k]) != [] &&
                     r == RowFor(goData, gene, Strip(init[k])) {
        var k :| 0 <= k < |init| && Strip(init[k]) in goData && Strip(init[k]) != [] &&
                 r == RowFor(goData, gene, Strip(init[k]));
        assert tokens[k] == init[k];
      }
      if exists k :: 0 <= k < |tokens| && Strip(tokens[k]) in goData && Strip(tokens[k]) != [] &&
                     r == RowFor(goData, gene, Strip(tokens[k])) {
        var k :| 0 <= k < |tokens| && Strip(tokens[k]) in goData && Strip(tokens[k]) != [] &&
                 r == RowFor(goData, gene, Strip(tokens[k]));
        if k < |init| {
          assert init[k] == tokens[k];
        }
      }
    }
  }

  /** Unknown ids are reported, in order, for every non-blank token the index lacks. */
  lemma {:induction false} TokenWarningsIff(goData: GoIndex, gene: string, tokens: seq<string>, goId: string)
    ensures UnknownGoId(gene, goId) in TokensReport(goData, gene, tokens).warnings <==>
            exists k :: 0 <= k < |tokens| && Strip(tokens[k]) == goId && goId != [] && goId !in goData
    decreases |tokens|
  {
    if tokens != [] {
      var init, last := tokens[..|tokens| - 1], tokens[|tokens| - 1];
      TokenWarningsIff(goData, gene, init, goId);
      NoOtherGene(goData, gene, init);
      if exists k :: 0 <= k < |init| && Strip(init[k]) == goId && goId != [] && goId !in goData {
        var k :| 0 <= k < |init| && Strip(init[k]) == goId && goId != [] && goId !in goData;
        assert tokens[k] == init[k];
      }
      if exists k :: 0 <= k < |tokens| && Strip(tokens[k]) == goId && goId != [] && goId !in goData {
        var k :| 0 <= k < |tokens| && Strip(tokens[k]) == goId && goId != [] && goId !in goData;
        if k < |init| {
          assert init[k] == tokens[k];
        }
      }
    }
  }

  lemma {:induction false} NoOtherGene(goData: GoIndex, gene: string, tokens: seq<string>)
    ensures forall k :: 0 <= k < |TokensReport(goData, gene, tokens).warnings| ==>
              TokensReport(goData, gene, tokens).warnings[k].UnknownGoId? &&
              TokensReport(goData, gene, tokens).warnings[k].geneId == gene
    ensures forall k :: 0 <= k < |TokensReport(goData, gene, tokens).rows| ==>
              TokensReport(goData, gene, tokens).rows[k].geneId == gene
    decreases |tokens|
  {
    if tokens != [] {
      NoOtherGene(goData, gene, tokens[..|tokens| - 1]);
    }
  }

  /** Each non-blank token yields exactly one row or one warning: their numbers add up to the number of such tokens. */
  function NonBlank(tokens: seq<string>): nat
    decreases |tokens|
  {
    if tokens == [] then 0
    else NonBlank(tokens[..|tokens| - 1]) + (if Strip(tokens[|tokens| - 1]) == [] then 0 else 1)
  }

  lemma {:induction false} TokensAccounted(goData: GoIndex, gene: string, tokens: seq<string>)
    ensures |TokensReport(goData, gene, tokens).rows| + |TokensReport(goData, gene, tokens).warnings| == NonBlank(tokens)
    decreases |tokens|
  {
    if tokens != [] {
      TokensAccounted(goData, gene, tokens[..|tokens| - 1]);
    }
  }

  /** The tokens of a GO list read in two stretches: the first stretch's rows and warnings, then the second's. */
  lemma {:induction false} TokensAppend(goData: GoIndex, gene: string, a: seq<string>, b: seq<string>)
    ensures TokensReport(goData, gene, a + b) == Then(TokensReport(goData, gene, a), TokensReport(goData, gene, b))
    decreases |b|
  {
    if b == [] {
      assert a + b == a;
      ThenNothing(TokensReport(goData, gene, a));
    } else {
      var n := |b|;
      assert (a + b)[..|a + b| - 1] == a + b[..n - 1];
      assert (a + b)[|a + b| - 1] == b[n - 1];
      TokensAppend(goData, gene, a, b[..n - 1]);
      ThenAssoc(TokensReport(goData, gene, a), TokensReport(goData, gene, b[..n - 1]),
                TokenReport(goData, gene, b[n - 1]));
    }
  }

  /** The positions of the tokens whose stripped text is a GO id the index knows. */
  function KnownAt(goData: GoIndex, tokens: seq<string>): set<int> {
    set k | 0 <= k < |tokens| && Strip(tokens[k]) != [] && Strip(tokens[k]) in goData
  }

  /** The positions of the tokens whose stripped text is a non-empty GO id the index lacks. */
  function UnknownAt(goData: GoIndex, tokens: seq<string>): set<int> {
    set k | 0 <= k < |tokens| && Strip(tokens[k]) != [] && Strip(tokens[k]) !in goData
  }

  lemma KnownAtSnoc(goData: GoIndex, tokens: seq<string>)
    requires tokens != []
    ensures var n, id := |tokens| - 1, Strip(tokens[|tokens| - 1]);
            KnownAt(goData, tokens) == KnownAt(goData, tokens[..n]) + (if id != [] && id in goData then {n} else {})
  {
    var n := |tokens| - 1;
    assert forall k :: 0 <= k < n ==> tokens[..n][k] == tokens[k];
  }

  lemma UnknownAtSnoc(goData: GoIndex, tokens: seq<string>)
    requires tokens != []
    ensures var n, id := |tokens| - 1, Strip(tokens[|tokens| - 1]);
            UnknownAt(goData, tokens) == UnknownAt(goData, tokens[..n]) + (if id != [] && id !in goData then {n} else {})
  {
    var n := |tokens| - 1;
    assert forall k :: 0 <= k < n ==> tokens[..n][k] == tokens[k];
  }

  /** One row per known token and one warning per unknown one, repeats counted. */
  lemma {:induction false} TokensCounted(goData: GoIndex, gene: string, tokens: seq<string>)
    ensures |TokensReport(goData, gene, tokens).rows| == |KnownAt(goData, tokens)|
    ensures |TokensReport(goData, gene, tokens).warnings| == |UnknownAt(goData, tokens)|
    decreases |tokens|
  {
    if tokens == [] {
      assert KnownAt(goData, tokens) == {} && UnknownAt(goData, tokens) == {};
    } else {
      var n := |tokens| - 1;
      TokensCounted(goData, gene, tokens[..n]);
      KnownAtSnoc(goData, tokens);
      UnknownAtSnoc(goData, tokens);
      assert n !in KnownAt(goData, tokens[..n]) && n !in UnknownAt(goData, tokens[..n]);
    }
  }

  /** A known id listed twice for a gene is written twice: rows are not de-duplicated. */
  lemma RepeatedIdRepeated(goData: GoIndex, gene: string, token: string)
    requires Strip(token) != [] && Strip(token) in goData
    ensures TokensReport(goData, gene, [token, token]) ==
            Report([RowFor(goData, gene, Strip(token)), RowFor(goData, gene, Strip(token))], [])
  {
    TokensAppend(goData, gene, [token], [token]);
    assert [token] + [token] == [token, token];
    assert [token][..0] == [];
  }

  /** The output line of a row splits back into its four fields when none of them holds a tab. */
  lemma RowLineFields(r: Row)
    requires '\t' !in r.geneId && '\t' !in r.goType && '\t' !in r.goId && '\t' !in r.goDesc
    ensures Split(RowLine(r), '\t') == [r.geneId, r.goType, r.goId, r.goDesc]
  {
    var parts := [r.geneId, r.goType, r.goId, r.goDesc];
    assert forall i :: 0 <= i < |parts| ==> '\t' !in parts[i];
    assert Join(parts, '\t') == RowLine(r) by {
      var p1, p2, p3 := parts[1..], parts[2..], parts[3..];
      assert p3 == [r.goDesc] && p2 == [r.goId, r.goDesc] && p1 == [r.goType, r.goId, r.goDesc];
      assert p2[1..] == p3 && p1[1..] == p2;
      assert Join(p3, '\t') == r.goDesc;
      assert Join(p2, '\t') == r.goId + "\t" + r.goDesc;
      assert Join(p1, '\t') == r.goType + "\t" + (r.goId + "\t" + r.goDesc);
    }
    SplitJoin(parts, '\t');
  }

  // End-to-end examples

  /** A single line read from the top of the file. */
  lemma AnnotateOne(goData: GoIndex, raw: string)
    ensures Annotate(goData, [raw]) == LineReport(goData, 1, raw)
  {
    var lines := [raw];
    assert lines[..0] == [] && lines[0] == raw;
    assert AnnotateFrom(goData, 1, lines) == Then(Nothing, LineReport(goData, 1, raw));
    ThenNothing(LineReport(goData, 1, raw));
  }

  lemma ExampleSplit()
    ensures Split("GO:0001,GO:9999", ',') == ["GO:0001", "GO:9999"]
  {
    ExampleListText();
    SplitPair("GO:0001", ',', "GO:9999");
  }

  /**
   * The example's id list written as its two ids joined by a comma. The
   * literal fact is proved alone, so the examples that use it do not have to
   * compare long string literals character by character.
   */
  lemma ExampleListText()
    ensures "GO:0001,GO:9999" == "GO:0001" + [','] + "GO:9999"
  {
  }

  /** The example's input line written as its gene, a tab and its id list, for the same reason. */
  lemma ExampleLineText()
    ensures "geneA\tGO:0001,GO:9999" == "geneA" + "\t" + "GO:0001,GO:9999"
  {
  }

  /** The tokens `GO:0001` and `GO:9999` against the one-term index. */
  lemma ExampleTokens(m: GoIndex, ids: seq<string>)
    requires m == map["GO:0001" := GoInfo("biological_process", "x")]
    requires ids == ["GO:0001", "GO:9999"]
    ensures TokensReport(m, "geneA", ids) ==
            Report([Row("geneA", "biological_process", "GO:0001", "x")], [UnknownGoId("geneA", "GO:9999")])
  {
    var first := Report([Row("geneA", "biological_process", "GO:0001", "x")], []);
    assert TokenReport(m, "geneA", "GO:0001") == first by { StripNoOp("GO:0001"); }
    assert TokenReport(m, "geneA", "GO:9999") == Report([], [UnknownGoId("geneA", "GO:9999")]) by {
      StripNoOp("GO:9999");
    }
    assert TokensReport(m, "geneA", ids[..1]) == first by {
      assert ids[..1] == ["GO:0001"] && ids[..1][..0] == [];
      ThenNothing(first);
    }
  }

  /** `geneA<TAB>GO:0001,GO:9999` against the one-term index: one row, one warning for `GO:9999`. */
  lemma ExampleKnownAndUnknown(m: GoIndex, raw: string)
    requires m == map["GO:0001" := GoInfo("biological_process", "x")]
    requires raw == "geneA\tGO:0001,GO:9999"
    ensures var rep := Annotate(m, [raw]);
            && rep.rows == [Row("geneA", "biological_process", "GO:0001", "x")]
            && rep.warnings == [UnknownGoId("geneA", "GO:9999")]
            && [Header] + RowLines(rep.rows) == [Header, "geneA" + "\t" + "biological_process" + "\t" + "GO:0001" + "\t" + "x"]
  {
    var row := Row("geneA", "biological_process", "GO:0001", "x");
    var ids := ["GO:0001", "GO:9999"];
    var expected := Report([row], [UnknownGoId("geneA", "GO:9999")]);
    assert LineReport(m, 1, raw) == TokensReport(m, "geneA", ids) by { ExampleLine(m, raw); }
    assert TokensReport(m, "geneA", ids) == expected by { ExampleTokens(m, ids); }
    assert Annotate(m, [raw]) == expected by { AnnotateOne(m, raw); }
    assert RowLines([row]) == [RowLine(row)] by { assert [row][..0] == []; }
  }

  lemma ExampleLine(m: GoIndex, raw: string)
    requires raw == "geneA\tGO:0001,GO:9999"
    ensures LineReport(m, 1, raw) == TokensReport(m, "geneA", ["GO:0001", "GO:9999"])
  {
    StripNoOp(raw);
    ExampleLineText();
    OneTabLine(m, 1, raw, "geneA", "GO:0001,GO:9999");
    ExampleSplit();
  }

  /** `geneB<TAB>-` yields no row and no warning. */
  lemma ExampleNoTerms(goData: GoIndex)
    ensures Annotate(goData, ["geneB\t-"]) == Nothing
  {
    var raw := "geneB\t-";
    assert LineReport(goData, 1, raw) == Nothing by {
      StripNoOp(raw);
      assert raw == "geneB" + "\t" + "-";
      OneTabLine(goData, 1, raw, "geneB", "-");
    }
    AnnotateOne(goData, raw);
  }

  /** A line with a single field is passed over without a warning, and the lines after it are still read. */
  lemma ExampleSingleField(goData: GoIndex, rest: seq<string>)
    ensures Annotate(goData, ["geneC"] + rest) == AnnotateFrom(goData, 2, rest)
  {
    assert LineReport(goData, 1, "geneC") == Nothing by { StripNoOp("geneC"); }
    assert Annotate(goData, ["geneC"]) == Nothing by { AnnotateOne(goData, "geneC"); }
    AnnotateAppend(goData, 1, ["geneC"], rest);
    ThenNothing(AnnotateFrom(goData, 2, rest));
  }
}
