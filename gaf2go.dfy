/**
 * The line projector of `gaf2go.py`: it reads a GAF 2.2 gene association file
 * line by line, skips `!` comment lines and blank lines, sets aside lines
 * with fewer than ten tab-separated columns, and keeps columns 2 (DB Object
 * ID), 5 (GO ID), 9 (aspect, spelled out as a GO namespace) and 10 (DB Object
 * Name) of every other line. It writes them, after a header, as the same
 * four-column table the annotation joiner of `obo2go.py` writes.
 */
module Gaf2Go {
  import opened PyStr
  import opened Seqs

  /** The header line `parse_gaf_to_simplified` writes before its rows. */
  const Header: string := "GeneID\tGO_Type\tGO_ID\tGO_Description"

  /** `aspect_map`: the one-letter GAF aspect codes and the namespaces they stand for. */
  const AspectMap: map<string, string> :=
    map["F" := "molecular_function", "P" := "biological_process", "C" := "cellular_component"]

  /** `aspect_map.get(aspect, aspect)`: the namespace of a known code, the code itself otherwise. */
  function AspectType(aspect: string): string {
    if aspect in AspectMap then AspectMap[aspect] else aspect
  }

  /** The fewest tab-separated fields a line needs to be projected. */
  const MinFields := 10

  /** What the loop does with one line of the file. */
  datatype GafLine =
    | Comment                       // starts with `!`
    | Blank                         // only whitespace
    | Short(fieldCount: nat)        // fewer than ten fields
    | Record(row: seq<string>)      // projected to `[gene_id, go_type, go_id, description]`

  /**
   * The order of the tests is the program's: the comment test looks at the line
   * as read, before anything is stripped; the blank test and the field split
   * look at the stripped line.
   */
  function Classify(line: string): GafLine {
    if StartsWith(line, "!") then Comment
    else if Strip(line) == [] then Blank
    else
      var fields := Split(Strip(line), '\t');
      if |fields| < MinFields then Short(|fields|)
      else Record([fields[1], AspectType(fields[8]), fields[4], fields[9]])
  }

  /** The loop's state: `results`, `skipped_lines` and `comment_lines`. */
  datatype Summary = Summary(results: seq<seq<string>>, skipped: nat, comments: nat)

  const Empty := Summary([], 0, 0)

  function Add(s: Summary, c: GafLine): Summary {
    match c
    case Comment => s.(comments := s.comments + 1)
    case Blank => s
    case Short(_) => s.(skipped := s.skipped + 1)
    case Record(row) => s.(results := s.results + [row])
  }

  /** The state after the loop has read `lines`. */
  function Tally(lines: seq<string>): Summary
    decreases |lines|
  {
    if lines == [] then Empty
    else Add(Tally(lines[..|lines| - 1]), Classify(lines[|lines| - 1]))
  }

  lemma TallySnoc(lines: seq<string>, i: nat)
    requires i < |lines|
    ensures Tally(lines[..i + 1]) == Add(Tally(lines[..i]), Classify(lines[i]))
  {
    assert lines[..i + 1][..i] == lines[..i];
  }

  /** The loop of `parse_gaf_to_simplified`, lines 80-113. */
  method ParseGaf(lines: seq<string>) returns (results: seq<seq<string>>, skipped: nat, comments: nat)
    ensures Summary(results, skipped, comments) == Tally(lines)
  {
    results, skipped, comments := [], 0, 0;
    var i := 0;
    while i < |lines|
      invariant i <= |lines|
      invariant Summary(results, skipped, comments) == Tally(lines[..i])
    {
      var line := lines[i];
      TallySnoc(lines, i);
      if StartsWith(line, "!") {
        comments := comments + 1;
      } else if Strip(line) != [] {
        var fields := Split(Strip(line), '\t');
        if |fields| < MinFields {
          skipped := skipped + 1;
        } else {
          var geneId := fields[1];
          var goId := fields[4];
          var aspect := fields[8];
          var description := fields[9];
          results := results + [[geneId, AspectType(aspect), goId, description]];
        }
      }
      i := i + 1;
    }
    assert lines[..i] == lines;
  }

  /** `'\t'.join(row)` for each row, in order. */
  function Texts(rows: seq<seq<string>>): (r: seq<string>)
    ensures |r| == |rows|
    decreases |rows|
  {
    if rows == [] then [] else Texts(rows[..|rows| - 1]) + [Join(rows[|rows| - 1], '\t')]
  }

  lemma {:induction false} TextsSpec(rows: seq<seq<string>>)
    ensures forall k :: 0 <= k < |rows| ==> Texts(rows)[k] == Join(rows[k], '\t')
    decreases |rows|
  {
    if rows != [] {
      TextsSpec(rows[..|rows| - 1]);
    }
  }

  /** Lines 130-134: the header, then one tab-joined line per result. */
  method WriteOutput(results: seq<seq<string>>) returns (out: seq<string>)
    ensures out == [Header] + Texts(results)
  {
    out := [Header];
    var k := 0;
    while k < |results|
      invariant k <= |results|
      invariant out == [Header] + Texts(results[..k])
    {
      assert results[..k + 1][..k] == results[..k];
      out := out + [Join(results[k], '\t')];
      k := k + 1;
    }
    assert results[..k] == results;
  }

  /**
   * `parse_gaf_to_simplified` without its files: the lines written and the
   * value returned (line 142), with the two counters it logs.
   */
  method ParseGafToSimplified(lines: seq<string>) returns (out: seq<string>, count: nat, skipped: nat, comments: nat)
    ensures var s := Tally(lines);
            && out == [Header] + Texts(s.results)
            && count == |s.results| && skipped == s.skipped && comments == s.comments
    ensures count + 1 == |out|
  {
    var results;
    results, skipped, comments := ParseGaf(lines);
    out := WriteOutput(results);
    count := |results|;
    TextsSpec(results);
  }

  // Properties of one line

  /** A line is a comment exactly when it starts with `!`, whatever follows. */
  lemma CommentIff(line: string)
    ensures Classify(line) == Comment <==> StartsWith(line, "!")
  {
  }

  /** The comment test sees the line before stripping: indented `!` is not a comment. */
  lemma IndentedBangNotComment(line: string)
    requires line != [] && IsSpace(line[0])
    ensures Classify(line) != Comment
  {
    NotStartsWith(line, "!", 0);
  }

  /** A line is blank exactly when it is no comment and is whitespace throughout. */
  lemma BlankIff(line: string)
    ensures Classify(line) == Blank <==>
            !StartsWith(line, "!") && forall i :: 0 <= i < |line| ==> IsSpace(line[i])
  {
    StripSpec(line);
  }

  /** A line is set aside as short exactly when its stripped text holds fewer than nine tabs. */
  lemma ShortIff(line: string)
    ensures Classify(line).Short? <==>
            !StartsWith(line, "!") && Strip(line) != [] && Count(Strip(line), '\t') < MinFields - 1
    ensures Classify(line).Short? ==> Classify(line).fieldCount == Count(Strip(line), '\t') + 1
  {
  }

  /**
   * A line is projected exactly when it is no comment, not blank and holds at
   * least nine tabs; its row is then columns 2, 9 (spelled out), 5 and 10 of
   * the stripped line.
   */
  lemma RecordIff(line: string)
    ensures Classify(line).Record? <==>
            !StartsWith(line, "!") && Strip(line) != [] && Count(Strip(line), '\t') >= MinFields - 1
    ensures Classify(line).Record? ==>
              var f := Split(Strip(line), '\t');
              Classify(line).row == [f[1], AspectType(f[8]), f[4], f[9]]
  {
  }

  /**
   * A GAF record as a file holds it: ten or more tab-free columns, the first
   * neither empty nor starting with `!` or whitespace, the last not ending in
   * whitespace, followed by the line's own terminator. It yields the row of its
   * columns 2, 9, 5 and 10.
   */
  lemma RecordOfColumns(columns: seq<string>, ending: string)
    requires |columns| >= MinFields
    requires forall j :: 0 <= j < |columns| ==> '\t' !in columns[j]
    requires columns[0] != [] && columns[0][0] != '!' && !IsSpace(columns[0][0])
    requires var last := columns[|columns| - 1]; last != [] && !IsSpace(last[|last| - 1])
    requires forall i :: 0 <= i < |ending| ==> IsSpace(ending[i])
    ensures Classify(Join(columns, '\t') + ending) ==
            Record([columns[1], AspectType(columns[8]), columns[4], columns[9]])
  {
    var text := Join(columns, '\t');
    var line := text + ending;
    JoinEnds(columns, '\t');
    StripTrailing(text, ending);
    assert line[0] == text[0];
    NotStartsWith(line, "!", 0);
    SplitJoin(columns, '\t');
  }

  /** The three codes of `aspect_map` and the namespaces they map to. */
  lemma KnownAspects()
    ensures AspectType("F") == "molecular_function"
    ensures AspectType("P") == "biological_process"
    ensures AspectType("C") == "cellular_component"
  {
  }

  /** Any other aspect code passes through as the type, and it is the only way a code is kept as is. */
  lemma UnknownAspectIff(aspect: string)
    ensures AspectType(aspect) == aspect <==> aspect !in AspectMap
  {
    if aspect in AspectMap {
      assert aspect == "F" || aspect == "P" || aspect == "C";
    }
  }

  // Properties of the whole file

  function Merge(a: Summary, b: Summary): Summary {
    Summary(a.results + b.results, a.skipped + b.skipped, a.comments + b.comments)
  }

  /**
   * Reading two pieces of a file one after the other: the results of the
   * second piece follow those of the first, and the counters add up.
   */
  lemma {:induction false} TallyAppend(a: seq<string>, b: seq<string>)
    ensures Tally(a + b) == Merge(Tally(a), Tally(b))
    decreases |b|
  {
    if b == [] {
      assert a + b == a;
      AppendEmpty(Tally(a).results);
    } else {
      var c := b[..|b| - 1];
      TallyLast(a, b);
      TallyAppend(a, c);
      MergeAdd(Tally(a), Tally(c), Classify(b[|b| - 1]));
    }
  }

  lemma TallyLast(a: seq<string>, b: seq<string>)
    requires b != []
    ensures Tally(a + b) == Add(Tally(a + b[..|b| - 1]), Classify(b[|b| - 1]))
  {
    assert (a + b)[..|a + b| - 1] == a + b[..|b| - 1];
    assert (a + b)[|a + b| - 1] == b[|b| - 1];
  }

  lemma MergeAdd(x: Summary, y: Summary, c: GafLine)
    ensures Merge(x, Add(y, c)) == Add(Merge(x, y), c)
  {
    if c.Record? {
      AppendAssoc(x.results, y.results, [c.row]);
    }
  }

  /** The number of whitespace-only lines that are not comments. */
  function BlankCount(lines: seq<string>): nat
    decreases |lines|
  {
    if lines == [] then 0
    else BlankCount(lines[..|lines| - 1]) + (if Classify(lines[|lines| - 1]) == Blank then 1 else 0)
  }

  /** Every line is counted exactly once: as a result, a short line, a comment or a blank line. */
  lemma {:induction false} EveryLineCounted(lines: seq<string>)
    ensures var s := Tally(lines); |s.results| + s.skipped + s.comments + BlankCount(lines) == |lines|
    decreases |lines|
  {
    if lines != [] {
      EveryLineCounted(lines[..|lines| - 1]);
    }
  }

  /** A blank line anywhere leaves the results and both counters as they are. */
  lemma BlankInvisible(a: seq<string>, blank: string, b: seq<string>)
    requires Classify(blank) == Blank
    ensures Tally(a + [blank] + b) == Tally(a + b)
  {
    TallyAppend(a + [blank], b);
    TallyAppend(a, [blank]);
    TallyAppend(a, b);
    assert [blank][..0] == [];
    assert Tally(a).results + [] == Tally(a).results;
  }

  predicate TabFree(row: seq<string>) {
    forall j :: 0 <= j < |row| ==> '\t' !in row[j]
  }

  lemma AspectTypeTabFree(aspect: string)
    requires '\t' !in aspect
    ensures '\t' !in AspectType(aspect)
  {
    if aspect in AspectMap {
      assert aspect == "F" || aspect == "P" || aspect == "C";
    }
  }

  /** Every result is four fields, none with a tab in it. */
  lemma {:induction false} ResultsShape(lines: seq<string>)
    ensures forall k :: 0 <= k < |Tally(lines).results| ==>
              |Tally(lines).results[k]| == 4 && TabFree(Tally(lines).results[k])
    decreases |lines|
  {
    if lines != [] {
      var init := lines[..|lines| - 1];
      var line := lines[|lines| - 1];
      ResultsShape(init);
      if Classify(line).Record? {
        var f := Split(Strip(line), '\t');
        AspectTypeTabFree(f[8]);
        assert TabFree(Classify(line).row);
      }
    }
  }

  /**
   * The output can be read back: the header comes first, and splitting the
   * data line `k` at its tabs gives the four fields of result `k`.
   */
  lemma OutputReadsBack(lines: seq<string>, k: nat)
    requires k < |Tally(lines).results|
    ensures var out := [Header] + Texts(Tally(lines).results);
            && out[0] == Header
            && Split(out[k + 1], '\t') == Tally(lines).results[k]
  {
    var rows := Tally(lines).results;
    TextsSpec(rows);
    ResultsShape(lines);
    SplitJoin(rows[k], '\t');
  }
}
