# GO and GFF converters, modelled and verified in Dafny

This project models the parsing cores of three line-oriented converters and
proves properties of those models. The converters come from a small
bioinformatics toolbox.

- **`scripts/GAF2GO/obo2go.py`** holds two parts:
  - **`parse_obo`** reads an ontology in the OBO 1.4 flat-file format. It is a
    two-state scan, inside or outside a `[Term]` stanza. It collects each
    stanza's `id`, `name`, `namespace` and `alt_id` tags. On the blank line
    that ends a stanza it stores the primary id and every alt_id in an index
    `id -> (namespace, name)`.
  - **`process_annotations`** joins a two-column gene file
    (`gene<TAB>GO:1,GO:2,...`) against that index. It writes a header and then
    one row per GO id the index knows. It reports unknown ids and lines with
    more than one tab.
- **`scripts/GAF2GO/gaf2go.py`** (`parse_gaf_to_simplified`) projects a GAF 2.2
  gene association file onto the same four-column table:
  - it skips `!` comment lines and blank lines;
  - it counts lines with fewer than ten columns as skipped;
  - from every other line it keeps columns 2, 5, 9 and 10, with the aspect
    code of column 9 spelled out.
- **`scripts/GFFconvert/gff2tsv.py`** works in two steps:
  - `parse_attributes` reads GFF3 column 9 (`tag=value;...`, as the "Column 9:
    Attributes" part of the Sequence Ontology's GFF3 specification describes
    it) into a map;
  - `extract_gene_info` keeps the features of one type. For each it writes ID,
    name, chromosome, start, end, strand, type and description, taking ID,
    name and description through fallback chains of attribute keys.

Files and their modules:

| file | module | contents |
|---|---|---|
| `wrappers.dfy` | `Wrappers` | `Option` and `Result` |
| `seqs.dfy` | `Seqs` | two facts about sequence concatenation |
| `pystr.dfy` | `PyStr` | the Python `str` operations the scripts rely on: `strip()` over the full Unicode whitespace set, `strip(c)`, `startswith`, `split(sep)` (never empty, keeps empty pieces), `split(sep, 1)` (splits only at the first occurrence; `None` where the scripts would raise IndexError), `join` |
| `obo_indexer.dfy` | `OboIndexer` | `parse_obo` |
| `annotation_joiner.dfy` | `AnnotationJoiner` | `process_annotations` |
| `gaf2go.dfy` | `Gaf2Go` | the loop and output of `parse_gaf_to_simplified` |
| `gff2tsv.dfy` | `Gff2Tsv` | `parse_attributes` and the loop of `extract_gene_info` |

**How the loops are modelled.** Each loop in the Python code is a Dafny
`method` with a `while` loop. Its `ensures` clause ties the result to a
specification function: a fold over the lines read so far, such as `Run`,
`Annotate`, `Tally`, `Rows` or `Collect`. The loop invariant states that the
loop's variables equal that fold applied to `lines[..i]`. When a loop body
does much work, it is its own method, proved against the fold's step. The properties the
scripts promise are then proved as lemmas about the fold.

**How input and output are modelled.**
- A file is a `seq<string>` of its lines, each as Python's `for line in f`
  yields it, which may include the line terminator.
- Output is a sequence of lines without terminators. For `gff2tsv.py`, output
  is a sequence of field lists, because `csv.writer` does the writing.

## Model

| member | source | states |
|---|---|---|
| PyStr.StripSpec | scripts/GAF2GO/obo2go.py:25 | `strip()` returns the slice of the line left after a prefix and a suffix of whitespace. It is empty exactly when every character is whitespace, and it neither starts nor ends with whitespace |
| PyStr.StripCharSpec | scripts/GFFconvert/gff2tsv.py:25 | `strip(';')` returns the slice left after a prefix and a suffix of `;`. It is empty exactly when the string is all `;`, and it neither starts nor ends with `;` |
| PyStr.StripIgnoresTrailing | scripts/GAF2GO/obo2go.py:24-25 | whitespace after a line, such as the line terminator `for line in f` keeps, never changes what `strip()` gives |
| PyStr.StripIdempotent | scripts/GAF2GO/gaf2go.py:88-93 | stripping an already stripped line changes nothing, so the blank test and the field split see the same text |
| PyStr.StripTrailing | scripts/GAF2GO/gaf2go.py:93 | stripping removes the trailing whitespace (such as the newline) of a line whose text has no whitespace at either end, and nothing else |
| PyStr.Split | scripts/GAF2GO/obo2go.py:99 | `split(sep)` has one piece more than `sep` occurs; no piece holds `sep`; joining the pieces with `sep` gives the string back |
| PyStr.SplitJoin | scripts/GAF2GO/gaf2go.py:134 | splitting a tab-joined row at its tabs gives the fields back when none holds a tab |
| PyStr.SplitOnce | scripts/GFFconvert/gff2tsv.py:32-33 | `split(sep, 1)` has two pieces exactly when `sep` occurs; the first piece holds no `sep`, and first + sep + second is the string |
| PyStr.SplitOnceAt | scripts/GAF2GO/obo2go.py:55 | the two pieces of `split(sep, 1)` are the text before the first `sep` and everything after it |
| PyStr.JoinEnds | scripts/GAF2GO/gaf2go.py:134 | a tab-joined line begins with its first field's first character and ends with its last field's last character |
| OboIndexer.ValueOf | scripts/GAF2GO/obo2go.py:55 | the value of a tag line is absent exactly when the line has no space; otherwise it is the text after the first space |
| OboIndexer.StoreAll | scripts/GAF2GO/obo2go.py:49-50 | storing every alt_id adds exactly those ids, maps each to the stanza's pair, and keeps every other entry |
| OboIndexer.Flush | scripts/GAF2GO/obo2go.py:32-50 | a complete stanza adds its primary id and alt_ids, all mapped to `(namespace, name)`, and keeps every other entry; an incomplete stanza changes nothing |
| OboIndexer.ApplyTag | scripts/GAF2GO/obo2go.py:52-65 | the tag dispatch for one line inside a stanza is the specification step `TagLine` |
| OboIndexer.FlushInto | scripts/GAF2GO/obo2go.py:37-50 | the store on a blank line (primary id first, then the alt_id loop) equals `Flush` |
| OboIndexer.ParseObo | scripts/GAF2GO/obo2go.py:7-68 | the loop of `parse_obo` returns `OboIndex(lines)`, which is the index, or the IndexError of the first tag line without a space |
| OboIndexer.RunAppend | scripts/GAF2GO/obo2go.py:24-65 | parsing two pieces of a file is parsing the first, then the second from the state the first left; an error in the first piece is final |
| OboIndexer.FailureSticks | scripts/GAF2GO/obo2go.py:55 | an IndexError on one line is the result of the whole parse, whatever follows |
| OboIndexer.StepStrip | scripts/GAF2GO/obo2go.py:24-25 | the loop body sees only the stripped line: a line and its stripped text are the same step |
| OboIndexer.RunSameText | scripts/GAF2GO/obo2go.py:24-65 | from any state, two inputs whose lines strip to the same text, line by line, are parsed alike |
| OboIndexer.OboIndexSameText | scripts/GAF2GO/obo2go.py:7-68 | replacing a stretch of a file by lines of the same stripped text changes nothing `parse_obo` returns |
| OboIndexer.EndingsIgnored | scripts/GAF2GO/obo2go.py:23-25 | a file whose every line ends in the same whitespace line end (`\n`, `\r\n`) indexes exactly as its bare lines |
| OboIndexer.LastTagWins | scripts/GAF2GO/obo2go.py:54-59 | the `id`, `name` or `namespace` of a stanza is the value of the last line in it carrying that tag |
| OboIndexer.MissingTagKept | scripts/GAF2GO/obo2go.py:29-59 | a tag that no line of the stanza carries keeps the value it started with, so it is absent from a fresh stanza |
| OboIndexer.AltIdsOfSpec | scripts/GAF2GO/obo2go.py:30-65 | an identifier is among a stanza's alt_ids exactly when one of its `alt_id:` lines carries it |
| OboIndexer.StepOther | scripts/GAF2GO/obo2go.py:52-65 | inside a stanza, a non-blank line that is not `[Term]` and starts with none of the five tags changes nothing |
| OboIndexer.EntriesRun | scripts/GAF2GO/obo2go.py:24-65 | inside a stanza, its lines, in any order and with repeats and other lines mixed in, set the tags they carry and append their alt_ids in order |
| OboIndexer.StanzaOpens | scripts/GAF2GO/obo2go.py:27-30 | from any state, the lines of a stanza open a fresh stanza that holds exactly its tags and alt_ids |
| OboIndexer.StanzaFlushed | scripts/GAF2GO/obo2go.py:27-50 | from any state, a stanza and its blank line leave the scan outside a stanza, with the index flushed with that stanza |
| OboIndexer.BlockAfter | scripts/GAF2GO/obo2go.py:24-65 | after any input, a stanza and its blank line change the index exactly by that stanza's flush; an earlier error stays |
| OboIndexer.CompleteStanzaIndexed | scripts/GAF2GO/obo2go.py:24-65 | a stanza with `id`, `name` and `namespace` lines, in any order and with other lines among them, ended by a blank line, maps its last id and every alt_id to its last `(namespace, name)` and leaves all other entries unchanged; its lines may carry any whitespace, line terminators included |
| OboIndexer.IncompleteStanzaIgnored | scripts/GAF2GO/obo2go.py:24-39 | a stanza lacking an `id`, `name` or `namespace` line leaves the index exactly as it was, whatever other lines it holds and whatever whitespace its lines carry |
| OboIndexer.LaterStanzaWins | scripts/GAF2GO/obo2go.py:24-50 | when two stanzas claim an identifier, as primary id or alt_id, the index holds the later stanza's pair; the lines of both may carry any whitespace |
| OboIndexer.UnterminatedStanzaDropped | scripts/GAF2GO/obo2go.py:24-32 | a stanza last in the file with no blank line after it is never indexed, whatever whitespace its lines carry |
| OboIndexer.TermLineDiscards | scripts/GAF2GO/obo2go.py:24-30 | a `[Term]` line discards the unterminated stanza before it, tags and alt_ids alike, whatever whitespace the lines of both stanzas carry |
| OboIndexer.OutsideLinesInert | scripts/GAF2GO/obo2go.py:27-52 | outside a stanza, lines other than `[Term]` change nothing, blank lines included |
| OboIndexer.IdIsTextAfterFirstSpace | scripts/GAF2GO/obo2go.py:54-55 | inside a stanza, `id:` takes the text after the first space of the stripped line, spaces after it included |
| OboIndexer.TagLineSets | scripts/GAF2GO/obo2go.py:54-59 | an `id:`, `name:` or `namespace:` line with a space sets that tag to the text after the space |
| OboIndexer.RepeatedTagOverwrites | scripts/GAF2GO/obo2go.py:54-59 | inside a stanza, a second line for the same tag makes the first one irrelevant |
| OboIndexer.StepMissingValue | scripts/GAF2GO/obo2go.py:54-65 | inside a stanza, an `id:`, `name:`, `namespace:` or `alt_id:` line without a space raises IndexError |
| OboIndexer.MissingValueAborts | scripts/GAF2GO/obo2go.py:24-65 | such a line, after any stanza lines with any whitespace, aborts the whole parse with that error, whatever follows |
| OboIndexer.OneStanzaOntology | scripts/GAF2GO/obo2go.py:7-68 | an ontology of one stanza with an id, a name, a namespace and one untagged line indexes exactly `id -> (namespace, name)` |
| OboIndexer.ExampleOntologyAsRead | scripts/GAF2GO/obo2go.py:23-68 | the same ontology read from a file, each line still ending in `\n`, indexes exactly `GO:0001 -> (biological_process, x)` |
| OboIndexer.ExampleOntology | scripts/GAF2GO/obo2go.py:7-68 | the one-stanza ontology `GO:0001` / `x` / `biological_process`, with an `is_a:` line, indexes exactly `GO:0001 -> (biological_process, x)` |
| AnnotationJoiner.WriteGoId | scripts/GAF2GO/obo2go.py:102-113 | one GO token appends the row line of a known id, or a warning about an unknown one, or nothing when it is blank once stripped |
| AnnotationJoiner.WriteGoIds | scripts/GAF2GO/obo2go.py:99-113 | the loop over one gene's GO ids appends one output line per known id and one warning per unknown id; `written_count` grows by the number of rows |
| AnnotationJoiner.AnnotateLine | scripts/GAF2GO/obo2go.py:85-113 | one input line appends exactly the rows and warnings that `LineReport` assigns it |
| AnnotationJoiner.ProcessAnnotations | scripts/GAF2GO/obo2go.py:76-115 | the output is the header, then the row lines of `Annotate(goData, lines)`; the warnings are those of `Annotate`; `line_count` is the number of lines; `written_count` is the number of data rows |
| AnnotationJoiner.RowLinesSpec | scripts/GAF2GO/obo2go.py:110 | one output line per row, in the rows' order |
| AnnotationJoiner.AnnotateSound | scripts/GAF2GO/obo2go.py:106-113 | every row carries the namespace and name the index holds for its non-empty GO id; every unknown-id warning is for a non-empty id the index lacks |
| AnnotationJoiner.AnnotateAppend | scripts/GAF2GO/obo2go.py:83-113 | two stretches of input give the rows and warnings of the first, then of the second, numbered on from where the first ended |
| AnnotationJoiner.RowsAppend | scripts/GAF2GO/obo2go.py:83-111 | rows come out in input order: the rows of `a + b` are those of `a`, then those of `b` |
| AnnotationJoiner.RowsIgnoreNumbering | scripts/GAF2GO/obo2go.py:84-111 | line numbers affect only the warnings, never the rows |
| AnnotationJoiner.IgnoredLineSilent | scripts/GAF2GO/obo2go.py:87-88 | lines that are blank, have no tab or start with `[` yield no row and no warning |
| AnnotationJoiner.MalformedIff | scripts/GAF2GO/obo2go.py:90-94 | a line that is not ignored yields the malformed-line warning alone exactly when it has more than one tab |
| AnnotationJoiner.OneTabLine | scripts/GAF2GO/obo2go.py:91-99 | a line `gene<TAB>list` yields nothing when the list is `-` and otherwise the tokens of `list.split(',')` |
| AnnotationJoiner.TokenRowsIff | scripts/GAF2GO/obo2go.py:101-111 | a row is written for a GO list exactly when some stripped, non-empty token is in the index, and the row is that token's entry |
| AnnotationJoiner.TokenWarningsIff | scripts/GAF2GO/obo2go.py:101-113 | an unknown-id warning is printed exactly for the non-empty stripped tokens the index lacks |
| AnnotationJoiner.NoOtherGene | scripts/GAF2GO/obo2go.py:91-113 | every row and warning of a line names that line's gene |
| AnnotationJoiner.TokensAppend | scripts/GAF2GO/obo2go.py:101-113 | the GO ids of a list are handled in order: the ids of `a + b` give the rows and warnings of `a`, then those of `b` |
| AnnotationJoiner.TokensCounted | scripts/GAF2GO/obo2go.py:101-113 | a list writes one row per position holding a known id and one warning per position holding an unknown non-empty id, repeats counted |
| AnnotationJoiner.RepeatedIdRepeated | scripts/GAF2GO/obo2go.py:101-111 | a known id listed twice is written twice; rows are not de-duplicated |
| AnnotationJoiner.TokensAccounted | scripts/GAF2GO/obo2go.py:101-113 | each non-blank token yields exactly one row or one warning: rows + warnings = non-blank tokens |
| AnnotationJoiner.RowLineFields | scripts/GAF2GO/obo2go.py:110 | a written row line splits back into its four fields when none holds a tab |
| AnnotationJoiner.AnnotateOne | scripts/GAF2GO/obo2go.py:83-85 | a single line is read as line number 1 |
| AnnotationJoiner.ExampleKnownAndUnknown | scripts/GAF2GO/obo2go.py:76-115 | `geneA<TAB>GO:0001,GO:9999` against the one-term index writes the header and one row `geneA biological_process GO:0001 x`, and warns about `GO:9999` |
| AnnotationJoiner.ExampleNoTerms | scripts/GAF2GO/obo2go.py:96-97 | `geneB<TAB>-` yields no row and no warning |
| AnnotationJoiner.ExampleSingleField | scripts/GAF2GO/obo2go.py:87-88 | a line with one field is passed over silently, and the lines after it are read as usual |
| Gaf2Go.ParseGaf | scripts/GAF2GO/gaf2go.py:80-113 | the loop's `results`, `skipped_lines` and `comment_lines` are `Tally(lines)` |
| Gaf2Go.WriteOutput | scripts/GAF2GO/gaf2go.py:130-134 | the output is the header, then one tab-joined line per result, in order |
| Gaf2Go.ParseGafToSimplified | scripts/GAF2GO/gaf2go.py:74-142 | the lines written and the counters are those of `Tally(lines)`; the value returned is the number of results, one less than the number of output lines |
| Gaf2Go.TextsSpec | scripts/GAF2GO/gaf2go.py:133-134 | one output line per result, the `k`-th being result `k` joined with tabs |
| Gaf2Go.CommentIff | scripts/GAF2GO/gaf2go.py:82-85 | a line is a comment exactly when the raw line starts with `!`, however many columns follow |
| Gaf2Go.IndentedBangNotComment | scripts/GAF2GO/gaf2go.py:82-93 | the comment test runs before stripping: a line starting with whitespace is never a comment |
| Gaf2Go.BlankIff | scripts/GAF2GO/gaf2go.py:88-90 | a line is blank exactly when it is not a comment and is whitespace throughout |
| Gaf2Go.ShortIff | scripts/GAF2GO/gaf2go.py:93-99 | a line is skipped as short exactly when it is not a comment, not blank, and its stripped text has fewer than nine tabs; its field count is the tab count plus one |
| Gaf2Go.RecordIff | scripts/GAF2GO/gaf2go.py:93-113 | a line is projected exactly when it is not a comment, not blank, and has at least nine tabs; its row is `[fields[1], type of fields[8], fields[4], fields[9]]` of the stripped line |
| Gaf2Go.RecordOfColumns | scripts/GAF2GO/gaf2go.py:93-113 | a well-formed GAF line with ten or more columns and a trailing newline yields the row of its columns 2, 9 (spelled out), 5 and 10 |
| Gaf2Go.KnownAspects | scripts/GAF2GO/gaf2go.py:68-72 | `F`, `P` and `C` map to `molecular_function`, `biological_process` and `cellular_component` |
| Gaf2Go.UnknownAspectIff | scripts/GAF2GO/gaf2go.py:107 | a code is kept as the type exactly when it is not one of the three known codes |
| Gaf2Go.TallyAppend | scripts/GAF2GO/gaf2go.py:80-113 | reading two pieces of a file gives the results of the first then the second, and the counters add up |
| Gaf2Go.EveryLineCounted | scripts/GAF2GO/gaf2go.py:80-99 | each line is counted exactly once, as a result, a short line, a comment or a blank line |
| Gaf2Go.BlankInvisible | scripts/GAF2GO/gaf2go.py:88-90 | a blank line anywhere changes neither the results nor either counter |
| Gaf2Go.ResultsShape | scripts/GAF2GO/gaf2go.py:101-113 | every result has four fields, none holding a tab |
| Gaf2Go.OutputReadsBack | scripts/GAF2GO/gaf2go.py:130-134 | the header comes first, and splitting data line `k` at its tabs gives back result `k` |
| Gff2Tsv.ParseAttributes | scripts/GFFconvert/gff2tsv.py:15-35 | the loop of `parse_attributes` returns `ParsedAttributes(attrStr)` |
| Gff2Tsv.NoAttributes | scripts/GFFconvert/gff2tsv.py:21-22 | an empty column 9 and `.` give the empty map |
| Gff2Tsv.PairNoneIff | scripts/GFFconvert/gff2tsv.py:28-32 | a piece is passed over exactly when it is empty once stripped or holds no `=` |
| Gff2Tsv.PairAtFirstEquals | scripts/GFFconvert/gff2tsv.py:32-34 | a piece splits at its first `=` only, so values may hold `=`; the value is stripped, the key kept |
| Gff2Tsv.FillKeys | scripts/GFFconvert/gff2tsv.py:27-34 | for any way of reading pieces, a key is stored exactly when some piece carries it |
| Gff2Tsv.CollectKeys | scripts/GFFconvert/gff2tsv.py:27-34 | a key is in the attribute map exactly when some piece of column 9 carries it |
| Gff2Tsv.FillLastWins | scripts/GFFconvert/gff2tsv.py:34 | for any way of reading pieces, the stored value of a key is that of the last piece carrying it |
| Gff2Tsv.LastPairWins | scripts/GFFconvert/gff2tsv.py:34 | a key repeated later in column 9 takes the later value |
| Gff2Tsv.FillAppend | scripts/GFFconvert/gff2tsv.py:27-34 | reading more pieces after others gives the earlier map overridden by the later one |
| Gff2Tsv.CollectAppend | scripts/GFFconvert/gff2tsv.py:27-34 | the same for the pieces of column 9 |
| Gff2Tsv.ExampleAttributes | scripts/GFFconvert/gff2tsv.py:18 | `ID=gene01;Name=EDEN;Note=Something` gives `{ID: gene01, Name: EDEN, Note: Something}` |
| Gff2Tsv.FirstPresentSpec | scripts/GFFconvert/gff2tsv.py:88-90 | a fallback chain yields the value of its first key present, even an empty one |
| Gff2Tsv.FirstPresentDefault | scripts/GFFconvert/gff2tsv.py:88-90 | a chain yields its default exactly when no key is present, or the first present key holds the default text |
| Gff2Tsv.GeneIdChain | scripts/GFFconvert/gff2tsv.py:88 | the gene id is `ID`, else `gene_id`, else `NA` |
| Gff2Tsv.GeneNameChain | scripts/GFFconvert/gff2tsv.py:89 | the gene name is `Name`, else `gene_name`, else `symbol`, else `NA` |
| Gff2Tsv.DescriptionChain | scripts/GFFconvert/gff2tsv.py:90-94 | the description is `description`, else `Note`, else `product`, URL-decoded unless it is `NA`; a first present value `NA` is left undecoded; it is `NA` when none is present |
| Gff2Tsv.FeatureRow | scripts/GFFconvert/gff2tsv.py:61-96 | the body of the loop for one line computes `RowOf`: no row for comments, blank, short or other-type lines; otherwise the eight output fields |
| Gff2Tsv.ExtractGeneInfo | scripts/GFFconvert/gff2tsv.py:55-97 | the rows written are the header, then `Rows(lines, target, unquote)`; `count` is the number of data rows; `line_count` is the number of lines |
| Gff2Tsv.NoRowIff | scripts/GFFconvert/gff2tsv.py:61-77 | a line yields no row exactly when it starts with `#`, is blank, has fewer than nine columns, or has a column 3 other than the target type |
| Gff2Tsv.RowShape | scripts/GFFconvert/gff2tsv.py:80-96 | every row has the eight header fields and its type field is the target type |
| Gff2Tsv.RowOfColumns | scripts/GFFconvert/gff2tsv.py:64-96 | a well-formed feature line yields `[id, name, col1, col4, col5, col7, type, description]` from its columns and its column 9 |
| Gff2Tsv.RowsAppend | scripts/GFFconvert/gff2tsv.py:57-97 | rows come out in input order: those of `a + b` are those of `a`, then those of `b` |
| Gff2Tsv.RowsBound | scripts/GFFconvert/gff2tsv.py:57-97 | there are never more rows than lines, and every row's type field is the target type |

## Left out

- The command-line front ends are not part of this model: `main` and the
  `argparse` set-up of each script, and `validate_args` in `gaf2go.py` (file
  existence checks and `mkdir`).
- File handling is not part of this model. A file is given as its lines.
  - How Python splits a file into lines (universal newlines, encodings) is
    left out.
  - So are the `FileNotFoundError`, `PermissionError` and generic exception
    handlers and `sys.exit(1)`.
  - So is the newline each output line ends in.
- Logging is left out: `setup_logger`, every `logger` call and every `print`
  to `sys.stderr`.
  - This covers the GAF warnings for short lines and unknown aspect codes.
    The short-line counter itself is modelled.
  - It covers the GFF warning for short lines, which is shown only for
    lines 1 to 19, the progress message every 10000 rows, and the final
    summary.
  - The joiner's diagnostics are the exception: they are modelled as a list
    of warnings.
- `urllib.parse.unquote` is not part of this model. It is the function
  parameter `unquote`, applied exactly where the script applies it: to a
  description other than `NA`.
- `csv.writer`'s quoting is left out. GFF output is modelled as the field
  lists handed to `writerow`.
- Range of the OBO stanza lemmas: a stanza (`OboIndexer.Stanza`) is a list
  of tag lines and other lines in any order. The lines of the file may be any
  lines that strip to the stanza's text (`OboIndexer.SameText`), so line
  terminators and surrounding whitespace are covered. A tag line's text is
  the tag, one space and a value. A tag line with no space right after its
  colon (`id:GO:1 x`) is covered one line at a time, by `TagLineSets` and
  `IdIsTextAfterFirstSpace`, not by the stanza lemmas.
- The `is_obsolete` flag is recorded in the stanza state, as the script
  records it. Nothing reads it.
- Range of the GAF and GFF line-shape lemmas: `RecordOfColumns` and
  `RowOfColumns` describe lines whose first column does not start with
  whitespace and whose last column does not end with it. The
  classification-by-iff lemmas (`RecordIff`, `NoRowIff`) cover every line.
- As in the script, the GAF results are kept whole before any line is
  written. Streaming output is not modelled.
- Three points of the joiner are modelled as the code has them, though a
  reader of its description might expect otherwise.
  - A line with a single field, that is with no tab, is skipped silently
    (`scripts/GAF2GO/obo2go.py:87`). It draws no diagnostic.
    `AnnotationJoiner.ExampleSingleField` proves the silent skip.
  - The line is not split at its first tab only. It is split at every tab,
    and exactly two fields are demanded (`scripts/GAF2GO/obo2go.py:91`). So
    a line with two or more tabs draws the malformed-line warning
    (`AnnotationJoiner.MalformedIff`).
  - `if info:` (`scripts/GAF2GO/obo2go.py:108`) tests a two-element tuple,
    which is always true. It is modelled as membership of the id in the
    index.
