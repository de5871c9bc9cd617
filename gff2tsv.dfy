/**
 * `gff2tsv.py`: it reads a GFF3 file, keeps the features of one type, and
 * writes one table row per feature with its ID, name, place on the sequence
 * and description. The ID, name and description come from column 9, a list
 * of `tag=value` pairs separated by `;`, as the "Column 9: Attributes" part
 * of the Sequence Ontology's GFF3 specification describes it.
 */
module Gff2Tsv {
  import opened Wrappers
  import opened PyStr
  import opened Seqs

  type Attributes = map<string, string>

  /**
   * One `;`-separated piece of column 9: stripped, and split at its first `=`
   * into the key and the stripped value; `None` for a piece that is empty
   * once stripped or holds no `=`, which `parse_attributes` passes over.
   */
  function Pair(part: string): Option<(string, string)> {
    var p := Strip(part);
    if p == [] then None
    else match SplitOnce(p, '=')
      case None => None
      case Some(kv) => Some((kv.0, Strip(kv.1)))
  }

  /**
   * `attr_dict` after the loop has read `parts`, each piece read by `pair`:
   * every pair is stored, later ones over earlier ones.
   */
  function Fill(parts: seq<string>, pair: string -> Option<(string, string)>): Attributes
    decreases |parts|
  {
    if parts == [] then map[]
    else
      var d := Fill(parts[..|parts| - 1], pair);
      match pair(parts[|parts| - 1])
      case None => d
      case Some(kv) => d[kv.0 := kv.1]
  }

  /** The pieces read as `parse_attributes` reads them. */
  function Collect(parts: seq<string>): Attributes {
    Fill(parts, Pair)
  }

  /** `attr_str.strip().strip(';').split(';')` */
  function Parts(attrStr: string): seq<string> {
    Split(StripChar(Strip(attrStr), ';'), ';')
  }

  /** What `parse_attributes` returns: nothing for an empty string or `.`, the collected pairs otherwise. */
  function ParsedAttributes(attrStr: string): Attributes {
    if attrStr == [] || attrStr == "." then map[] else Collect(Parts(attrStr))
  }

  lemma CollectSnoc(parts: seq<string>, i: nat)
    requires i < |parts|
    ensures Fill(parts[..i + 1], Pair) ==
            match Pair(parts[i])
            case None => Fill(parts[..i], Pair)
            case Some(kv) => Fill(parts[..i], Pair)[kv.0 := kv.1]
  {
    assert parts[..i + 1][..i] == parts[..i];
  }

  /** `parse_attributes`, lines 15-35. */
  method ParseAttributes(attrStr: string) returns (attrs: Attributes)
    ensures attrs == ParsedAttributes(attrStr)
  {
    attrs := map[];
    if attrStr == [] || attrStr == "." {
      return;
    }
    var parts := Split(StripChar(Strip(attrStr), ';'), ';');
    var i := 0;
    while i < |parts|
      invariant i <= |parts|
      invariant attrs == Fill(parts[..i], Pair)
    {
      CollectSnoc(parts, i);
      var part := Strip(parts[i]);
      if part != [] && '=' in part {
        var kv := SplitOnce(part, '=');
        var key, value := kv.value.0, kv.value.1;
        attrs := attrs[key := Strip(value)];
      }
      i := i + 1;
    }
    assert parts[..i] == parts;
  }

  // Properties of the attribute parser

  /** An empty column 9 and the placeholder `.` carry no attributes. */
  lemma NoAttributes()
    ensures ParsedAttributes("") == map[] && ParsedAttributes(".") == map[]
  {
  }

  /** A piece is passed over exactly when it is empty once stripped or holds no `=`. */
  lemma PairNoneIff(part: string)
    ensures Pair(part).None? <==> Strip(part) == [] || '=' !in Strip(part)
  {
  }

  /**
   * A piece splits at its first `=` only, so the value may hold `=` itself;
   * the value is stripped, the key is kept as written.
   */
  lemma PairAtFirstEquals(key: string, value: string)
    requires '=' !in key
    requires key != [] && !IsSpace(key[0])
    requires value != [] ==> !IsSpace(value[|value| - 1])
    ensures Pair(key + "=" + value) == Some((key, Strip(value)))
  {
    var part := key + "=" + value;
    assert part[0] == key[0];
    assert part[|part| - 1] == if value == [] then '=' else value[|value| - 1];
    StripNoOp(part);
    SplitOnceAt(key, '=', value);
  }

  /** `pair` reads `part` as a pair with key `k`. */
  predicate Carries(pair: string -> Option<(string, string)>, part: string, k: string) {
    pair(part).Some? && pair(part).value.0 == k
  }

  lemma {:induction false} FillKeys(parts: seq<string>, pair: string -> Option<(string, string)>, k: string)
    ensures k in Fill(parts, pair) <==> exists i :: 0 <= i < |parts| && Carries(pair, parts[i], k)
    decreases |parts|
  {
    if parts != [] {
      var init := parts[..|parts| - 1];
      FillKeys(init, pair, k);
      if k in Fill(init, pair) {
        var i :| 0 <= i < |init| && Carries(pair, init[i], k);
        assert parts[i] == init[i];
      }
      if exists i :: 0 <= i < |parts| && Carries(pair, parts[i], k) {
        var i :| 0 <= i < |parts| && Carries(pair, parts[i], k);
        if i < |init| {
          assert init[i] == parts[i];
        }
      }
    }
  }

  /** A key is stored exactly when some piece carries it. */
  lemma CollectKeys(parts: seq<string>, k: string)
    ensures k in Collect(parts) <==> exists i :: 0 <= i < |parts| && Carries(Pair, parts[i], k)
  {
    FillKeys(parts, Pair, k);
  }

  lemma {:induction false} FillLastWins(parts: seq<string>, pair: string -> Option<(string, string)>,
                                         i: nat, k: string, v: string)
    requires i < |parts| && pair(parts[i]) == Some((k, v))
    requires forall j :: i < j < |parts| ==> !Carries(pair, parts[j], k)
    ensures k in Fill(parts, pair) && Fill(parts, pair)[k] == v
    decreases |parts|
  {
    if i < |parts| - 1 {
      var init := parts[..|parts| - 1];
      assert init[i] == parts[i];
      forall j | i < j < |init|
        ensures !Carries(pair, init[j], k)
      {
        assert init[j] == parts[j];
      }
      FillLastWins(init, pair, i, k, v);
    }
  }

  /** The value stored for a key is the value of the last piece that carries it. */
  lemma LastPairWins(parts: seq<string>, i: nat, k: string, v: string)
    requires i < |parts| && Pair(parts[i]) == Some((k, v))
    requires forall j :: i < j < |parts| ==> !Carries(Pair, parts[j], k)
    ensures k in Collect(parts) && Collect(parts)[k] == v
  {
    FillLastWins(parts, Pair, i, k, v);
  }

  lemma {:induction false} FillAppend(a: seq<string>, b: seq<string>, pair: string -> Option<(string, string)>)
    ensures Fill(a + b, pair) == Fill(a, pair) + Fill(b, pair)
    decreases |b|
  {
    if b == [] {
      assert a + b == a;
    } else {
      assert (a + b)[..|a + b| - 1] == a + b[..|b| - 1];
      assert (a + b)[|a + b| - 1] == b[|b| - 1];
      FillAppend(a, b[..|b| - 1], pair);
    }
  }

  /** Reading more pieces after others: every key of the later pieces overrides the earlier ones. */
  lemma CollectAppend(a: seq<string>, b: seq<string>)
    ensures Collect(a + b) == Collect(a) + Collect(b)
  {
    FillAppend(a, b, Pair);
  }

  // The example in `parse_attributes`'s documentation, `ID=gene01;Name=EDEN;Note=Something`

  /** Three `;`-separated pieces with no whitespace or `;` at the ends of the text. */
  lemma ThreeParts(s: string, a: string, b: string, c: string)
    requires s == a + ";" + b + ";" + c
    requires ';' !in a && ';' !in b && ';' !in c
    requires a != [] && !IsSpace(a[0]) && a[0] != ';' && c != [] && !IsSpace(c[|c| - 1]) && c[|c| - 1] != ';'
    ensures Parts(s) == [a, b, c]
  {
    assert s[0] == a[0] && s[|s| - 1] == c[|c| - 1];
    StripNoOp(s);
    StripCharNoOp(s, ';');
    assert s == a + [';'] + (b + [';'] + c);
    SplitCons(a, ';', b + [';'] + c);
    SplitPair(b, ';', c);
  }

  /** A `key=value` piece with nothing to strip. */
  lemma PlainPair(key: string, value: string)
    requires '=' !in key && key != [] && !IsSpace(key[0])
    requires value != [] && !IsSpace(value[0]) && !IsSpace(value[|value| - 1])
    ensures Pair(key + "=" + value) == Some((key, value))
  {
    PairAtFirstEquals(key, value);
    StripNoOp(value);
  }

  lemma FillThree(parts: seq<string>, pair: string -> Option<(string, string)>,
                  k0: string, v0: string, k1: string, v1: string, k2: string, v2: string)
    requires |parts| == 3
    requires pair(parts[0]) == Some((k0, v0)) && pair(parts[1]) == Some((k1, v1)) && pair(parts[2]) == Some((k2, v2))
    ensures Fill(parts, pair) == map[k0 := v0, k1 := v1, k2 := v2]
  {
    assert parts[..1][..0] == [] && parts[..1][0] == parts[0];
    assert Fill(parts[..1], pair) == map[k0 := v0];
    assert parts[..2][..1] == parts[..1] && parts[..2][1] == parts[1];
    assert Fill(parts[..2], pair) == map[k0 := v0, k1 := v1];
    assert parts[..3] == parts;
  }

  lemma ExampleParts(s: string, a: string, b: string, c: string)
    requires a == "ID" + "=" + "gene01" && b == "Name" + "=" + "EDEN" && c == "Note" + "=" + "Something"
    requires s == a + ";" + b + ";" + c
    ensures Parts(s) == [a, b, c]
  {
    ThreeParts(s, a, b, c);
  }

  lemma ExamplePairs(a: string, b: string, c: string)
    requires a == "ID" + "=" + "gene01" && b == "Name" + "=" + "EDEN" && c == "Note" + "=" + "Something"
    ensures Pair(a) == Some(("ID", "gene01")) && Pair(b) == Some(("Name", "EDEN")) && Pair(c) == Some(("Note", "Something"))
  {
    var k0, v0, k1, v1, k2, v2 := "ID", "gene01", "Name", "EDEN", "Note", "Something";
    PlainPair(k0, v0);
    PlainPair(k1, v1);
    PlainPair(k2, v2);
  }

  /** The documentation's example: `ID=gene01;Name=EDEN;Note=Something` gives three attributes. */
  lemma ExampleAttributes(s: string)
    requires s == "ID" + "=" + "gene01" + ";" + "Name" + "=" + "EDEN" + ";" + "Note" + "=" + "Something"
    ensures ParsedAttributes(s) == map["ID" := "gene01", "Name" := "EDEN", "Note" := "Something"]
  {
    var a, b, c := "ID" + "=" + "gene01", "Name" + "=" + "EDEN", "Note" + "=" + "Something";
    assert s == a + ";" + b + ";" + c;
    assert s != [] && s != "." by { assert |s| > 1; }
    ExampleParts(s, a, b, c);
    ExamplePairs(a, b, c);
    FillThree([a, b, c], Pair, "ID", "gene01", "Name", "EDEN", "Note", "Something");
  }

  // The fallback chains of lines 88-90

  /** `attrs.get(keys[0], attrs.get(keys[1], ... default))`: the value of the first key present. */
  function FirstPresent(attrs: Attributes, keys: seq<string>, default: string): string
    decreases |keys|
  {
    if keys == [] then default
    else if keys[0] in attrs then attrs[keys[0]]
    else FirstPresent(attrs, keys[1..], default)
  }

  /**
   * A chain yields the value of its first key that is present, even when
   * that value is empty, and the default exactly when no key is present.
   */
  lemma {:induction false} FirstPresentSpec(attrs: Attributes, keys: seq<string>, default: string, i: nat)
    requires i < |keys| && keys[i] in attrs
    requires forall j :: 0 <= j < i ==> keys[j] !in attrs
    ensures FirstPresent(attrs, keys, default) == attrs[keys[i]]
    decreases i
  {
    if i > 0 {
      FirstPresentSpec(attrs, keys[1..], default, i - 1);
    }
  }

  lemma {:induction false} FirstPresentDefault(attrs: Attributes, keys: seq<string>, default: string)
    ensures FirstPresent(attrs, keys, default) == default <==>
            (forall j :: 0 <= j < |keys| ==> keys[j] !in attrs) ||
            (exists i :: 0 <= i < |keys| && keys[i] in attrs && attrs[keys[i]] == default &&
                         forall j :: 0 <= j < i ==> keys[j] !in attrs)
    decreases |keys|
  {
    if keys != [] {
      FirstPresentDefault(attrs, keys[1..], default);
      var rest := keys[1..];
      if exists i :: 0 <= i < |rest| && rest[i] in attrs && attrs[rest[i]] == default &&
                     forall j :: 0 <= j < i ==> rest[j] !in attrs {
        var i :| 0 <= i < |rest| && rest[i] in attrs && attrs[rest[i]] == default &&
                 forall j :: 0 <= j < i ==> rest[j] !in attrs;
        assert keys[i + 1] == rest[i];
        if keys[0] !in attrs {
          assert forall j :: 0 <= j < i + 1 ==> keys[j] !in attrs by {
            forall j | 0 <= j < i + 1 ensures keys[j] !in attrs {
              if j > 0 { assert keys[j] == rest[j - 1]; }
            }
          }
        }
      }
      if exists i :: 0 <= i < |keys| && keys[i] in attrs && attrs[keys[i]] == default &&
                     forall j :: 0 <= j < i ==> keys[j] !in attrs {
        var i :| 0 <= i < |keys| && keys[i] in attrs && attrs[keys[i]] == default &&
                 forall j :: 0 <= j < i ==> keys[j] !in attrs;
        if i > 0 {
          assert rest[i - 1] == keys[i];
          assert forall j :: 0 <= j < i - 1 ==> rest[j] !in attrs by {
            forall j | 0 <= j < i - 1 ensures rest[j] !in attrs {
              assert rest[j] == keys[j + 1];
            }
          }
        }
      }
      if forall j :: 0 <= j < |rest| ==> rest[j] !in attrs {
        if keys[0] !in attrs {
          forall j | 0 <= j < |keys| ensures keys[j] !in attrs {
            if j > 0 { assert keys[j] == rest[j - 1]; }
          }
        }
      }
      if forall j :: 0 <= j < |keys| ==> keys[j] !in attrs {
        forall j | 0 <= j < |rest| ensures rest[j] !in attrs {
          assert rest[j] == keys[j + 1];
        }
      }
    }
  }

  const IdKeys := ["ID", "gene_id"]
  const NameKeys := ["Name", "gene_name", "symbol"]
  const DescriptionKeys := ["description", "Note", "product"]
  const Missing := "NA"

  function GeneIdOf(attrs: Attributes): string {
    FirstPresent(attrs, IdKeys, Missing)
  }

  function GeneNameOf(attrs: Attributes): string {
    FirstPresent(attrs, NameKeys, Missing)
  }

  /**
   * The description, URL-decoded by `unquote` (`urllib.parse.unquote`, which is
   * not part of this model) unless it is the placeholder `NA`.
   */
  function DescriptionOf(attrs: Attributes, unquote: string -> string): string {
    var d := FirstPresent(attrs, DescriptionKeys, Missing);
    if d != Missing then unquote(d) else d
  }

  /** `ID`, then `gene_id`, then `NA`. */
  lemma GeneIdChain(attrs: Attributes)
    ensures "ID" in attrs ==> GeneIdOf(attrs) == attrs["ID"]
    ensures "ID" !in attrs && "gene_id" in attrs ==> GeneIdOf(attrs) == attrs["gene_id"]
    ensures "ID" !in attrs && "gene_id" !in attrs ==> GeneIdOf(attrs) == Missing
  {
    if "ID" in attrs {
      FirstPresentSpec(attrs, IdKeys, Missing, 0);
    } else if "gene_id" in attrs {
      FirstPresentSpec(attrs, IdKeys, Missing, 1);
    } else {
      FirstPresentDefault(attrs, IdKeys, Missing);
    }
  }

  /** `Name`, then `gene_name`, then `symbol`, then `NA`. */
  lemma GeneNameChain(attrs: Attributes)
    ensures "Name" in attrs ==> GeneNameOf(attrs) == attrs["Name"]
    ensures "Name" !in attrs && "gene_name" in attrs ==> GeneNameOf(attrs) == attrs["gene_name"]
    ensures "Name" !in attrs && "gene_name" !in attrs && "symbol" in attrs ==> GeneNameOf(attrs) == attrs["symbol"]
    ensures "Name" !in attrs && "gene_name" !in attrs && "symbol" !in attrs ==> GeneNameOf(attrs) == Missing
  {
    if "Name" in attrs {
      FirstPresentSpec(attrs, NameKeys, Missing, 0);
    } else if "gene_name" in attrs {
      FirstPresentSpec(attrs, NameKeys, Missing, 1);
    } else if "symbol" in attrs {
      FirstPresentSpec(attrs, NameKeys, Missing, 2);
    } else {
      FirstPresentDefault(attrs, NameKeys, Missing);
    }
  }

  /**
   * `description`, then `Note`, then `product`; decoded unless it is `NA`, in
   * which case it is left as it is, and `NA` when none is present.
   */
  lemma DescriptionChain(attrs: Attributes, unquote: string -> string)
    ensures "description" in attrs && attrs["description"] != Missing ==>
              DescriptionOf(attrs, unquote) == unquote(attrs["description"])
    ensures "description" !in attrs && "Note" in attrs && attrs["Note"] != Missing ==>
              DescriptionOf(attrs, unquote) == unquote(attrs["Note"])
    ensures "description" !in attrs && "Note" !in attrs && "product" in attrs && attrs["product"] != Missing ==>
              DescriptionOf(attrs, unquote) == unquote(attrs["product"])
    ensures "description" !in attrs && "Note" !in attrs && "product" !in attrs ==>
              DescriptionOf(attrs, unquote) == Missing
    ensures "description" in attrs && attrs["description"] == Missing ==>
              DescriptionOf(attrs, unquote) == Missing
    ensures "description" !in attrs && "Note" in attrs && attrs["Note"] == Missing ==>
              DescriptionOf(attrs, unquote) == Missing
    ensures "description" !in attrs && "Note" !in attrs && "product" in attrs && attrs["product"] == Missing ==>
              DescriptionOf(attrs, unquote) == Missing
  {
    if "description" in attrs {
      FirstPresentSpec(attrs, DescriptionKeys, Missing, 0);
    } else if "Note" in attrs {
      FirstPresentSpec(attrs, DescriptionKeys, Missing, 1);
    } else if "product" in attrs {
      FirstPresentSpec(attrs, DescriptionKeys, Missing, 2);
    } else {
      FirstPresentDefault(attrs, DescriptionKeys, Missing);
    }
  }

  // The loop of `extract_gene_info`, lines 57-97

  /** The columns `csv.writer` writes first (line 42). */
  const Headers := ["GeneID", "GeneName", "Chrom", "Start", "End", "Strand", "Type", "Description"]

  /** The fewest tab-separated columns a feature line needs. */
  const MinColumns := 9

  /**
   * The row written for one line, if any: none for a `#` line or a blank line
   * (tested on the line as read), for fewer than nine columns or for another
   * feature type (tested on the stripped line); otherwise the ID, the name,
   * columns 1, 4, 5, 7 and 3, and the description.
   */
  function RowOf(line: string, target: string, unquote: string -> string): Option<seq<string>> {
    if StartsWith(line, "#") || Strip(line) == [] then None
    else
      var cols := Split(Strip(line), '\t');
      if |cols| < MinColumns || cols[2] != target then None
      else
        var attrs := ParsedAttributes(cols[8]);
        Some([GeneIdOf(attrs), GeneNameOf(attrs), cols[0], cols[3], cols[4], cols[6], cols[2],
              DescriptionOf(attrs, unquote)])
  }

  /** The rows written for `lines`, in order. */
  function Rows(lines: seq<string>, target: string, unquote: string -> string): seq<seq<string>>
    decreases |lines|
  {
    if lines == [] then []
    else
      var init := Rows(lines[..|lines| - 1], target, unquote);
      Extend(init, RowOf(lines[|lines| - 1], target, unquote))
  }

  /** The rows so far, followed by the row of the next line if it has one. */
  function Extend(rows: seq<seq<string>>, row: Option<seq<string>>): seq<seq<string>> {
    if row.Some? then rows + [row.value] else rows
  }

  lemma RowsSnoc(lines: seq<string>, i: nat, target: string, unquote: string -> string)
    requires i < |lines|
    ensures Rows(lines[..i + 1], target, unquote) == Extend(Rows(lines[..i], target, unquote), RowOf(lines[i], target, unquote))
  {
    assert lines[..i + 1][..i] == lines[..i];
  }

  /**
   * The body of the loop of `extract_gene_info` for one line: the row handed
   * to `csv.writer`, if any.
   */
  method FeatureRow(line: string, target: string, unquote: string -> string) returns (row: Option<seq<string>>)
    ensures row == RowOf(line, target, unquote)
  {
    if StartsWith(line, "#") || Strip(line) == [] {
      return None;
    }
    var cols := Split(Strip(line), '\t');
    if |cols| < MinColumns || cols[2] != target {
      return None;
    }
    var attributes := ParseAttributes(cols[8]);
    var geneId := GeneIdOf(attributes);
    var geneName := GeneNameOf(attributes);
    var description := DescriptionOf(attributes, unquote);
    row := Some([geneId, geneName, cols[0], cols[3], cols[4], cols[6], cols[2], description]);
  }

  /**
   * `extract_gene_info` without its files: the rows handed to `csv.writer`,
   * header first, and the counters `count` and `line_count`.
   */
  method ExtractGeneInfo(lines: seq<string>, target: string, unquote: string -> string)
    returns (out: seq<seq<string>>, count: nat, lineCount: nat)
    ensures out == [Headers] + Rows(lines, target, unquote)
    ensures count == |Rows(lines, target, unquote)| && count + 1 == |out|
    ensures lineCount == |lines|
  {
    out := [Headers];
    count, lineCount := 0, 0;
    ghost var rows: seq<seq<string>> := [];
    var i := 0;
    while i < |lines|
      invariant i <= |lines| && lineCount == i
      invariant rows == Rows(lines[..i], target, unquote)
      invariant out == [Headers] + rows && count == |rows|
    {
      RowsSnoc(lines, i, target, unquote);
      lineCount := lineCount + 1;
      var row := FeatureRow(lines[i], target, unquote);
      if row.Some? {
        AppendAssoc([Headers], rows, [row.value]);
        out := out + [row.value];
        count := count + 1;
      }
      rows := Extend(rows, row);
      i := i + 1;
    }
    assert lines[..i] == lines;
  }

  // Properties of the filter

  /**
   * A line yields no row exactly when it starts with `#`, is blank, has fewer
   * than nine columns, or has a column 3 other than the target type.
   */
  lemma NoRowIff(line: string, target: string, unquote: string -> string)
    ensures RowOf(line, target, unquote).None? <==>
            || StartsWith(line, "#")
            || (forall i :: 0 <= i < |line| ==> IsSpace(line[i]))
            || Count(Strip(line), '\t') < MinColumns - 1
            || Split(Strip(line), '\t')[2] != target
  {
    StripSpec(line);
  }

  /** Every row has eight fields, and its type field is the target type. */
  lemma RowShape(line: string, target: string, unquote: string -> string)
    requires RowOf(line, target, unquote).Some?
    ensures var row := RowOf(line, target, unquote).value;
            |row| == |Headers| && row[6] == target
  {
  }

  /**
   * A feature line as a file holds it: nine or more tab-free columns, the
   * first neither empty nor starting with `#` or whitespace, the last not
   * ending in whitespace, then the line's terminator. Its row takes the ID,
   * name and description from column 9 and the place from columns 1, 4, 5, 7.
   */
  lemma RowOfColumns(columns: seq<string>, ending: string, target: string, unquote: string -> string)
    requires |columns| >= MinColumns && columns[2] == target
    requires forall j :: 0 <= j < |columns| ==> '\t' !in columns[j]
    requires columns[0] != [] && columns[0][0] != '#' && !IsSpace(columns[0][0])
    requires var last := columns[|columns| - 1]; last != [] && !IsSpace(last[|last| - 1])
    requires forall i :: 0 <= i < |ending| ==> IsSpace(ending[i])
    ensures var attrs := ParsedAttributes(columns[8]);
            RowOf(Join(columns, '\t') + ending, target, unquote) ==
            Some([GeneIdOf(attrs), GeneNameOf(attrs), columns[0], columns[3], columns[4], columns[6], target,
                  DescriptionOf(attrs, unquote)])
  {
    var text := Join(columns, '\t');
    var line := text + ending;
    JoinEnds(columns, '\t');
    StripTrailing(text, ending);
    assert line[0] == text[0];
    NotStartsWith(line, "#", 0);
    SplitJoin(columns, '\t');
  }

  /** Reading two pieces of a file one after the other writes the rows of the first, then those of the second. */
  lemma {:induction false} RowsAppend(a: seq<string>, b: seq<string>, target: string, unquote: string -> string)
    ensures Rows(a + b, target, unquote) == Rows(a, target, unquote) + Rows(b, target, unquote)
    decreases |b|
  {
    if b == [] {
      assert a + b == a;
      AppendEmpty(Rows(a, target, unquote));
    } else {
      var c := b[..|b| - 1];
      RowsLast(a, b, target, unquote);
      RowsAppend(a, c, target, unquote);
      match RowOf(b[|b| - 1], target, unquote)
      case None =>
      case Some(row) =>
        AppendAssoc(Rows(a, target, unquote), Rows(c, target, unquote), [row]);
    }
  }

  lemma RowsLast(a: seq<string>, b: seq<string>, target: string, unquote: string -> string)
    requires b != []
    ensures Rows(a + b, target, unquote) == Extend(Rows(a + b[..|b| - 1], target, unquote), RowOf(b[|b| - 1], target, unquote))
  {
    assert (a + b)[..|a + b| - 1] == a + b[..|b| - 1];
    assert (a + b)[|a + b| - 1] == b[|b| - 1];
  }

  /** Each row comes from a line of the right type: there are never more rows than lines. */
  lemma {:induction false} RowsBound(lines: seq<string>, target: string, unquote: string -> string)
    ensures |Rows(lines, target, unquote)| <= |lines|
    ensures forall k :: 0 <= k < |Rows(lines, target, unquote)| ==>
              |Rows(lines, target, unquote)[k]| == |Headers| && Rows(lines, target, unquote)[k][6] == target
    decreases |lines|
  {
    if lines != [] {
      RowsBound(lines[..|lines| - 1], target, unquote);
    }
  }
}
