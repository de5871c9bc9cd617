/**
 * The ontology indexer of scripts/GAF2GO/obo2go.py (`parse_obo`): a scan over
 * the lines of an OBO 1.4 flat file that is either inside or outside a
 * `[Term]` stanza, collects the stanza's `id`, `name`, `namespace` and
 * `alt_id` tags, and on the blank line that ends the stanza stores the primary
 * id and every alt_id in the index, all mapped to `(namespace, name)`.
 */
module OboIndexer {
  import opened Wrappers
  import opened PyStr
  import opened Seqs

  /** The tuple `(namespace, name)` every indexed identifier maps to. */
  datatype GoInfo = GoInfo(namespace: string, name: string)

  /** `go_data`: identifier (primary or alt) to its term's pair. */
  type GoIndex = map<string, GoInfo>

  /** `current_term`: the scalar tags seen so far in the open stanza. */
  datatype Term = Term(id: Option<string>, name: Option<string>, namespace: Option<string>, obsolete: bool)

  const EmptyTerm := Term(None, None, None, false)

  /** The loop state of `parse_obo`: `in_term`, `current_term`, `current_alt_ids`, `go_data`. */
  datatype Parser = Parser(inTerm: bool, term: Term, altIds: seq<string>, goData: GoIndex)

  const Start := Parser(false, EmptyTerm, [], map[])

  /** `line.split(' ', 1)[1]` raised IndexError: a tag line of the open stanza has no space. */
  datatype OboError = NoValue(line: string)

  /** The text after the first space, or None where the source raises IndexError. */
  function ValueOf(line: string): (r: Option<string>)
    ensures r.None? <==> ' ' !in line
    ensures r.Some? ==> SplitOnce(line, ' ').Some? && r.value == SplitOnce(line, ' ').value.1
  {
    match SplitOnce(line, ' ')
    case None => None
    case Some(pair) => Some(pair.1)
  }

  /** The stanza holds the three tags an entry needs. */
  predicate Complete(t: Term) {
    t.id.Some? && t.name.Some? && t.namespace.Some?
  }

  /** The pair a complete stanza is indexed under. */
  function InfoOf(t: Term): GoInfo
    requires Complete(t)
  {
    GoInfo(t.namespace.value, t.name.value)
  }

  /** `for alt_id in ids: go_data[alt_id] = info` */
  function StoreAll(m: GoIndex, ids: seq<string>, info: GoInfo): (r: GoIndex)
    ensures r.Keys == m.Keys + set k | k in ids
    ensures forall k :: k in r ==> r[k] == if k in ids then info else m[k]
    decreases |ids|
  {
    if ids == [] then m
    else
      var before := StoreAll(m, ids[..|ids| - 1], info);
      assert forall k :: k in ids <==> k in ids[..|ids| - 1] || k == ids[|ids| - 1];
      before[ids[|ids| - 1] := info]
  }

  /**
   * The flush at the blank line ending a stanza: a complete stanza maps its
   * primary id and each alt_id to its pair, overwriting earlier entries for
   * those identifiers and leaving all others alone; an incomplete stanza
   * changes nothing.
   */
  function Flush(m: GoIndex, t: Term, altIds: seq<string>): (r: GoIndex)
    ensures !Complete(t) ==> r == m
    ensures Complete(t) ==>
      && r.Keys == m.Keys + {t.id.value} + (set k | k in altIds)
      && r[t.id.value] == InfoOf(t)
      && (forall k :: k in altIds ==> r[k] == InfoOf(t))
      && (forall k :: k in m && k != t.id.value && k !in altIds ==> r[k] == m[k])
  {
    if Complete(t) then StoreAll(m[t.id.value := InfoOf(t)], altIds, InfoOf(t)) else m
  }

  /** One line inside a stanza that is neither `[Term]` nor blank. */
  function TagLine(p: Parser, line: string): Result<Parser, OboError>
  {
    if StartsWith(line, "id:") then
      match ValueOf(line)
      case None => Failure(NoValue(line))
      case Some(v) => Success(p.(term := p.term.(id := Some(v))))
    else if StartsWith(line, "name:") then
      match ValueOf(line)
      case None => Failure(NoValue(line))
      case Some(v) => Success(p.(term := p.term.(name := Some(v))))
    else if StartsWith(line, "namespace:") then
      match ValueOf(line)
      case None => Failure(NoValue(line))
      case Some(v) => Success(p.(term := p.term.(namespace := Some(v))))
    else if StartsWith(line, "is_obsolete: true") then
      Success(p.(term := p.term.(obsolete := true)))
    else if StartsWith(line, "alt_id:") then
      match ValueOf(line)
      case None => Failure(NoValue(line))
      case Some(v) => Success(p.(altIds := p.altIds + [v]))
    else
      Success(p)
  }

  /** One iteration of the loop of `parse_obo` on a raw line. */
  function Step(p: Parser, raw: string): Result<Parser, OboError>
  {
    var line := Strip(raw);
    if line == "[Term]" then Success(Parser(true, EmptyTerm, [], p.goData))
    else if line == "" && p.inTerm then Success(p.(inTerm := false, goData := Flush(p.goData, p.term, p.altIds)))
    else if p.inTerm then TagLine(p, line)
    else Success(p)
  }

  /** The loop of `parse_obo` from state `p`; the first IndexError ends it. */
  function Run(p: Parser, lines: seq<string>): Result<Parser, OboError>
    decreases |lines|
  {
    if lines == [] then Success(p)
    else
      match Run(p, lines[..|lines| - 1])
      case Failure(e) => Failure(e)
      case Success(q) => Step(q, lines[|lines| - 1])
  }

  /** What `parse_obo` returns for a file with these lines. */
  function OboIndex(lines: seq<string>): Result<GoIndex, OboError>
  {
    match Run(Start, lines)
    case Failure(e) => Failure(e)
    case Success(p) => Success(p.goData)
  }

  /** Running over two pieces of input is running over the first, then the second from where it stopped. */
  lemma {:induction false} RunAppend(p: Parser, a: seq<string>, b: seq<string>)
    ensures Run(p, a).Failure? ==> Run(p, a + b) == Run(p, a)
    ensures Run(p, a).Success? ==> Run(p, a + b) == Run(Run(p, a).value, b)
    decreases |b|
  {
    if b == [] {
      assert a + b == a;
    } else {
      var n := |b|;
      assert (a + b)[..|a + b| - 1] == a + b[..n - 1];
      assert (a + b)[|a + b| - 1] == b[n - 1];
      RunAppend(p, a, b[..n - 1]);
    }
  }

  /** One more line of input is one more step of the parse. */
  lemma RunPrefix(p: Parser, lines: seq<string>, i: nat)
    requires i < |lines|
    ensures Run(p, lines[..i]).Failure? ==> Run(p, lines[..i + 1]) == Run(p, lines[..i])
    ensures Run(p, lines[..i]).Success? ==> Run(p, lines[..i + 1]) == Step(Run(p, lines[..i]).value, lines[i])
  {
    assert lines[..i + 1][..i] == lines[..i];
  }

  /** The tag dispatch of `parse_obo` for one stripped line inside a stanza. */
  method ApplyTag(p: Parser, line: string) returns (r: Result<Parser, OboError>)
    ensures r == TagLine(p, line)
  {
    var term := p.term;
    var altIds := p.altIds;
    if StartsWith(line, "id:") {
      var v := ValueOf(line);
      if v.None? {
        return Failure(NoValue(line));
      }
      term := term.(id := Some(v.value));
    } else if StartsWith(line, "name:") {
      var v := ValueOf(line);
      if v.None? {
        return Failure(NoValue(line));
      }
      term := term.(name := Some(v.value));
    } else if StartsWith(line, "namespace:") {
      var v := ValueOf(line);
      if v.None? {
        return Failure(NoValue(line));
      }
      term := term.(namespace := Some(v.value));
    } else if StartsWith(line, "is_obsolete: true") {
      term := term.(obsolete := true);
    } else if StartsWith(line, "alt_id:") {
      var v := ValueOf(line);
      if v.None? {
        return Failure(NoValue(line));
      }
      altIds := altIds + [v.value];
    }
    r := Success(p.(term := term, altIds := altIds));
  }

  /** The store of a finished stanza into `go_data`, primary id first, then each alt_id in order. */
  method FlushInto(goData: GoIndex, term: Term, altIds: seq<string>) returns (g: GoIndex)
    ensures g == Flush(goData, term, altIds)
  {
    g := goData;
    if Complete(term) {
      var info := GoInfo(term.namespace.value, term.name.value);
      g := g[term.id.value := info];
      ghost var withPrimary := g;
      var j := 0;
      while j < |altIds|
        invariant 0 <= j <= |altIds|
        invariant g == StoreAll(withPrimary, altIds[..j], info)
      {
        assert altIds[..j + 1][..j] == altIds[..j];
        g := g[altIds[j] := info];
        j := j + 1;
      }
      assert altIds[..j] == altIds;
    }
  }

  /**
   * `parse_obo` over lines given as a sequence; the state `p` holds the
   * source's locals `in_term`, `current_term`, `current_alt_ids` and `go_data`.
   */
  method ParseObo(lines: seq<string>) returns (r: Result<GoIndex, OboError>)
    ensures r == OboIndex(lines)
  {
    var p := Start;
    var i := 0;
    while i < |lines|
      invariant 0 <= i <= |lines|
      invariant Run(Start, lines[..i]) == Success(p)
    {
      RunPrefix(Start, lines, i);
      var line := Strip(lines[i]);
      if line == "[Term]" {
        p := Parser(true, EmptyTerm, [], p.goData);
      } else if line == "" && p.inTerm {
        var g := FlushInto(p.goData, p.term, p.altIds);
        p := p.(inTerm := false, goData := g);
      } else if p.inTerm {
        var res := ApplyTag(p, line);
        if res.Failure? {
          FailureSticks(lines, i, res.error);
          return Failure(res.error);
        }
        p := res.value;
      }
      i := i + 1;
    }
    assert lines[..i] == lines;
    r := Success(p.goData);
  }

  /** An IndexError on line `i` ends the whole parse with that error. */
  lemma FailureSticks(lines: seq<string>, i: nat, e: OboError)
    requires i < |lines|
    requires Run(Start, lines[..i]).Success?
    requires Step(Run(Start, lines[..i]).value, lines[i]) == Failure(e)
    ensures OboIndex(lines) == Failure(e)
  {
    RunPrefix(Start, lines, i);
    RunAppend(Start, lines[..i + 1], lines[i + 1..]);
    assert lines[..i + 1] + lines[i + 1..] == lines;
  }

  // Lines as read from a file

  /** Two inputs whose lines are the same text once stripped, line by line. */
  predicate SameText(a: seq<string>, b: seq<string>) {
    |a| == |b| && forall i :: 0 <= i < |a| ==> Strip(a[i]) == Strip(b[i])
  }

  /** Each line followed by the line end `end`, as `for line in f` yields it. */
  function WithEnding(lines: seq<string>, end: string): (r: seq<string>)
    ensures |r| == |lines| && forall i :: 0 <= i < |lines| ==> r[i] == lines[i] + end
  {
    seq(|lines|, i requires 0 <= i < |lines| => lines[i] + end)
  }

  /** A whitespace line end, such as `"\n"` or `"\r\n"`, leaves every line the same text. */
  lemma EndingSameText(lines: seq<string>, end: string)
    requires forall k :: 0 <= k < |end| ==> IsSpace(end[k])
    ensures SameText(WithEnding(lines, end), lines)
  {
    forall i | 0 <= i < |lines|
      ensures Strip(WithEnding(lines, end)[i]) == Strip(lines[i])
    {
      StripIgnoresTrailing(lines[i], end);
    }
  }

  /** The loop strips each line first, so a line and its stripped text are one step. */
  lemma StepStrip(p: Parser, raw: string)
    ensures Step(p, raw) == Step(p, Strip(raw))
  {
    StripIdempotent(raw);
  }

  /** Inputs that are the same text line by line are parsed alike from any state. */
  lemma {:induction false} RunSameText(p: Parser, a: seq<string>, b: seq<string>)
    requires SameText(a, b)
    ensures Run(p, a) == Run(p, b)
    decreases |a|
  {
    if a != [] {
      var n := |a| - 1;
      assert SameText(a[..n], b[..n]);
      RunSameText(p, a[..n], b[..n]);
      if Run(p, a[..n]).Success? {
        StepStrip(Run(p, a[..n]).value, a[n]);
        StepStrip(Run(p, a[..n]).value, b[n]);
      }
    }
  }

  /** Replacing a stretch of the input by the same text changes nothing the indexer returns. */
  lemma OboIndexSameText(pre: seq<string>, a: seq<string>, b: seq<string>, post: seq<string>)
    requires SameText(a, b)
    ensures OboIndex(pre + a + post) == OboIndex(pre + b + post)
  {
    var x, y := pre + a + post, pre + b + post;
    forall i | 0 <= i < |x|
      ensures Strip(x[i]) == Strip(y[i])
    {
      if i < |pre| {
        assert x[i] == pre[i] == y[i];
      } else if i < |pre| + |a| {
        assert x[i] == a[i - |pre|] && y[i] == b[i - |pre|];
      } else {
        assert x[i] == post[i - |pre| - |a|] == y[i];
      }
    }
    RunSameText(Start, x, y);
  }

  /** The same, for a stretch that ends the input. */
  lemma SameTextAfter(pre: seq<string>, a: seq<string>, b: seq<string>)
    requires SameText(a, b)
    ensures OboIndex(pre + a) == OboIndex(pre + b)
  {
    OboIndexSameText(pre, a, b, []);
    assert pre + a + [] == pre + a;
    assert pre + b + [] == pre + b;
  }

  /** Whatever whitespace line end each line of a file keeps, the index is that of the bare lines. */
  lemma EndingsIgnored(lines: seq<string>, end: string)
    requires forall k :: 0 <= k < |end| ==> IsSpace(end[k])
    ensures OboIndex(WithEnding(lines, end)) == OboIndex(lines)
  {
    EndingSameText(lines, end);
    OboIndexSameText([], WithEnding(lines, end), lines, []);
    assert [] + WithEnding(lines, end) + [] == WithEnding(lines, end);
    assert [] + lines + [] == lines;
  }

  // Stanzas as they are written in a file

  /**
   * One line of a `[Term]` stanza: one of the five tags the indexer reads,
   * with its value, or any other line of the stanza (`def:`, `is_a:`,
   * `synonym:`, ...) as written.
   */
  datatype Entry =
    | IdTag(value: string)
    | NameTag(value: string)
    | NamespaceTag(value: string)
    | ObsoleteTag
    | AltIdTag(value: string)
    | Other(line: string)

  /** The lines of a stanza between its `[Term]` line and its blank line, in any order, repeats allowed. */
  type Stanza = seq<Entry>

  /** A value that survives `strip()` and `split(' ', 1)` of its line `tag: value` unchanged. */
  predicate ValueOk(v: string) {
    v != [] && !IsSpace(v[|v| - 1])
  }

  /** A line that the tag dispatch passes over: not blank, not `[Term]`, and starting with none of the five tags. */
  predicate Untagged(raw: string) {
    var line := Strip(raw);
    && line != [] && line != "[Term]"
    && !StartsWith(line, "id:") && !StartsWith(line, "name:") && !StartsWith(line, "namespace:")
    && !StartsWith(line, "is_obsolete: true") && !StartsWith(line, "alt_id:")
  }

  predicate EntryOk(e: Entry) {
    match e
    case IdTag(v) => ValueOk(v)
    case NameTag(v) => ValueOk(v)
    case NamespaceTag(v) => ValueOk(v)
    case ObsoleteTag => true
    case AltIdTag(v) => ValueOk(v)
    case Other(line) => Untagged(line)
  }

  predicate WellFormed(s: Stanza) {
    forall i :: 0 <= i < |s| ==> EntryOk(s[i])
  }

  /** The line an entry is written as. */
  function EntryLine(e: Entry): string {
    match e
    case IdTag(v) => "id: " + v
    case NameTag(v) => "name: " + v
    case NamespaceTag(v) => "namespace: " + v
    case ObsoleteTag => "is_obsolete: true"
    case AltIdTag(v) => "alt_id: " + v
    case Other(line) => line
  }

  function EntryLines(s: Stanza): seq<string>
    decreases |s|
  {
    if s == [] then [] else EntryLines(s[..|s| - 1]) + [EntryLine(s[|s| - 1])]
  }

  /** The lines of a stanza up to, not including, the blank line that ends it. */
  function StanzaLines(s: Stanza): seq<string> {
    ["[Term]"] + EntryLines(s)
  }

  /** A stanza followed by its terminating blank line. */
  function Block(s: Stanza): seq<string> {
    StanzaLines(s) + [""]
  }

  /** What one entry does to the scalar tags of the open stanza. */
  function SetTag(t: Term, e: Entry): Term {
    match e
    case IdTag(v) => t.(id := Some(v))
    case NameTag(v) => t.(name := Some(v))
    case NamespaceTag(v) => t.(namespace := Some(v))
    case ObsoleteTag => t.(obsolete := true)
    case AltIdTag(_) => t
    case Other(_) => t
  }

  /** The alt_id an entry adds, if it is an `alt_id:` line. */
  function AltOf(e: Entry): seq<string> {
    if e.AltIdTag? then [e.value] else []
  }

  /** The scalar tags after the entries of `s`, read in order from `t`. */
  function Absorb(t: Term, s: Stanza): Term
    decreases |s|
  {
    if s == [] then t else SetTag(Absorb(t, s[..|s| - 1]), s[|s| - 1])
  }

  /** `current_term` at the end of the stanza. */
  function TermOf(s: Stanza): Term {
    Absorb(EmptyTerm, s)
  }

  /** `current_alt_ids` at the end of the stanza. */
  function AltIdsOf(s: Stanza): seq<string>
    decreases |s|
  {
    if s == [] then [] else AltIdsOf(s[..|s| - 1]) + AltOf(s[|s| - 1])
  }

  // What a stanza's term and alt_ids are, stated without the fold

  /** The value an entry gives the scalar tag `tag` (`"id:"`, `"name:"` or `"namespace:"`), if any. */
  function TagValue(e: Entry, tag: string): Option<string> {
    match e
    case IdTag(v) => if tag == "id:" then Some(v) else None
    case NameTag(v) => if tag == "name:" then Some(v) else None
    case NamespaceTag(v) => if tag == "namespace:" then Some(v) else None
    case _ => None
  }

  /** The scalar tag `tag` of a term. */
  function Scalar(t: Term, tag: string): Option<string> {
    if tag == "id:" then t.id else if tag == "name:" then t.name else t.namespace
  }

  lemma ScalarSetTag(t: Term, e: Entry, tag: string)
    requires tag == "id:" || tag == "name:" || tag == "namespace:"
    ensures Scalar(SetTag(t, e), tag) == if TagValue(e, tag).Some? then TagValue(e, tag) else Scalar(t, tag)
  {
  }

  /** A scalar tag of a stanza is the value of the last line carrying it. */
  lemma {:induction false} LastTagWins(t: Term, s: Stanza, tag: string, i: nat)
    requires tag == "id:" || tag == "name:" || tag == "namespace:"
    requires i < |s| && TagValue(s[i], tag).Some?
    requires forall j :: i < j < |s| ==> TagValue(s[j], tag).None?
    ensures Scalar(Absorb(t, s), tag) == TagValue(s[i], tag)
    decreases |s|
  {
    ScalarSetTag(Absorb(t, s[..|s| - 1]), s[|s| - 1], tag);
    if i < |s| - 1 {
      LastTagWins(t, s[..|s| - 1], tag, i);
    }
  }

  /** A stanza without a line for a scalar tag leaves it as it was: absent in a fresh stanza. */
  lemma {:induction false} MissingTagKept(t: Term, s: Stanza, tag: string)
    requires tag == "id:" || tag == "name:" || tag == "namespace:"
    requires forall j :: 0 <= j < |s| ==> TagValue(s[j], tag).None?
    ensures Scalar(Absorb(t, s), tag) == Scalar(t, tag)
    decreases |s|
  {
    if s != [] {
      ScalarSetTag(Absorb(t, s[..|s| - 1]), s[|s| - 1], tag);
      MissingTagKept(t, s[..|s| - 1], tag);
    }
  }

  /** The alt_ids of a stanza are exactly the values of its `alt_id:` lines. */
  lemma {:induction false} AltIdsOfSpec(s: Stanza, k: string)
    ensures k in AltIdsOf(s) <==> exists i :: 0 <= i < |s| && s[i] == AltIdTag(k)
    decreases |s|
  {
    if s != [] {
      var init := s[..|s| - 1];
      AltIdsOfSpec(init, k);
      if k in AltIdsOf(init) {
        var i :| 0 <= i < |init| && init[i] == AltIdTag(k);
        assert s[i] == init[i];
      }
      if exists i :: 0 <= i < |s| && s[i] == AltIdTag(k) {
        var i :| 0 <= i < |s| && s[i] == AltIdTag(k);
        if i < |init| {
          assert init[i] == s[i];
        }
      }
    }
  }

  lemma RunSingle(p: Parser, line: string)
    ensures Run(p, [line]) == Step(p, line)
  {
    assert [line][..0] == [];
  }

  /** A line `head v`, `head` being `"id: "`, `"name: "`, ..., survives `strip()` and carries `v` after its first space. */
  lemma TaggedLine(head: string, v: string)
    requires |head| >= 2 && !IsSpace(head[0]) && head[|head| - 1] == ' ' && ' ' !in head[..|head| - 1]
    requires ValueOk(v)
    ensures Strip(head + v) == head + v
    ensures ValueOf(head + v) == Some(v)
  {
    var line := head + v;
    assert line[0] == head[0] && line[|line| - 1] == v[|v| - 1];
    StripNoOp(line);
    assert line == head[..|head| - 1] + [' '] + v;
    SplitOnceAt(head[..|head| - 1], ' ', v);
  }

  // Which branch of the tag dispatch a tag line takes

  lemma TagId(p: Parser, v: string)
    requires ValueOf("id: " + v) == Some(v)
    ensures TagLine(p, "id: " + v) == Success(p.(term := p.term.(id := Some(v))))
  {
    StartsWithConcat("id:", " " + v);
    assert "id: " + v == "id:" + (" " + v);
  }

  lemma TagName(p: Parser, v: string)
    requires ValueOf("name: " + v) == Some(v)
    ensures TagLine(p, "name: " + v) == Success(p.(term := p.term.(name := Some(v))))
  {
    var line := "name: " + v;
    NotStartsWith(line, "id:", 0);
    StartsWithConcat("name:", " " + v);
    assert line == "name:" + (" " + v);
  }

  lemma TagNamespace(p: Parser, v: string)
    requires ValueOf("namespace: " + v) == Some(v)
    ensures TagLine(p, "namespace: " + v) == Success(p.(term := p.term.(namespace := Some(v))))
  {
    var line := "namespace: " + v;
    NotStartsWith(line, "id:", 0);
    NotStartsWith(line, "name:", 4);
    StartsWithConcat("namespace:", " " + v);
    assert line == "namespace:" + (" " + v);
  }

  lemma TagObsolete(p: Parser)
    ensures TagLine(p, "is_obsolete: true") == Success(p.(term := p.term.(obsolete := true)))
  {
    var line := "is_obsolete: true";
    NotStartsWith(line, "id:", 1);
    NotStartsWith(line, "name:", 0);
    NotStartsWith(line, "namespace:", 0);
    StartsWithConcat(line, []);
    assert line + [] == line;
  }

  lemma TagAltId(p: Parser, v: string)
    requires ValueOf("alt_id: " + v) == Some(v)
    ensures TagLine(p, "alt_id: " + v) == Success(p.(altIds := p.altIds + [v]))
  {
    var line := "alt_id: " + v;
    NotStartsWith(line, "id:", 0);
    NotStartsWith(line, "name:", 0);
    NotStartsWith(line, "namespace:", 0);
    NotStartsWith(line, "is_obsolete: true", 0);
    StartsWithConcat("alt_id:", " " + v);
    assert line == "alt_id:" + (" " + v);
  }

  /** A tag line read inside a stanza is a tag line: not `[Term]`, not blank, unchanged by `strip()`. */
  lemma StepTagged(p: Parser, head: string, v: string)
    requires p.inTerm
    requires |head| >= 2 && head[0] != '[' && !IsSpace(head[0]) && head[|head| - 1] == ' ' && ' ' !in head[..|head| - 1]
    requires ValueOk(v)
    ensures Step(p, head + v) == TagLine(p, head + v)
    ensures ValueOf(head + v) == Some(v)
  {
    var line := head + v;
    NotStartsWith(line, "[Term]", 0);
    assert line[0] != "[Term]"[0];
    TaggedLine(head, v);
  }

  lemma StepId(p: Parser, v: string)
    requires p.inTerm && ValueOk(v)
    ensures Step(p, "id: " + v) == Success(p.(term := p.term.(id := Some(v))))
  {
    StepTagged(p, "id: ", v);
    TagId(p, v);
  }

  lemma StepName(p: Parser, v: string)
    requires p.inTerm && ValueOk(v)
    ensures Step(p, "name: " + v) == Success(p.(term := p.term.(name := Some(v))))
  {
    StepTagged(p, "name: ", v);
    TagName(p, v);
  }

  lemma StepNamespace(p: Parser, v: string)
    requires p.inTerm && ValueOk(v)
    ensures Step(p, "namespace: " + v) == Success(p.(term := p.term.(namespace := Some(v))))
  {
    StepTagged(p, "namespace: ", v);
    TagNamespace(p, v);
  }

  lemma StepObsolete(p: Parser)
    requires p.inTerm
    ensures Step(p, "is_obsolete: true") == Success(p.(term := p.term.(obsolete := true)))
  {
    StripNoOp("is_obsolete: true");
    TagObsolete(p);
  }

  lemma StepAltId(p: Parser, v: string)
    requires p.inTerm && ValueOk(v)
    ensures Step(p, "alt_id: " + v) == Success(p.(altIds := p.altIds + [v]))
  {
    StepTagged(p, "alt_id: ", v);
    TagAltId(p, v);
  }

  lemma StepTerm(p: Parser)
    ensures Step(p, "[Term]") == Success(Parser(true, EmptyTerm, [], p.goData))
  {
    StripNoOp("[Term]");
  }

  lemma StepBlank(p: Parser)
    requires p.inTerm
    ensures Step(p, "") == Success(p.(inTerm := false, goData := Flush(p.goData, p.term, p.altIds)))
  {
  }

  /** Running a list of lines that starts with a single line. */
  lemma RunCons(p: Parser, line: string, rest: seq<string>)
    ensures Step(p, line).Failure? ==> Run(p, [line] + rest) == Step(p, line)
    ensures Step(p, line).Success? ==> Run(p, [line] + rest) == Run(Step(p, line).value, rest)
  {
    RunAppend(p, [line], rest);
    RunSingle(p, line);
  }

  /** A line the dispatch passes over leaves the open stanza as it was. */
  lemma StepOther(p: Parser, raw: string)
    requires p.inTerm && Untagged(raw)
    ensures Step(p, raw) == Success(p)
  {
  }

  /** One well-formed entry, read inside a stanza. */
  lemma EntryStep(q: Parser, e: Entry)
    requires q.inTerm && EntryOk(e)
    ensures Step(q, EntryLine(e)) == Success(q.(term := SetTag(q.term, e), altIds := q.altIds + AltOf(e)))
  {
    match e
    case IdTag(v) => StepId(q, v); AppendEmpty(q.altIds);
    case NameTag(v) => StepName(q, v); AppendEmpty(q.altIds);
    case NamespaceTag(v) => StepNamespace(q, v); AppendEmpty(q.altIds);
    case ObsoleteTag => StepObsolete(q); AppendEmpty(q.altIds);
    case AltIdTag(v) => StepAltId(q, v);
    case Other(line) => StepOther(q, line); AppendEmpty(q.altIds);
  }

  /** The entries of a well-formed stanza, read inside it, set its tags and append its alt_ids. */
  lemma {:induction false} EntriesRun(q: Parser, s: Stanza)
    requires q.inTerm && WellFormed(s)
    ensures Run(q, EntryLines(s)) == Success(q.(term := Absorb(q.term, s), altIds := q.altIds + AltIdsOf(s)))
    decreases |s|
  {
    if s == [] {
      AppendEmpty(q.altIds);
    } else {
      var init, last := s[..|s| - 1], s[|s| - 1];
      assert WellFormed(init) by {
        forall i | 0 <= i < |init| ensures EntryOk(init[i]) {
          assert init[i] == s[i];
        }
      }
      EntriesRun(q, init);
      var q' := q.(term := Absorb(q.term, init), altIds := q.altIds + AltIdsOf(init));
      RunAppend(q, EntryLines(init), [EntryLine(last)]);
      EntryStep(q', last);
      RunSingle(q', EntryLine(last));
      AppendAssoc(q.altIds, AltIdsOf(init), AltOf(last));
    }
  }

  /** A `[Term]` line, in any state, opens an empty stanza. */
  lemma TermRun(p: Parser, rest: seq<string>)
    ensures Run(p, ["[Term]"] + rest) == Run(Parser(true, EmptyTerm, [], p.goData), rest)
  {
    StepTerm(p);
    RunCons(p, "[Term]", rest);
  }

  /** Whatever state the parse is in, a stanza's lines open a fresh stanza holding exactly its tags. */
  lemma StanzaOpens(p: Parser, s: Stanza)
    requires WellFormed(s)
    ensures Run(p, StanzaLines(s)) == Success(Parser(true, TermOf(s), AltIdsOf(s), p.goData))
  {
    TermRun(p, EntryLines(s));
    EntriesRun(Parser(true, EmptyTerm, [], p.goData), s);
    AppendEmpty(AltIdsOf(s));
  }

  /** Whatever state the parse is in, a stanza and its blank line flush exactly that stanza. */
  lemma StanzaFlushed(p: Parser, s: Stanza)
    requires WellFormed(s)
    ensures Run(p, Block(s)) ==
            Success(Parser(false, TermOf(s), AltIdsOf(s), Flush(p.goData, TermOf(s), AltIdsOf(s))))
  {
    var q := Parser(true, TermOf(s), AltIdsOf(s), p.goData);
    StanzaOpens(p, s);
    RunAppend(p, StanzaLines(s), [""]);
    StepBlank(q);
    RunSingle(q, "");
  }

  /** A stanza read after any input that parsed: its effect on the index is its flush. */
  lemma BlockAfter(pre: seq<string>, s: Stanza)
    requires WellFormed(s)
    ensures OboIndex(pre).Failure? ==> OboIndex(pre + Block(s)) == OboIndex(pre)
    ensures OboIndex(pre).Success? ==>
            OboIndex(pre + Block(s)) == Success(Flush(OboIndex(pre).value, TermOf(s), AltIdsOf(s)))
  {
    RunAppend(Start, pre, Block(s));
    if Run(Start, pre).Success? {
      StanzaFlushed(Run(Start, pre).value, s);
    }
  }

  /**
   * A complete stanza ended by a blank line maps its primary id and each of
   * its alt_ids to its `(namespace, name)`, and leaves every other entry of
   * the index as it was; lines other than the five tags play no part. The
   * stanza's lines, `lines`, may carry any whitespace around their text.
   */
  lemma CompleteStanzaIndexed(pre: seq<string>, s: Stanza, lines: seq<string>)
    requires WellFormed(s) && Complete(TermOf(s)) && SameText(lines, Block(s))
    requires OboIndex(pre).Success?
    ensures var m := OboIndex(pre).value;
            var r := OboIndex(pre + lines);
            var t := TermOf(s);
            var info := GoInfo(t.namespace.value, t.name.value);
            && r.Success?
            && r.value.Keys == m.Keys + {t.id.value} + (set k | k in AltIdsOf(s))
            && r.value[t.id.value] == info
            && (forall k :: k in AltIdsOf(s) ==> r.value[k] == info)
            && (forall k :: k in m && k != t.id.value && k !in AltIdsOf(s) ==> r.value[k] == m[k])
  {
    SameTextAfter(pre, lines, Block(s));
    BlockAfter(pre, s);
  }

  /** A stanza lacking `id`, `name` or `namespace` leaves the index exactly as it was. */
  lemma IncompleteStanzaIgnored(pre: seq<string>, s: Stanza, lines: seq<string>)
    requires WellFormed(s) && !Complete(TermOf(s)) && SameText(lines, Block(s))
    ensures OboIndex(pre + lines) == OboIndex(pre)
  {
    SameTextAfter(pre, lines, Block(s));
    BlockAfter(pre, s);
  }

  /** Two stanzas that claim an identifier, as primary id or alt_id: the later one's pair wins. */
  lemma LaterStanzaWins(pre: seq<string>, s1: Stanza, s2: Stanza, lines1: seq<string>, lines2: seq<string>, k: string)
    requires WellFormed(s1) && Complete(TermOf(s1)) && SameText(lines1, Block(s1))
    requires WellFormed(s2) && Complete(TermOf(s2)) && SameText(lines2, Block(s2))
    requires k == TermOf(s1).id.value || k in AltIdsOf(s1)
    requires k == TermOf(s2).id.value || k in AltIdsOf(s2)
    requires OboIndex(pre).Success?
    ensures OboIndex(pre + lines1).Success? && k in OboIndex(pre + lines1).value
    ensures OboIndex(pre + lines1).value[k] == InfoOf(TermOf(s1))
    ensures OboIndex(pre + lines1 + lines2).Success? && k in OboIndex(pre + lines1 + lines2).value
    ensures OboIndex(pre + lines1 + lines2).value[k] == InfoOf(TermOf(s2))
  {
    CompleteStanzaIndexed(pre, s1, lines1);
    CompleteStanzaIndexed(pre + lines1, s2, lines2);
  }

  /** A stanza that no blank line ends, at the end of the file, is never indexed. */
  lemma UnterminatedStanzaDropped(pre: seq<string>, s: Stanza, lines: seq<string>)
    requires WellFormed(s) && SameText(lines, StanzaLines(s))
    ensures OboIndex(pre + lines) == OboIndex(pre)
  {
    SameTextAfter(pre, lines, StanzaLines(s));
    RunAppend(Start, pre, StanzaLines(s));
    if Run(Start, pre).Success? {
      StanzaOpens(Run(Start, pre).value, s);
    }
  }

  /** A `[Term]` line discards the unterminated stanza before it, tags and alt_ids alike. */
  lemma TermLineDiscards(pre: seq<string>, s1: Stanza, s2: Stanza, lines1: seq<string>, lines2: seq<string>)
    requires WellFormed(s1) && SameText(lines1, StanzaLines(s1))
    requires WellFormed(s2) && SameText(lines2, Block(s2))
    ensures OboIndex(pre + lines1 + lines2) == OboIndex(pre + lines2)
  {
    OboIndexSameText(pre, lines1, StanzaLines(s1), lines2);
    OboIndexSameText(pre + StanzaLines(s1), lines2, Block(s2), []);
    assert pre + StanzaLines(s1) + lines2 + [] == pre + StanzaLines(s1) + lines2;
    assert pre + StanzaLines(s1) + Block(s2) + [] == pre + StanzaLines(s1) + Block(s2);
    SameTextAfter(pre, lines2, Block(s2));
    RunAppend(Start, pre + StanzaLines(s1), Block(s2));
    UnterminatedStanzaDropped(pre, s1, StanzaLines(s1));
    RunAppend(Start, pre, StanzaLines(s1));
    BlockAfter(pre, s2);
    if Run(Start, pre).Success? {
      StanzaOpens(Run(Start, pre).value, s1);
      StanzaFlushed(Run(Start, pre + StanzaLines(s1)).value, s2);
    }
  }

  /** Outside a stanza, lines other than `[Term]` change nothing, blank lines included. */
  lemma {:induction false} OutsideLinesInert(p: Parser, lines: seq<string>)
    requires !p.inTerm
    requires forall i :: 0 <= i < |lines| ==> Strip(lines[i]) != "[Term]"
    ensures Run(p, lines) == Success(p)
    decreases |lines|
  {
    if lines != [] {
      OutsideLinesInert(p, lines[..|lines| - 1]);
    }
  }

  /** Inside a stanza, `id:` takes the text after the first space of the stripped line. */
  lemma IdIsTextAfterFirstSpace(p: Parser, raw: string, before: string, v: string)
    requires p.inTerm
    requires Strip(raw) == before + " " + v && ' ' !in before && StartsWith(before, "id:")
    ensures Step(p, raw) == Success(p.(term := p.term.(id := Some(v))))
  {
    assert Strip(raw)[0] == 'i';
    assert Strip(raw)[..3] == before[..3];
    SplitOnceAt(before, ' ', v);
  }

  /** The scalar tag `tag` of a stanza set to `v`. */
  function WithTag(t: Term, tag: string, v: string): Term {
    if tag == "id:" then t.(id := Some(v))
    else if tag == "name:" then t.(name := Some(v))
    else t.(namespace := Some(v))
  }

  /** An `id:`, `name:` or `namespace:` line with a space sets that tag to the text after the space. */
  lemma TagLineSets(p: Parser, tag: string, line: string)
    requires tag == "id:" || tag == "name:" || tag == "namespace:"
    requires StartsWith(line, tag) && ' ' in line
    ensures TagLine(p, line) == Success(p.(term := WithTag(p.term, tag, ValueOf(line).value)))
  {
    assert line[..|tag|] == tag;
    if tag == "name:" {
      NotStartsWith(line, "id:", 0);
    } else if tag == "namespace:" {
      NotStartsWith(line, "id:", 0);
      NotStartsWith(line, "name:", 4);
    }
  }

  lemma StepSetsTag(p: Parser, tag: string, raw: string)
    requires tag == "id:" || tag == "name:" || tag == "namespace:"
    requires p.inTerm
    requires StartsWith(Strip(raw), tag) && ' ' in Strip(raw)
    ensures Step(p, raw) == Success(p.(term := WithTag(p.term, tag, ValueOf(Strip(raw)).value)))
  {
    var line := Strip(raw);
    assert line[0] == tag[0] by { assert line[..|tag|] == tag; }
    assert line != "[Term]" by { assert line[0] != "[Term]"[0]; }
    TagLineSets(p, tag, line);
  }

  /** Inside a stanza a second `id:`, `name:` or `namespace:` line overwrites the first. */
  lemma RepeatedTagOverwrites(p: Parser, tag: string, raw1: string, raw2: string)
    requires tag == "id:" || tag == "name:" || tag == "namespace:"
    requires p.inTerm
    requires StartsWith(Strip(raw1), tag) && ' ' in Strip(raw1)
    requires StartsWith(Strip(raw2), tag) && ' ' in Strip(raw2)
    ensures Run(p, [raw1, raw2]) == Run(p, [raw2])
  {
    var v1, v2 := ValueOf(Strip(raw1)).value, ValueOf(Strip(raw2)).value;
    var p1 := p.(term := WithTag(p.term, tag, v1));
    StepSetsTag(p, tag, raw1);
    StepSetsTag(p1, tag, raw2);
    StepSetsTag(p, tag, raw2);
    assert p1.(term := WithTag(p1.term, tag, v2)) == p.(term := WithTag(p.term, tag, v2));
    RunPair(p, raw1, raw2);
    RunSingle(p, raw2);
  }

  lemma RunPair(p: Parser, raw1: string, raw2: string)
    ensures Step(p, raw1).Success? ==> Run(p, [raw1, raw2]) == Step(Step(p, raw1).value, raw2)
  {
    RunCons(p, raw1, [raw2]);
    assert [raw1] + [raw2] == [raw1, raw2];
    if Step(p, raw1).Success? {
      RunSingle(Step(p, raw1).value, raw2);
    }
  }

  /** The tags whose value the source reads with `split(' ', 1)[1]`. */
  predicate ValueTag(tag: string) {
    tag == "id:" || tag == "name:" || tag == "namespace:" || tag == "alt_id:"
  }

  /** An `id:`, `name:`, `namespace:` or `alt_id:` line without a space raises IndexError. */
  lemma StepMissingValue(p: Parser, tag: string, raw: string)
    requires ValueTag(tag) && p.inTerm
    requires StartsWith(Strip(raw), tag) && ' ' !in Strip(raw)
    ensures Step(p, raw) == Failure(NoValue(Strip(raw)))
  {
    var line := Strip(raw);
    assert line[..|tag|] == tag;
    assert line != "[Term]" by { assert line[0] != "[Term]"[0]; }
    if tag == "name:" {
      NotStartsWith(line, "id:", 0);
    } else if tag == "namespace:" {
      NotStartsWith(line, "id:", 0);
      NotStartsWith(line, "name:", 4);
    } else if tag == "alt_id:" {
      NotStartsWith(line, "id:", 0);
      NotStartsWith(line, "name:", 0);
      NotStartsWith(line, "namespace:", 0);
      NotStartsWith(line, "is_obsolete: true", 0);
    }
  }

  /** Such a line, inside a stanza, aborts the parse with IndexError, whatever follows. */
  lemma MissingValueAborts(pre: seq<string>, s: Stanza, lines: seq<string>, tag: string, raw: string, post: seq<string>)
    requires OboIndex(pre).Success? && WellFormed(s) && SameText(lines, StanzaLines(s)) && ValueTag(tag)
    requires StartsWith(Strip(raw), tag) && ' ' !in Strip(raw)
    ensures OboIndex(pre + lines + [raw] + post) == Failure(NoValue(Strip(raw)))
  {
    OboIndexSameText(pre, lines, StanzaLines(s), [raw] + post);
    assert pre + lines + [raw] + post == pre + lines + ([raw] + post);
    assert pre + StanzaLines(s) + [raw] + post == pre + StanzaLines(s) + ([raw] + post);
    var q := Run(Start, pre).value;
    var q' := Parser(true, TermOf(s), AltIdsOf(s), q.goData);
    assert pre + StanzaLines(s) + [raw] + post == pre + (StanzaLines(s) + ([raw] + post));
    RunAppend(Start, pre, StanzaLines(s) + ([raw] + post));
    RunAppend(q, StanzaLines(s), [raw] + post);
    StanzaOpens(q, s);
    StepMissingValue(q', tag, raw);
    RunCons(q', raw, post);
  }

  /** The same ontology read from a file, every line still ending in its newline. */
  lemma ExampleOntologyAsRead(lines: seq<string>)
    requires lines == ["[Term]", "id: GO:0001", "name: x", "namespace: biological_process", "is_a: GO:0000", ""]
    ensures OboIndex(WithEnding(lines, "\n")) == Success(map["GO:0001" := GoInfo("biological_process", "x")])
  {
    ExampleOntology();
    EndingsIgnored(lines, "\n");
  }

  /** An ontology of one complete stanza, with a line the indexer does not read, indexes its one term. */
  lemma ExampleOntology()
    ensures OboIndex(["[Term]", "id: GO:0001", "name: x", "namespace: biological_process", "is_a: GO:0000", ""])
         == Success(map["GO:0001" := GoInfo("biological_process", "x")])
  {
    ExampleLines();
    IsALineUntagged("is_a: GO:0000");
    OneStanzaOntology("GO:0001", "x", "biological_process", "is_a: GO:0000");
  }

  /** The ontology made of one stanza of an id, a name, a namespace and one untagged line. */
  lemma OneStanzaOntology(id: string, name: string, namespace: string, other: string)
    requires ValueOk(id) && ValueOk(name) && ValueOk(namespace) && Untagged(other)
    ensures OboIndex(["[Term]", "id: " + id, "name: " + name, "namespace: " + namespace, other, ""])
         == Success(map[id := GoInfo(namespace, name)])
  {
    var s := ExampleStanza(id, name, namespace, other);
    BlockAfter([], s);
    assert [] + Block(s) == Block(s);
    assert Flush(map[], TermOf(s), []) == map[id := GoInfo(namespace, name)];
  }

  /** The folds over a stanza of four entries, one entry at a time. */
  lemma FourEntries(a: Entry, b: Entry, c: Entry, d: Entry)
    ensures EntryLines([a, b, c, d]) == [EntryLine(a), EntryLine(b), EntryLine(c), EntryLine(d)]
    ensures TermOf([a, b, c, d]) == SetTag(SetTag(SetTag(SetTag(EmptyTerm, a), b), c), d)
    ensures AltIdsOf([a, b, c, d]) == AltOf(a) + AltOf(b) + AltOf(c) + AltOf(d)
  {
    var s := [a, b, c, d];
    assert s[..1][..0] == [] && s[..2][..1] == s[..1] && s[..3][..2] == s[..2] && s[..|s| - 1] == s[..3];
    assert s[..1] == [a] && s[..2] == [a, b] && s[..3] == [a, b, c];
    assert EntryLines(s[..1]) == [EntryLine(a)];
    assert EntryLines(s[..2]) == [EntryLine(a), EntryLine(b)];
    assert EntryLines(s[..3]) == [EntryLine(a), EntryLine(b), EntryLine(c)];
    assert Absorb(EmptyTerm, s[..1][..0]) == EmptyTerm;
    assert Absorb(EmptyTerm, s[..1]) == SetTag(EmptyTerm, a);
    assert Absorb(EmptyTerm, s[..2]) == SetTag(SetTag(EmptyTerm, a), b);
    assert Absorb(EmptyTerm, s[..3]) == SetTag(SetTag(SetTag(EmptyTerm, a), b), c);
    assert AltIdsOf(s[..1]) == AltOf(a) by { assert [] + AltOf(a) == AltOf(a); }
    assert AltIdsOf(s[..2]) == AltOf(a) + AltOf(b);
    assert AltIdsOf(s[..3]) == AltOf(a) + AltOf(b) + AltOf(c);
  }

  /** The example's tag lines, each written out as its tag and its value. */
  lemma ExampleLines()
    ensures "id: " + "GO:0001" == "id: GO:0001"
    ensures "name: " + "x" == "name: x"
    ensures "namespace: " + "biological_process" == "namespace: biological_process"
  {
  }

  /** An `is_a:` line is one the tag dispatch passes over. */
  lemma IsALineUntagged(line: string)
    requires line == "is_a: GO:0000"
    ensures Untagged(line)
  {
    StripNoOp(line);
    NotStartsWith(line, "id:", 1);
    NotStartsWith(line, "name:", 0);
    NotStartsWith(line, "namespace:", 0);
    NotStartsWith(line, "is_obsolete: true", 3);
    NotStartsWith(line, "alt_id:", 0);
  }

  /** A stanza of an id, a name, a namespace and one untagged line. */
  lemma ExampleStanza(id: string, name: string, namespace: string, other: string) returns (s: Stanza)
    requires ValueOk(id) && ValueOk(name) && ValueOk(namespace) && Untagged(other)
    ensures WellFormed(s) && TermOf(s) == Term(Some(id), Some(name), Some(namespace), false)
    ensures AltIdsOf(s) == []
    ensures Block(s) == ["[Term]", "id: " + id, "name: " + name, "namespace: " + namespace, other, ""]
  {
    s := [IdTag(id), NameTag(name), NamespaceTag(namespace), Other(other)];
    assert EntryOk(s[0]) && EntryOk(s[1]) && EntryOk(s[2]) && EntryOk(s[3]);
    FourEntries(s[0], s[1], s[2], s[3]);
  }

}
