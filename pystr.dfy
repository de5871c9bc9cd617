/**
 * The few Python `str` operations the three converters rely on, written out
 * so that their edge cases are explicit: `strip()` removes every Unicode
 * whitespace character at both ends, `split(sep)` always returns at least one
 * piece and keeps empty pieces, and `split(sep, 1)` splits at the first
 * occurrence only.
 */
module PyStr {
  import opened Wrappers

  /** The characters for which Python's `str.isspace()` holds; `str.strip()` removes exactly these. */
  predicate IsSpace(c: char) {
    || c == ' '
    || '\U{9}' <= c <= '\U{D}'      // \t \n \v \f \r
    || '\U{1C}' <= c <= '\U{1F}'    // file, group, record and unit separators
    || c == '\U{85}' || c == '\U{A0}' || c == '\U{1680}'
    || '\U{2000}' <= c <= '\U{200A}'
    || c == '\U{2028}' || c == '\U{2029}' || c == '\U{202F}' || c == '\U{205F}' || c == '\U{3000}'
  }

  /** `s.startswith(prefix)` */
  predicate StartsWith(s: string, prefix: string) {
    |prefix| <= |s| && s[..|prefix|] == prefix
  }

  /** A string that differs from `prefix` at some position inside both does not start with it. */
  lemma NotStartsWith(s: string, prefix: string, k: nat)
    requires k < |prefix| && k < |s| && s[k] != prefix[k]
    ensures !StartsWith(s, prefix)
  {
    if |prefix| <= |s| {
      assert s[..|prefix|][k] != prefix[k];
    }
  }

  lemma StartsWithConcat(prefix: string, rest: string)
    ensures StartsWith(prefix + rest, prefix)
  {
    assert (prefix + rest)[..|prefix|] == prefix;
  }

  /** Drops the longest prefix of `s` whose characters all satisfy `drop`. */
  function TrimLeft(s: string, drop: char -> bool): string
    decreases |s|
  {
    if s != [] && drop(s[0]) then TrimLeft(s[1..], drop) else s
  }

  /** Drops the longest suffix of `s` whose characters all satisfy `drop`. */
  function TrimRight(s: string, drop: char -> bool): string
    decreases |s|
  {
    if s != [] && drop(s[|s| - 1]) then TrimRight(s[..|s| - 1], drop) else s
  }

  /** `s.strip(chars)` for the set of characters `drop`. */
  function StripBy(s: string, drop: char -> bool): string {
    TrimRight(TrimLeft(s, drop), drop)
  }

  /** `s.strip()` */
  function Strip(s: string): string {
    StripBy(s, IsSpace)
  }

  /** `s.strip(c)` for a single character `c`, as in `attr_str.strip(';')`. */
  function StripChar(s: string, c: char): string {
    StripBy(s, x => x == c)
  }

  lemma {:induction false} TrimLeftSpec(s: string, drop: char -> bool)
    ensures var r := TrimLeft(s, drop);
            && |r| <= |s| && r == s[|s| - |r|..]
            && (forall i :: 0 <= i < |s| - |r| ==> drop(s[i]))
            && (r != [] ==> !drop(r[0]))
    decreases |s|
  {
    if s != [] && drop(s[0]) {
      TrimLeftSpec(s[1..], drop);
    }
  }

  lemma {:induction false} TrimRightSpec(s: string, drop: char -> bool)
    ensures var r := TrimRight(s, drop);
            && |r| <= |s| && r == s[..|r|]
            && (forall i :: |r| <= i < |s| ==> drop(s[i]))
            && (r != [] ==> !drop(r[|r| - 1]))
    decreases |s|
  {
    if s != [] && drop(s[|s| - 1]) {
      TrimRightSpec(s[..|s| - 1], drop);
    }
  }

  /**
   * What `strip` leaves: the slice of the input between a prefix and a suffix
   * of dropped characters, empty exactly when every character is dropped, and
   * with neither end droppable.
   */
  lemma StripBySpec(s: string, drop: char -> bool)
    ensures var r := StripBy(s, drop);
            && |r| <= |s|
            && (exists i, j :: && 0 <= i <= j <= |s| && r == s[i..j]
                               && (forall k :: 0 <= k < i ==> drop(s[k]))
                               && (forall k :: j <= k < |s| ==> drop(s[k])))
            && (r == [] <==> forall i :: 0 <= i < |s| ==> drop(s[i]))
            && (r != [] ==> !drop(r[0]) && !drop(r[|r| - 1]))
  {
    var left := TrimLeft(s, drop);
    var r := TrimRight(left, drop);
    TrimLeftSpec(s, drop);
    TrimRightSpec(left, drop);
    assert r == [] ==> left == [];
    var i := |s| - |left|;
    var j := i + |r|;
    assert r == s[i..j];
    forall k | j <= k < |s|
      ensures drop(s[k])
    {
      assert s[k] == left[k - i];
    }
  }

  lemma StripSpec(s: string)
    ensures var r := Strip(s);
            && |r| <= |s|
            && (exists i, j :: && 0 <= i <= j <= |s| && r == s[i..j]
                               && (forall k :: 0 <= k < i ==> IsSpace(s[k]))
                               && (forall k :: j <= k < |s| ==> IsSpace(s[k])))
            && (r == [] <==> forall i :: 0 <= i < |s| ==> IsSpace(s[i]))
            && (r != [] ==> !IsSpace(r[0]) && !IsSpace(r[|r| - 1]))
  {
    StripBySpec(s, IsSpace);
  }

  lemma StripCharSpec(s: string, c: char)
    ensures var r := StripChar(s, c);
            && |r| <= |s|
            && (exists i, j :: && 0 <= i <= j <= |s| && r == s[i..j]
                               && (forall k :: 0 <= k < i ==> s[k] == c)
                               && (forall k :: j <= k < |s| ==> s[k] == c))
            && (r == [] <==> forall i :: 0 <= i < |s| ==> s[i] == c)
            && (r != [] ==> r[0] != c && r[|r| - 1] != c)
  {
    StripBySpec(s, x => x == c);
  }

  /** Stripping leaves a string alone when neither end can be dropped. */
  lemma StripByNoOp(s: string, drop: char -> bool)
    requires s != [] ==> !drop(s[0]) && !drop(s[|s| - 1])
    ensures StripBy(s, drop) == s
  {
    assert TrimLeft(s, drop) == s;
    assert TrimRight(s, drop) == s;
  }

  lemma StripNoOp(s: string)
    requires s != [] ==> !IsSpace(s[0]) && !IsSpace(s[|s| - 1])
    ensures Strip(s) == s
  {
    StripByNoOp(s, IsSpace);
  }

  lemma StripCharNoOp(s: string, c: char)
    requires s != [] ==> s[0] != c && s[|s| - 1] != c
    ensures StripChar(s, c) == s
  {
    StripByNoOp(s, x => x == c);
  }

  lemma {:induction false} TrimRightDropped(s: string, t: string, drop: char -> bool)
    requires forall i :: 0 <= i < |t| ==> drop(t[i])
    ensures TrimRight(s + t, drop) == TrimRight(s, drop)
    decreases |t|
  {
    if t != [] {
      assert (s + t)[..|s + t| - 1] == s + t[..|t| - 1];
      TrimRightDropped(s, t[..|t| - 1], drop);
    } else {
      assert s + t == s;
    }
  }

  /**
   * Stripping a line that ends in whitespace, such as the newline a line read
   * from a file keeps, gives back its text when that text has no whitespace at
   * either end.
   */
  lemma StripTrailing(s: string, t: string)
    requires s != [] && !IsSpace(s[0]) && !IsSpace(s[|s| - 1])
    requires forall i :: 0 <= i < |t| ==> IsSpace(t[i])
    ensures Strip(s + t) == s
  {
    assert (s + t)[0] == s[0];
    assert TrimLeft(s + t, IsSpace) == s + t;
    TrimRightDropped(s, t, IsSpace);
    assert TrimRight(s, IsSpace) == s;
  }

  /** Trimming the left of `s + t` reaches into `t` only when all of `s` is dropped. */
  lemma {:induction false} TrimLeftAppend(s: string, t: string, drop: char -> bool)
    ensures TrimLeft(s + t, drop) == if TrimLeft(s, drop) != [] then TrimLeft(s, drop) + t else TrimLeft(t, drop)
    decreases |s|
  {
    if s == [] {
      assert s + t == t;
    } else {
      assert (s + t)[0] == s[0];
      assert (s + t)[1..] == s[1..] + t;
      if drop(s[0]) {
        TrimLeftAppend(s[1..], t, drop);
      }
    }
  }

  /** Whitespace after a line, such as its line terminator, never changes what `strip()` gives. */
  lemma StripIgnoresTrailing(s: string, t: string)
    requires forall i :: 0 <= i < |t| ==> IsSpace(t[i])
    ensures Strip(s + t) == Strip(s)
  {
    TrimLeftAppend(s, t, IsSpace);
    var left := TrimLeft(s, IsSpace);
    if left != [] {
      TrimRightDropped(left, t, IsSpace);
    } else {
      TrimLeftSpec(t, IsSpace);
    }
  }

  /** `strip()` is idempotent. */
  lemma StripIdempotent(s: string)
    ensures Strip(Strip(s)) == Strip(s)
  {
    StripSpec(s);
    StripNoOp(Strip(s));
  }

  /** `s.count(c)` for a single character `c`. */
  function Count(s: string, c: char): nat
    decreases |s|
  {
    if s == [] then 0 else (if s[0] == c then 1 else 0) + Count(s[1..], c)
  }

  /** `sep.join(parts)` */
  function Join(parts: seq<string>, sep: char): string
  {
    if |parts| == 0 then []
    else if |parts| == 1 then parts[0]
    else parts[0] + [sep] + Join(parts[1..], sep)
  }

  /** A join begins with the first piece's first character and ends with the last piece's last character. */
  lemma {:induction false} JoinEnds(parts: seq<string>, sep: char)
    requires |parts| >= 1 && parts[0] != [] && parts[|parts| - 1] != []
    ensures var j := Join(parts, sep);
            && j != [] && j[0] == parts[0][0] && j[|j| - 1] == parts[|parts| - 1][|parts[|parts| - 1]| - 1]
  {
    if |parts| > 1 {
      var rest := parts[1..];
      JoinLast(rest, sep);
    }
  }

  lemma {:induction false} JoinLast(parts: seq<string>, sep: char)
    requires |parts| >= 1 && parts[|parts| - 1] != []
    ensures var j := Join(parts, sep);
            && j != [] && j[|j| - 1] == parts[|parts| - 1][|parts[|parts| - 1]| - 1]
  {
    if |parts| > 1 {
      JoinLast(parts[1..], sep);
    }
  }

  /**
   * `s.split(sep)`: the pieces between occurrences of `sep`, empty pieces
   * included; there is always one piece more than there are separators, and
   * joining the pieces with `sep` gives back `s`.
   */
  function Split(s: string, sep: char): (r: seq<string>)
    ensures |r| == Count(s, sep) + 1
    ensures forall i :: 0 <= i < |r| ==> sep !in r[i]
    ensures Join(r, sep) == s
    decreases |s|
  {
    if |s| == 0 then [[]]
    else
      var rest := Split(s[1..], sep);
      assert s == [s[0]] + s[1..];
      if s[0] == sep then
        var r := [[]] + rest;
        assert r[1..] == rest;
        assert Join(r, sep) == [] + [sep] + Join(rest, sep);
        r
      else
        var r := [[s[0]] + rest[0]] + rest[1..];
        assert r[1..] == rest[1..];
        assert Join(r, sep) == [s[0]] + Join(rest, sep) by {
          if |rest| > 1 {
            assert Join(rest, sep) == rest[0] + [sep] + Join(rest[1..], sep);
            assert Join(r, sep) == ([s[0]] + rest[0]) + [sep] + Join(rest[1..], sep);
          }
        }
        r
  }

  lemma {:induction false} CountAbsent(s: string, c: char)
    requires c !in s
    ensures Count(s, c) == 0
    decreases |s|
  {
    if s != [] {
      CountAbsent(s[1..], c);
    }
  }

  /** A string without the separator splits into itself alone. */
  lemma {:induction false} SplitNoSep(p: string, sep: char)
    requires sep !in p
    ensures Split(p, sep) == [p]
  {
    var r := Split(p, sep);
    CountAbsent(p, sep);
    assert Join(r, sep) == r[0];
  }

  /** Splitting at a separator that follows a separator-free piece. */
  lemma {:induction false} SplitCons(p: string, sep: char, t: string)
    requires sep !in p
    ensures Split(p + [sep] + t, sep) == [p] + Split(t, sep)
    decreases |p|
  {
    var s := p + [sep] + t;
    if |p| == 0 {
      assert s == [sep] + t;
      assert s[1..] == t;
    } else {
      assert p[0] != sep;
      assert s[1..] == p[1..] + [sep] + t;
      SplitCons(p[1..], sep, t);
      var rest := Split(s[1..], sep);
      assert rest == [p[1..]] + Split(t, sep);
      assert rest[1..] == Split(t, sep);
      assert [p[0]] + p[1..] == p;
      assert Split(s, sep) == [[s[0]] + rest[0]] + rest[1..];
    }
  }

  /** A string with exactly one separator splits into the text before it and the text after it. */
  lemma SplitPair(a: string, sep: char, b: string)
    requires sep !in a && sep !in b
    ensures Split(a + [sep] + b, sep) == [a, b]
  {
    SplitCons(a, sep, b);
    SplitNoSep(b, sep);
  }

  /** `split` undoes `join` when no piece holds the separator. */
  lemma {:induction false} SplitJoin(parts: seq<string>, sep: char)
    requires |parts| >= 1
    requires forall i :: 0 <= i < |parts| ==> sep !in parts[i]
    ensures Split(Join(parts, sep), sep) == parts
  {
    if |parts| == 1 {
      SplitNoSep(parts[0], sep);
    } else {
      SplitJoin(parts[1..], sep);
      SplitCons(parts[0], sep, Join(parts[1..], sep));
      assert [parts[0]] + parts[1..] == parts;
    }
  }

  /**
   * `s.split(sep, 1)` when it yields two pieces: the text before the first
   * `sep` and the text after it; `None` when `sep` does not occur, which is
   * where the Python code's `split(sep, 1)[1]` raises IndexError.
   */
  function SplitOnce(s: string, sep: char): (r: Option<(string, string)>)
    ensures r.None? <==> sep !in s
    ensures r.Some? ==> r.value.0 + [sep] + r.value.1 == s && sep !in r.value.0
    decreases |s|
  {
    if |s| == 0 then None
    else if s[0] == sep then Some(([], s[1..]))
    else
      match SplitOnce(s[1..], sep)
      case None => None
      case Some(pair) => Some(([s[0]] + pair.0, pair.1))
  }

  /** The two pieces of `split(sep, 1)` are determined by the first occurrence of `sep`. */
  lemma {:induction false} SplitOnceAt(a: string, sep: char, b: string)
    requires sep !in a
    ensures SplitOnce(a + [sep] + b, sep) == Some((a, b))
    decreases |a|
  {
    if |a| > 0 {
      assert (a + [sep] + b)[1..] == a[1..] + [sep] + b;
      SplitOnceAt(a[1..], sep, b);
      assert [a[0]] + a[1..] == a;
    }
  }
}
