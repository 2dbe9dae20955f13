/** The Python `str` operations the column codecs use: `join`, `strip`,
    `split`, `replace` and a non-greedy regular-expression scan. */
module Text {
  import opened Json

  /** `sep.join(xs)`. */
  function Join(sep: string, xs: seq<string>): string {
    if xs == [] then ""
    else if |xs| == 1 then xs[0]
    else xs[0] + sep + Join(sep, xs[1..])
  }

  /** `s.lstrip(cs)`. */
  function StripLeft(s: string, cs: set<char>): (r: string)
    ensures r == [] || r[0] !in cs
    ensures |r| <= |s| && r == s[|s| - |r|..]
  {
    if s != [] && s[0] in cs then StripLeft(s[1..], cs) else s
  }

  /** `s.rstrip(cs)`. */
  function StripRight(s: string, cs: set<char>): (r: string)
    ensures r == [] || r[|r| - 1] !in cs
    ensures |r| <= |s| && r == s[..|r|]
  {
    if s != [] && s[|s| - 1] in cs then StripRight(s[..|s| - 1], cs) else s
  }

  /** `s.strip(cs)`: characters of `cs` removed from both ends. */
  function Strip(s: string, cs: set<char>): (r: string)
    ensures r == [] || (r[0] !in cs && r[|r| - 1] !in cs)
  {
    var l := StripLeft(s, cs);
    var r := StripRight(l, cs);
    assert r == [] || r[0] == l[0];
    r
  }

  /** Neither end of `s` is one of `cs`. */
  predicate Bare(s: string, cs: set<char>) {
    s == [] || (s[0] !in cs && s[|s| - 1] !in cs)
  }

  /** Stripping one wrapping character from each side, when the content
      itself does not start or end with a stripped character. */
  lemma StripWrapped(a: char, s: string, b: char, cs: set<char>)
    requires a in cs && b in cs && Bare(s, cs)
    ensures Strip([a] + s + [b], cs) == s
  {
    LeftOfWrapped(a, s, b, cs);
    if s != [] {
      RightOfWrapped(s, b, cs);
    }
  }

  lemma LeftOfWrapped(a: char, s: string, b: char, cs: set<char>)
    requires a in cs && b in cs && Bare(s, cs)
    ensures StripLeft([a] + s + [b], cs) == if s == [] then [] else s + [b]
  {
    var w := [a] + s + [b];
    assert w[0] == a && w[1..] == s + [b];
    if s == [] {
      assert s + [b] == [b] && [b][1..] == [];
    } else {
      assert (s + [b])[0] == s[0];
    }
  }

  lemma RightOfWrapped(s: string, b: char, cs: set<char>)
    requires s != [] && b in cs && Bare(s, cs)
    ensures StripRight(s + [b], cs) == s
  {
    assert (s + [b])[..|s|] == s;
  }

  lemma StripBare(s: string, cs: set<char>)
    requires Bare(s, cs)
    ensures Strip(s, cs) == s
  {
  }

  /** `s.split(c)`: the pieces between occurrences of `c`. */
  function Split(s: string, c: char): (r: seq<string>)
    ensures |r| >= 1
  {
    if s == [] then [""]
    else if s[0] == c then [""] + Split(s[1..], c)
    else
      var r := Split(s[1..], c);
      [[s[0]] + r[0]] + r[1..]
  }

  lemma {:induction false} SplitNone(s: string, c: char)
    requires c !in s
    ensures Split(s, c) == [s]
  {
    if s != [] {
      SplitNone(s[1..], c);
      assert [s[0]] + s[1..] == s;
    }
  }

  lemma {:induction false} SplitAt(a: string, c: char, b: string)
    requires c !in a
    ensures Split(a + [c] + b, c) == [a] + Split(b, c)
  {
    if a == [] {
      assert a + [c] + b == [c] + b;
      assert ([c] + b)[1..] == b;
    } else {
      assert (a + [c] + b)[1..] == a[1..] + [c] + b;
      SplitAt(a[1..], c, b);
      assert [a[0]] + a[1..] == a;
    }
  }

  /** `s.replace('\\"', '"')`, scanning left to right. */
  function Unescape(s: string): string {
    if |s| >= 2 && s[0] == '\\' && s[1] == '"' then "\"" + Unescape(s[2..])
    else if s == [] then ""
    else [s[0]] + Unescape(s[1..])
  }

  /** The backslash escaping PostgreSQL applies to `"` and `\\` inside a
      quoted array element. */
  function Escape(s: string): string {
    if s == [] then ""
    else if s[0] == '"' || s[0] == '\\' then ['\\', s[0]] + Escape(s[1..])
    else [s[0]] + Escape(s[1..])
  }

  lemma {:induction false} EscapeAppend(a: string, b: string)
    ensures Escape(a + b) == Escape(a) + Escape(b)
  {
    if a == [] {
      assert a + b == b;
    } else {
      assert (a + b)[1..] == a[1..] + b;
      EscapeAppend(a[1..], b);
    }
  }

  /** Unescaping undoes escaping on text without backslashes. */
  lemma {:induction false} UnescapeEscape(s: string)
    requires '\\' !in s
    ensures Unescape(Escape(s)) == s
  {
    if s != [] {
      UnescapeEscape(s[1..]);
      var e := Escape(s[1..]);
      if s[0] == '"' {
        assert (['\\', s[0]] + e)[2..] == e;
      } else {
        assert ([s[0]] + e)[1..] == e;
      }
    }
  }

  /** Escaping leaves text without double quotes or backslashes
      unchanged. */
  lemma {:induction false} EscapePlain(s: string)
    requires '"' !in s && '\\' !in s
    ensures Escape(s) == s
  {
    if s != [] {
      EscapePlain(s[1..]);
    }
  }

  /** Unescaping leaves text without backslashes unchanged. */
  lemma {:induction false} UnescapePlain(s: string)
    requires '\\' !in s
    ensures Unescape(s) == s
  {
    if s != [] {
      UnescapePlain(s[1..]);
    }
  }

  lemma {:induction false} EscapeKeeps(s: string, c: char)
    requires c != '"' && c != '\\'
    ensures c in Escape(s) <==> c in s
  {
    if s != [] {
      EscapeKeeps(s[1..], c);
    }
  }

  /** The first `)` at or after `k`; with `stopAtNewline` (the regular
      expression `.` without DOTALL) a newline met before it ends the search
      unsuccessfully. */
  function CloseAt(s: string, k: nat, stopAtNewline: bool): (r: Option<nat>)
    ensures r.Some? ==> k <= r.value < |s| && s[r.value] == ')'
    decreases |s| - k
  {
    if k >= |s| then None
    else if s[k] == ')' then Some(k)
    else if stopAtNewline && s[k] == '\n' then None
    else CloseAt(s, k + 1, stopAtNewline)
  }

  /** `re.findall(r"\(.*?\)", s)`: every shortest parenthesised group, left
      to right, without overlap. A start whose group cannot close moves the
      search on by one character. */
  function Scan(s: string, stopAtNewline: bool): (r: seq<string>)
    ensures forall g | g in r :: |g| >= 2 && g[0] == '(' && g[|g| - 1] == ')'
    decreases |s|
  {
    if s == [] then []
    else if s[0] == '(' then
      match CloseAt(s, 1, stopAtNewline)
      case Some(j) => [s[..j + 1]] + Scan(s[j + 1..], stopAtNewline)
      case None => Scan(s[1..], stopAtNewline)
    else Scan(s[1..], stopAtNewline)
  }

  /** Characters the group text may hold: no `)`, and no newline when the
      scan stops at newlines. */
  predicate Enclosable(inner: string, stopAtNewline: bool) {
    ')' !in inner && (stopAtNewline ==> '\n' !in inner)
  }

  lemma {:induction false} CloseAtFirst(s: string, k: nat, j: nat, stopAtNewline: bool)
    requires k <= j < |s| && s[j] == ')'
    requires forall m | k <= m < j :: s[m] != ')' && (stopAtNewline ==> s[m] != '\n')
    ensures CloseAt(s, k, stopAtNewline) == Some(j)
    decreases j - k
  {
    if k < j {
      CloseAtFirst(s, k + 1, j, stopAtNewline);
    }
  }

  /** Text without `(` holds no group start. */
  lemma {:induction false} ScanSkip(p: string, rest: string, stopAtNewline: bool)
    requires '(' !in p
    ensures Scan(p + rest, stopAtNewline) == Scan(rest, stopAtNewline)
  {
    if p != [] {
      assert (p + rest)[1..] == p[1..] + rest;
      ScanSkip(p[1..], rest, stopAtNewline);
    } else {
      assert p + rest == rest;
    }
  }

  /** A group at the head is found whole, and the scan resumes after it. */
  lemma ScanOne(inner: string, rest: string, stopAtNewline: bool)
    requires Enclosable(inner, stopAtNewline)
    ensures Scan("(" + inner + ")" + rest, stopAtNewline) == ["(" + inner + ")"] + Scan(rest, stopAtNewline)
  {
    var s := "(" + inner + ")" + rest;
    var j := |inner| + 1;
    assert s[j] == ')';
    forall m | 1 <= m < j ensures s[m] != ')' && (stopAtNewline ==> s[m] != '\n') {
      assert s[m] == inner[m - 1];
    }
    CloseAtFirst(s, 1, j, stopAtNewline);
    assert s[..j + 1] == "(" + inner + ")";
    assert s[j + 1..] == rest;
  }

  /** An element of an array literal: a group inside double quotes. */
  function Framed(inner: string): string {
    "\"(" + inner + ")\""
  }

  function FramedAll(inners: seq<string>): (r: seq<string>)
    ensures |r| == |inners| && forall k | 0 <= k < |inners| :: r[k] == Framed(inners[k])
  {
    if inners == [] then [] else [Framed(inners[0])] + FramedAll(inners[1..])
  }

  function Parenthesized(inners: seq<string>): (r: seq<string>)
    ensures |r| == |inners| && forall k | 0 <= k < |inners| :: r[k] == "(" + inners[k] + ")"
  {
    if inners == [] then [] else ["(" + inners[0] + ")"] + Parenthesized(inners[1..])
  }

  /** A framed group at the head is found; the scan resumes at its closing
      quote. */
  lemma ScanFramedHead(inner: string, after: string, stopAtNewline: bool)
    requires Enclosable(inner, stopAtNewline)
    ensures Scan(Framed(inner) + after, stopAtNewline) ==
      ["(" + inner + ")"] + Scan("\"" + after, stopAtNewline)
  {
    var q := "\"";
    assert Framed(inner) + after == q + ("(" + inner + ")" + (q + after));
    ScanSkip(q, "(" + inner + ")" + (q + after), stopAtNewline);
    ScanOne(inner, q + after, stopAtNewline);
  }

  /** One step of `ScanFramed`: the first framed group is found, then the
      scan goes on with the remaining ones. */
  lemma ScanFramedStep(sep: string, inners: seq<string>, tail: string, stopAtNewline: bool)
    requires '(' !in sep && |inners| >= 2 && Enclosable(inners[0], stopAtNewline)
    ensures Scan(Join(sep, FramedAll(inners)) + tail, stopAtNewline) ==
      ["(" + inners[0] + ")"] + Scan(Join(sep, FramedAll(inners[1..])) + tail, stopAtNewline)
  {
    var q := "\"";
    var fs := FramedAll(inners);
    assert fs[1..] == FramedAll(inners[1..]);
    var rest := Join(sep, fs[1..]) + tail;
    assert Join(sep, fs) + tail == Framed(inners[0]) + (sep + rest);
    ScanFramedHead(inners[0], sep + rest, stopAtNewline);
    assert q + (sep + rest) == (q + sep) + rest;
    ScanSkip(q + sep, rest, stopAtNewline);
  }

  /** Scanning a list of framed groups joined by a separator finds exactly
      those groups, in order. */
  lemma {:induction false} ScanFramed(sep: string, inners: seq<string>, tail: string, stopAtNewline: bool)
    requires '(' !in sep && '(' !in tail
    requires forall k | 0 <= k < |inners| :: Enclosable(inners[k], stopAtNewline)
    ensures Scan(Join(sep, FramedAll(inners)) + tail, stopAtNewline) == Parenthesized(inners)
  {
    var q := "\"";
    if inners == [] {
      assert Join(sep, FramedAll(inners)) + tail == tail + [];
      ScanSkip(tail, [], stopAtNewline);
    } else if |inners| == 1 {
      assert Join(sep, FramedAll(inners)) == Framed(inners[0]);
      assert Parenthesized(inners) == ["(" + inners[0] + ")"];
      ScanFramedHead(inners[0], tail, stopAtNewline);
      ScanSkip(q + tail, [], stopAtNewline);
      assert q + tail + [] == q + tail;
    } else {
      ScanFramedStep(sep, inners, tail, stopAtNewline);
      ScanFramed(sep, inners[1..], tail, stopAtNewline);
      assert Parenthesized(inners) == ["(" + inners[0] + ")"] + Parenthesized(inners[1..]);
    }
  }

  lemma {:induction false} CloseAtBlocked(s: string, k: nat, j: nat)
    requires k <= j < |s| && s[j] == '\n'
    requires forall m | k <= m <= j :: s[m] != ')'
    ensures CloseAt(s, k, true) == None
    decreases j - k
  {
    if k < j {
      CloseAtBlocked(s, k + 1, j);
    }
  }

  /** Without DOTALL, a group whose text holds a newline is not found at
      all: the scan steps over it and resumes after it. */
  lemma ScanBlocked(inner: string, rest: string)
    requires '\n' in inner && ')' !in inner && '(' !in inner
    ensures Scan("(" + inner + ")" + rest, true) == Scan(rest, true)
  {
    var s := "(" + inner + ")" + rest;
    var j :| 0 <= j < |inner| && inner[j] == '\n';
    forall m | 1 <= m <= j + 1 ensures s[m] != ')' {
      assert s[m] == inner[m - 1];
    }
    CloseAtBlocked(s, 1, j + 1);
    assert s[1..] == (inner + ")") + rest;
    ScanSkip(inner + ")", rest, true);
  }
}
