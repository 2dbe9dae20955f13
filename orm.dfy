/** The custom peewee column types: an enum stored as a PostgreSQL enum
    type, a direction stored as a composite `(title, text)`, and an array
    of either. Each `db_value` renders the text PostgreSQL reads; each
    `python_value` decodes the text it returns. */
module Orm {
  import opened Json
  import opened Text

  datatype Result<T> = Ok(value: T) | Err(msg: string)

  // ----- EnumField -----

  /** `EnumField.db_value`: a member of `choices` is stored as itself,
      anything else raises `ValueError('Invalid Enum Value "v"')`. */
  function EnumDbValue(choices: seq<string>, v: string): (r: Result<string>)
    ensures r.Ok? <==> v in choices
    ensures r.Ok? ==> r.value == v
    ensures r.Err? ==> r.msg == "Invalid Enum Value \"" + v + "\""
  {
    if v !in choices then Err("Invalid Enum Value \"" + v + "\"") else Ok(v)
  }

  /** The type of an enum column (`__ddl_column__`, `post_field_create`). */
  function EnumTypeName(name: string): string {
    "e_" + name
  }

  function Quote(c: string): string {
    "'" + c + "'"
  }

  function QuoteAll(cs: seq<string>): (r: seq<string>)
    ensures |r| == |cs| && forall k | 0 <= k < |cs| :: r[k] == Quote(cs[k])
  {
    if cs == [] then [] else [Quote(cs[0])] + QuoteAll(cs[1..])
  }

  const DDL_HEAD := "CREATE TYPE "
  const DDL_MID := " AS ENUM ("
  const DDL_TAIL := ");"

  /** The statement `pre_field_create` runs: the choices single-quoted, in
      declared order, joined by `, `. */
  function EnumDdl(name: string, choices: seq<string>): string {
    DDL_HEAD + EnumTypeName(name) + DDL_MID + Join(", ", QuoteAll(choices)) + DDL_TAIL
  }

  /** The first occurrence of `c` at or after `k`. */
  function FindChar(s: string, k: nat, c: char): (r: Option<nat>)
    ensures r.Some? ==> k <= r.value < |s| && s[r.value] == c
    decreases |s| - k
  {
    if k >= |s| then None
    else if s[k] == c then Some(k)
    else FindChar(s, k + 1, c)
  }

  /** Reads a non-empty list `'a', 'b', …` of quoted labels back. */
  function ParseLabels(t: string): Option<seq<string>>
    decreases |t|
  {
    if t == [] || t[0] != '\'' then None
    else match FindChar(t, 1, '\'')
      case None => None
      case Some(j) =>
        var rest := t[j + 1..];
        if rest == [] then Some([t[1..j]])
        else if |rest| > 2 && rest[..2] == ", " then
          match ParseLabels(rest[2..])
          case Some(ls) => Some([t[1..j]] + ls)
          case None => None
        else None
  }

  /** The labels of an enum DDL statement for the type `e_<name>`. */
  function EnumLabels(ddl: string, name: string): Option<seq<string>> {
    var head := DDL_HEAD + EnumTypeName(name) + DDL_MID;
    if |ddl| < |head| + |DDL_TAIL| || ddl[..|head|] != head || ddl[|ddl| - |DDL_TAIL|..] != DDL_TAIL then None
    else
      var t := ddl[|head|..|ddl| - |DDL_TAIL|];
      if t == [] then Some([]) else ParseLabels(t)
  }

  lemma {:induction false} FindCharFirst(s: string, k: nat, j: nat, c: char)
    requires k <= j < |s| && s[j] == c
    requires forall m | k <= m < j :: s[m] != c
    ensures FindChar(s, k, c) == Some(j)
    decreases j - k
  {
    if k < j {
      FindCharFirst(s, k + 1, j, c);
    }
  }

  /** The first quoted label of a list is read back whole. */
  lemma LabelHead(c: string, after: string)
    requires '\'' !in c
    ensures var t := Quote(c) + after;
      FindChar(t, 1, '\'') == Some(|c| + 1) && t[1..|c| + 1] == c && t[|c| + 2..] == after
  {
    var t := Quote(c) + after;
    forall m | 1 <= m < |c| + 1 ensures t[m] != '\'' {
      assert t[m] == c[m - 1];
    }
    FindCharFirst(t, 1, |c| + 1, '\'');
  }

  lemma ParseOne(c: string)
    requires '\'' !in c
    ensures ParseLabels(Quote(c)) == Some([c])
  {
    LabelHead(c, "");
    assert Quote(c) + "" == Quote(c);
  }

  /** A label followed by `, ` and more labels. */
  lemma ParseStep(c: string, rest: string, ls: seq<string>)
    requires '\'' !in c && rest != [] && ParseLabels(rest) == Some(ls)
    ensures ParseLabels(Quote(c) + (", " + rest)) == Some([c] + ls)
  {
    var t := Quote(c) + (", " + rest);
    LabelHead(c, ", " + rest);
    assert t[0] == '\'';
    assert (", " + rest)[2..] == rest && (", " + rest)[..2] == ", ";
  }

  lemma {:induction false} ParseQuoted(cs: seq<string>)
    requires |cs| >= 1 && forall k | 0 <= k < |cs| :: '\'' !in cs[k]
    ensures ParseLabels(Join(", ", QuoteAll(cs))) == Some(cs)
  {
    if |cs| == 1 {
      ParseOne(cs[0]);
      JoinQuotedOne(cs);
    } else {
      var rest := JoinQuotedCons(cs);
      ParseQuoted(cs[1..]);
      ParseStep(cs[0], rest, cs[1..]);
      assert [cs[0]] + cs[1..] == cs;
    }
  }

  lemma JoinQuotedOne(cs: seq<string>)
    requires |cs| == 1
    ensures Join(", ", QuoteAll(cs)) == Quote(cs[0]) && cs == [cs[0]]
  {
    var qs := QuoteAll(cs);
    assert qs == [Quote(cs[0])];
  }

  /** The joined labels of two or more choices: the first, `, `, the rest. */
  lemma JoinQuotedCons(cs: seq<string>) returns (rest: string)
    requires |cs| >= 2
    ensures rest == Join(", ", QuoteAll(cs[1..])) && rest != []
    ensures Join(", ", QuoteAll(cs)) == Quote(cs[0]) + (", " + rest)
  {
    var qs := QuoteAll(cs);
    rest := Join(", ", qs[1..]);
    assert qs[1..] == QuoteAll(cs[1..]);
    assert qs[1..][0] == Quote(cs[1]);
  }

  /** The DDL names the type `e_<name>` and lists exactly the choices, in
      order: reading the labels back gives the choices. */
  lemma EnumDdlLabels(name: string, choices: seq<string>)
    requires forall k | 0 <= k < |choices| :: '\'' !in choices[k]
    ensures EnumLabels(EnumDdl(name, choices), name) == Some(choices)
  {
    var head := DDL_HEAD + EnumTypeName(name) + DDL_MID;
    var t := Join(", ", QuoteAll(choices));
    var ddl := EnumDdl(name, choices);
    assert ddl == head + t + DDL_TAIL;
    assert ddl[..|head|] == head;
    assert ddl[|ddl| - |DDL_TAIL|..] == DDL_TAIL;
    assert ddl[|head|..|ddl| - |DDL_TAIL|] == t;
    if choices != [] {
      ParseQuoted(choices);
    }
  }

  // ----- DirectionField -----

  /** `utils.helpers.Direction`, a `(title, text)` named tuple. */
  datatype Direction = Direction(title: string, text: string)

  const PARENS: set<char> := {'(', ')'}
  const QUOTES: set<char> := {'"'}

  /** `DirectionField.db_value`: the composite literal `("t", "x")`. */
  function DirectionDbValue(d: Direction): string {
    "(\"" + d.title + "\", \"" + d.text + "\")"
  }

  /** `s[1:]`, which is empty on an empty string. */
  function Drop1(s: string): string {
    if s == [] then [] else s[1..]
  }

  /** `DirectionField.python_value`: strip the parentheses, split at `,`
      into exactly two parts (otherwise the unpacking raises), strip the
      quotes of both and drop the first character of the text. */
  function DirectionPythonValue(value: string): Result<Direction> {
    var parts := Split(Strip(value, PARENS), ',');
    if |parts| != 2 then Err("ValueError: expected two fields")
    else Ok(Direction(Strip(parts[0], QUOTES), Drop1(Strip(parts[1], QUOTES))))
  }

  /** Text PostgreSQL passes through its composite and array forms without
      special treatment. */
  predicate Plain(s: string) {
    '"' !in s && '\\' !in s && '(' !in s && ')' !in s && ',' !in s
  }

  predicate IsSpace(c: char) {
    c == ' ' || c == '\t' || c == '\n' || c == '\r' || c == '\U{0B}' || c == '\U{0C}'
  }

  /** PostgreSQL's composite output quotes a field that is empty or holds
      white space or one of `"\(),`. */
  predicate NeedsQuotes(f: string) {
    f == [] || Plain(f) == false || exists k | 0 <= k < |f| :: IsSpace(f[k])
  }

  /** Inside quotes PostgreSQL doubles `"` and `\\`. */
  function Doubled(f: string): (r: string)
    ensures Plain(f) ==> r == f
  {
    if f == [] then []
    else if f[0] == '"' || f[0] == '\\' then [f[0], f[0]] + Doubled(f[1..])
    else [f[0]] + Doubled(f[1..])
  }

  function RecordField(f: string): string {
    if NeedsQuotes(f) then "\"" + Doubled(f) + "\"" else f
  }

  /** PostgreSQL's text output of a composite value with these fields. */
  function RecordOut(fields: seq<string>): string {
    "(" + Join(",", RecordFieldAll(fields)) + ")"
  }

  function RecordFieldAll(fields: seq<string>): (r: seq<string>)
    ensures |r| == |fields| && forall k | 0 <= k < |fields| :: r[k] == RecordField(fields[k])
  {
    if fields == [] then [] else [RecordField(fields[0])] + RecordFieldAll(fields[1..])
  }

  /** `"` removed: how PostgreSQL reads a field whose quoted parts hold no
      comma, backslash or doubled quote; white space outside the quotes is
      kept. */
  function Unquoted(f: string): (r: string)
    ensures '"' !in f ==> r == f
  {
    if f == [] then []
    else if f[0] == '"' then Unquoted(f[1..])
    else [f[0]] + Unquoted(f[1..])
  }

  function UnquotedAll(fs: seq<string>): (r: seq<string>)
    ensures |r| == |fs| && forall k | 0 <= k < |fs| :: r[k] == Unquoted(fs[k])
  {
    if fs == [] then [] else [Unquoted(fs[0])] + UnquotedAll(fs[1..])
  }

  /** PostgreSQL's reading of a composite literal `(f1,f2,…)`, for literals
      that quote no comma: the fields between the commas, unquoted. */
  function RecordIn(s: string): Option<seq<string>> {
    if |s| < 2 || s[0] != '(' || s[|s| - 1] != ')' then None
    else Some(UnquotedAll(Split(s[1..|s| - 1], ',')))
  }

  lemma {:induction false} UnquotedAppend(a: string, b: string)
    ensures Unquoted(a + b) == Unquoted(a) + Unquoted(b)
  {
    if a == [] {
      assert a + b == b;
    } else {
      assert (a + b)[1..] == a[1..] + b;
      UnquotedAppend(a[1..], b);
    }
  }

  lemma UnquoteQuoted(pre: string, f: string)
    requires '"' !in pre && '"' !in f
    ensures Unquoted(pre + "\"" + f + "\"") == pre + f
  {
    var w := "\"" + f + "\"";
    assert pre + "\"" + f + "\"" == pre + w;
    UnquotedAppend(pre, w);
    UnquotedWrapped(f);
  }

  /** Unquoting a quoted field gives the field. */
  lemma UnquotedWrapped(f: string)
    requires '"' !in f
    ensures Unquoted("\"" + f + "\"") == f
  {
    var q := "\"";
    var w := q + f + q;
    assert w[0] == '"' && w[1..] == f + q;
    UnquotedAppend(f, q);
    assert Unquoted(q) == [] by { assert q[1..] == []; }
  }

  /** Storing a direction: PostgreSQL reads `("t", "x")` as the fields `t`
      and ` x`, the blank after the comma kept. */
  lemma DirectionStored(d: Direction)
    requires Plain(d.title) && Plain(d.text)
    ensures RecordIn(DirectionDbValue(d)) == Some([d.title, " " + d.text])
  {
    var s := DirectionDbValue(d);
    var a := "\"" + d.title + "\"";
    var b := " \"" + d.text + "\"";
    StoredParts(d);
    SplitAt(a, ',', b);
    SplitNone(b, ',');
    StoredFields(d);
    assert UnquotedAll([a, b]) == [d.title, " " + d.text];
  }

  /** The literal `("t", "x")` is `"t"` and ` "x"` around a comma, in parentheses. */
  lemma StoredParts(d: Direction)
    ensures |DirectionDbValue(d)| >= 2
    ensures DirectionDbValue(d)[0] == '(' && DirectionDbValue(d)[|DirectionDbValue(d)| - 1] == ')'
    ensures DirectionDbValue(d)[1..|DirectionDbValue(d)| - 1] == ("\"" + d.title + "\"") + [','] + (" \"" + d.text + "\"")
  {
    var s := DirectionDbValue(d);
    assert s == ['('] + (("\"" + d.title + "\"") + [','] + (" \"" + d.text + "\"")) + [')'];
  }

  /** Each part of the stored literal unquotes to its field. */
  lemma StoredFields(d: Direction)
    requires Plain(d.title) && Plain(d.text)
    ensures Unquoted("\"" + d.title + "\"") == d.title
    ensures Unquoted(" \"" + d.text + "\"") == " " + d.text
  {
    UnquotedWrapped(d.title);
    UnquoteQuoted(" ", d.text);
    assert " " + "\"" + d.text + "\"" == " \"" + d.text + "\"";
  }

  /** A field as PostgreSQL prints it loses its quotes under `strip('"')`. */
  lemma FieldStripped(f: string)
    requires Plain(f)
    ensures Strip(RecordField(f), QUOTES) == f
    ensures ',' !in RecordField(f) && RecordField(f) != [] && RecordField(f)[0] !in PARENS
  {
    if NeedsQuotes(f) {
      QuotedField(f);
      StripWrapped('"', f, '"', QUOTES);
    } else {
      BareField(f);
      StripBare(f, QUOTES);
    }
  }

  /** A plain field that needs quotes is printed inside one pair of quotes. */
  lemma QuotedField(f: string)
    requires Plain(f) && NeedsQuotes(f)
    ensures RecordField(f) == ['"'] + f + ['"'] && Bare(f, QUOTES)
    ensures ',' !in RecordField(f) && RecordField(f)[0] == '"'
  {
    var r := ['"'] + f + ['"'];
    assert RecordField(f) == r;
    assert forall k | 0 <= k < |r| :: r[k] == '"' || r[k] in f;
  }

  /** A plain field without blanks is printed as it is. */
  lemma BareField(f: string)
    requires Plain(f) && !NeedsQuotes(f)
    ensures RecordField(f) == f && f != [] && Bare(f, QUOTES) && f[0] !in PARENS
  {
  }

  /** Fetching a direction: `python_value` on PostgreSQL's text for the
      stored fields `t` and ` x` gives back `Direction(t, x)`, whether or not
      the title came back quoted. */
  lemma DirectionFromDatabase(t: string, x: string)
    requires Plain(t) && Plain(x)
    ensures DirectionPythonValue(RecordOut([t, " " + x])) == Ok(Direction(t, x))
  {
    var ft, fx := RecordField(t), RecordField(" " + x);
    FieldStripped(t);
    TextFieldStripped(x);
    RecordOutPair(t, " " + x);
    PairBare(ft, fx);
    DecodeTwo(ft, fx);
    assert Drop1(" " + x) == x;
  }

  /** The text, printed after its blank, is always quoted, and strips back. */
  lemma TextFieldStripped(x: string)
    requires Plain(x)
    ensures RecordField(" " + x) == ['"'] + (" " + x) + ['"']
    ensures ',' !in RecordField(" " + x) && Strip(RecordField(" " + x), QUOTES) == " " + x
  {
    assert NeedsQuotes(" " + x) by {
      assert IsSpace((" " + x)[0]);
    }
    QuotedField(" " + x);
    StripWrapped('"', " " + x, '"', QUOTES);
  }

  /** Two printed fields joined by a comma, the first not starting with a
      parenthesis and the second quoted, have no parenthesis at either end. */
  lemma PairBare(a: string, b: string)
    requires a != [] && a[0] !in PARENS && b != [] && b[|b| - 1] == '"'
    ensures Bare(a + [','] + b, PARENS)
  {
    var body := a + [','] + b;
    assert body[0] == a[0] && body[|body| - 1] == b[|b| - 1];
  }

  /** The printed record of two fields. */
  lemma RecordOutPair(a: string, b: string)
    ensures RecordOut([a, b]) == ['('] + (RecordField(a) + [','] + RecordField(b)) + [')']
  {
    assert Join(",", RecordFieldAll([a, b])) == RecordField(a) + [','] + RecordField(b);
  }

  /** A text with a comma: PostgreSQL prints a stored direction whose title
      `t` needs no quotes and whose text is ` a,b` as `(t," a,b")`,
      `split(',')` cuts that into three parts, and the two-name unpacking
      of `python_value` raises. */
  lemma CommaInText(t: string, a: string, b: string)
    requires t != [] && Plain(t) && Plain(a) && Plain(b)
    ensures DirectionPythonValue("(" + t + ",\" " + a + "," + b + "\")").Err?
  {
    var q := "\" " + a;
    var r := b + "\"";
    CommaInTextBody(t, a, b);
    SplitAt(t, ',', q + [','] + r);
    SplitAt(q, ',', r);
    assert ',' !in r by { assert forall k | 0 <= k < |r| :: r[k] == if k < |b| then b[k] else '"'; }
    SplitNone(r, ',');
  }

  lemma CommaInTextBody(t: string, a: string, b: string)
    requires t != [] && Plain(t)
    ensures Strip("(" + t + ",\" " + a + "," + b + "\")", PARENS)
      == t + [','] + (("\" " + a) + [','] + (b + "\""))
  {
    var body := t + [','] + (("\" " + a) + [','] + (b + "\""));
    assert "(" + t + ",\" " + a + "," + b + "\")" == ['('] + body + [')'];
    assert Bare(body, PARENS) by { assert body[0] == t[0]; }
    StripWrapped('(', body, ')', PARENS);
  }

  /** What the column stores and fetches back is the direction written. */
  lemma DirectionRoundTrip(d: Direction)
    requires Plain(d.title) && Plain(d.text)
    ensures RecordIn(DirectionDbValue(d)).Some?
    ensures DirectionPythonValue(RecordOut(RecordIn(DirectionDbValue(d)).value)) == Ok(d)
  {
    DirectionStored(d);
    DirectionFromDatabase(d.title, d.text);
  }

  // ----- ArrayField -----

  /** An element of an array column: a scalar (carried as its `str`) or an
      iterable of strings such as a direction. */
  datatype Element = Scalar(text: string) | Iterable(parts: seq<string>)

  /** `stringify`: an iterable becomes `"(a, b)"`, a scalar its `str`. */
  function Stringify(e: Element): string {
    match e
    case Iterable(parts) => "\"(" + Join(", ", parts) + ")\""
    case Scalar(t) => t
  }

  function StringifyAll(es: seq<Element>): (r: seq<string>)
    ensures |r| == |es| && forall k | 0 <= k < |es| :: r[k] == Stringify(es[k])
  {
    if es == [] then [] else [Stringify(es[0])] + StringifyAll(es[1..])
  }

  /** `ArrayField.db_value`: the elements inside `{…}`, separated by `, `. */
  function ArrayDbValue(es: seq<Element>): string {
    "{" + Join(", ", StringifyAll(es)) + "}"
  }

  /** `ArrayField.python_value` with the given element decoder: a string is
      scanned for parenthesised groups (the regular expression's `.` stopping
      at newlines when `stopAtNewline`), each unescaped and decoded; a list
      is decoded element by element. */
  function DecodeArray<R>(value: Json, decode: Json -> R, stopAtNewline: bool): (r: seq<R>)
    requires value.Str? || value.List?
    ensures value.List? ==> |r| == |value.items| && forall k | 0 <= k < |r| :: r[k] == decode(value.items[k])
    ensures value.Str? ==> (|r| == |Scan(value.s, stopAtNewline)|
      && forall k | 0 <= k < |r| :: r[k] == decode(Str(Unescape(Scan(value.s, stopAtNewline)[k]))))
  {
    if value.Str? then
      var gs := Scan(value.s, stopAtNewline);
      seq(|gs|, k requires 0 <= k < |gs| => decode(Str(Unescape(gs[k]))))
    else
      seq(|value.items|, k requires 0 <= k < |value.items| => decode(value.items[k]))
  }

  /** `ArrayField.python_value` as written: `re.compile("\(.*?\)")` has no
      DOTALL flag. */
  function ArrayPythonValue<R>(value: Json, decode: Json -> R): (r: seq<R>)
    requires value.Str? || value.List?
    ensures value.List? ==> |r| == |value.items|
  {
    DecodeArray(value, decode, true)
  }

  /** `ArrayField.python_value` with the pattern compiled with `re.DOTALL`,
      so that a group may span lines. */
  function ArrayPythonValueDotAll<R>(value: Json, decode: Json -> R): (r: seq<R>)
    requires value.Str? || value.List?
    ensures value.List? ==> |r| == |value.items|
  {
    DecodeArray(value, decode, false)
  }

  /** The direction field's decoder, as the array field calls it. */
  function DirectionOf(v: Json): Result<Direction> {
    if v.Str? then DirectionPythonValue(v.s) else Err("AttributeError: not a string")
  }

  function AsElements(ds: seq<Direction>): (r: seq<Element>)
    ensures |r| == |ds| && forall k | 0 <= k < |ds| :: r[k] == Iterable([ds[k].title, ds[k].text])
  {
    if ds == [] then [] else [Iterable([ds[0].title, ds[0].text])] + AsElements(ds[1..])
  }

  function OkAll(ds: seq<Direction>): (r: seq<Result<Direction>>)
    ensures |r| == |ds| && forall k | 0 <= k < |ds| :: r[k] == Ok(ds[k])
  {
    if ds == [] then [] else [Ok(ds[0])] + OkAll(ds[1..])
  }

  predicate PlainAll(ds: seq<Direction>) {
    forall k | 0 <= k < |ds| :: Plain(ds[k].title) && Plain(ds[k].text)
  }

  predicate SingleLine(ds: seq<Direction>) {
    forall k | 0 <= k < |ds| :: '\n' !in ds[k].title && '\n' !in ds[k].text
  }

  /** `python_value` on a parenthesised pair of comma-free fields. */
  lemma DecodeTwo(a: string, b: string)
    requires ',' !in a && ',' !in b && Bare(a + [','] + b, PARENS)
    ensures DirectionPythonValue(['('] + (a + [','] + b) + [')']) ==
      Ok(Direction(Strip(a, QUOTES), Drop1(Strip(b, QUOTES))))
  {
    var body := a + [','] + b;
    StripWrapped('(', body, ')', PARENS);
    assert Strip(['('] + body + [')'], PARENS) == body;
    SplitAt(a, ',', b);
    SplitNone(b, ',');
    assert Split(body, ',') == [a, b];
  }

  /** `python_value` also reads the `(t, x)` form `db_value` writes. */
  lemma DirectionFromJoined(t: string, x: string)
    requires Plain(t) && Plain(x)
    ensures DirectionPythonValue("(" + t + ", " + x + ")") == Ok(Direction(t, x))
  {
    var b := " " + x;
    JoinedBody(t, x);
    assert Bare(t + [','] + b, PARENS) by { BareBody(t, b); }
    DecodeTwo(t, b);
    PlainBare(t);
    PlainBare(b);
    StripBare(t, QUOTES);
    StripBare(b, QUOTES);
  }

  lemma JoinedBody(t: string, x: string)
    ensures "(" + t + ", " + x + ")" == ['('] + (t + [','] + (" " + x)) + [')']
  {
  }

  lemma BareBody(t: string, b: string)
    requires '(' !in t && ')' !in t && b != [] && b[|b| - 1] !in PARENS
    ensures Bare(t + [','] + b, PARENS)
  {
    var body := t + [','] + b;
    if t == [] { assert body[0] == ','; } else { assert body[0] == t[0] && t[0] in t; }
    assert body[|body| - 1] == b[|b| - 1];
  }

  lemma PlainBare(s: string)
    requires '"' !in s
    ensures Bare(s, QUOTES)
  {
    if s != [] {
      assert s[0] in s && s[|s| - 1] in s;
    }
  }

  function JoinedAll(ds: seq<Direction>): (r: seq<string>)
    ensures |r| == |ds| && forall k | 0 <= k < |ds| :: r[k] == ds[k].title + ", " + ds[k].text
  {
    if ds == [] then [] else [ds[0].title + ", " + ds[0].text] + JoinedAll(ds[1..])
  }

  /** `db_value` frames each direction as `"(t, x)"`. */
  lemma DirectionsFramed(ds: seq<Direction>)
    ensures StringifyAll(AsElements(ds)) == FramedAll(JoinedAll(ds))
  {
    var inners := JoinedAll(ds);
    forall k | 0 <= k < |ds| ensures StringifyAll(AsElements(ds))[k] == FramedAll(inners)[k] {
      assert Join(", ", [ds[k].title, ds[k].text]) == inners[k];
    }
  }

  /** A plain single-line direction joined as `t, x` holds no `)` and no
      newline, so the group around it closes at its own `)`. */
  lemma DirectionsEnclosable(ds: seq<Direction>)
    requires PlainAll(ds) && SingleLine(ds)
    ensures forall k | 0 <= k < |ds| :: Enclosable(JoinedAll(ds)[k], true)
  {
    forall k | 0 <= k < |ds| ensures Enclosable(JoinedAll(ds)[k], true) {
      var t, x := ds[k].title, ds[k].text;
      assert ')' !in t && ')' !in x && '\n' !in t && '\n' !in x;
      assert JoinedAll(ds)[k] == t + ", " + x;
    }
  }

  /** The groups found in what `db_value` writes are the `(t, x)` pairs. */
  lemma ArrayScan(ds: seq<Direction>)
    requires PlainAll(ds) && SingleLine(ds)
    ensures Scan(ArrayDbValue(AsElements(ds)), true) == Parenthesized(JoinedAll(ds))
  {
    var inners := JoinedAll(ds);
    var body := Join(", ", FramedAll(inners));
    DirectionsFramed(ds);
    assert ArrayDbValue(AsElements(ds)) == "{" + (body + "}");
    ScanSkip("{", body + "}", true);
    DirectionsEnclosable(ds);
    ScanFramed(", ", inners, "}", true);
  }

  lemma DecodeGroup(d: Direction)
    requires Plain(d.title) && Plain(d.text)
    ensures DirectionOf(Str(Unescape("(" + (d.title + ", " + d.text) + ")"))) == Ok(d)
  {
    var g := "(" + (d.title + ", " + d.text) + ")";
    assert g == "(" + d.title + ", " + d.text + ")";
    UnescapePlain(g);
    DirectionFromJoined(d.title, d.text);
  }

  /** Decoding what `db_value` writes for a list of single-line directions
      gives the same directions, in order. */
  lemma ArrayRoundTrip(ds: seq<Direction>)
    requires PlainAll(ds) && SingleLine(ds)
    ensures ArrayPythonValue(Str(ArrayDbValue(AsElements(ds))), DirectionOf) == OkAll(ds)
  {
    var s := ArrayDbValue(AsElements(ds));
    ArrayScan(ds);
    var r := ArrayPythonValue(Str(s), DirectionOf);
    assert |r| == |ds|;
    forall k | 0 <= k < |ds| ensures r[k] == Ok(ds[k]) {
      DecodeGroup(ds[k]);
    }
  }

  /** PostgreSQL's text output of an array of composite values. Each
      element holds a comma, so each is double-quoted, with `"` and `\\`
      backslash-escaped inside. */
  function ArrayOut(records: seq<seq<string>>): string {
    "{" + Join(",", ArrayItems(records)) + "}"
  }

  function ArrayItem(fields: seq<string>): string {
    "\"" + Escape(RecordOut(fields)) + "\""
  }

  function ArrayItems(records: seq<seq<string>>): (r: seq<string>)
    ensures |r| == |records| && forall k | 0 <= k < |records| :: r[k] == ArrayItem(records[k])
  {
    if records == [] then [] else [ArrayItem(records[0])] + ArrayItems(records[1..])
  }

  /** The fields PostgreSQL stores for each direction (`DirectionStored`). */
  function Stored(ds: seq<Direction>): (r: seq<seq<string>>)
    ensures |r| == |ds| && forall k | 0 <= k < |ds| :: r[k] == [ds[k].title, " " + ds[k].text]
  {
    if ds == [] then [] else [[ds[0].title, " " + ds[0].text]] + Stored(ds[1..])
  }

  /** The text between the parentheses of a stored direction. */
  function RecordBody(d: Direction): string {
    RecordField(d.title) + [','] + RecordField(" " + d.text)
  }

  lemma FieldChars(f: string, c: char)
    requires Plain(f) && c != '"'
    ensures c in RecordField(f) <==> c in f
  {
    if NeedsQuotes(f) {
      assert RecordField(f) == ['"'] + f + ['"'];
    }
  }

  lemma BodyChars(d: Direction, c: char)
    requires Plain(d.title) && Plain(d.text) && c != '"' && c != ',' && c != ' '
    ensures c in RecordBody(d) <==> c in d.title || c in d.text
  {
    FieldChars(d.title, c);
    FieldChars(" " + d.text, c);
    assert c in " " + d.text <==> c in d.text;
  }

  /** A stored direction as an array element: a framed group around the
      escaped record body, which unescapes back to the record text. */
  lemma ItemFramed(d: Direction)
    requires Plain(d.title) && Plain(d.text)
    ensures RecordOut([d.title, " " + d.text]) == "(" + RecordBody(d) + ")"
    ensures ArrayItem([d.title, " " + d.text]) == Framed(Escape(RecordBody(d)))
    ensures Unescape("(" + Escape(RecordBody(d)) + ")") == RecordOut([d.title, " " + d.text])
    ensures ')' !in Escape(RecordBody(d)) && '(' !in Escape(RecordBody(d))
    ensures '\n' in Escape(RecordBody(d)) <==> '\n' in d.title || '\n' in d.text
  {
    var body := RecordBody(d);
    ItemShape(d);
    BodyEscapeChars(d);
    UnescapeEscape("(" + body + ")");
  }

  /** Escaping leaves the parentheses around a record body alone. */
  lemma EscapeParens(body: string)
    ensures Escape("(" + body + ")") == "(" + Escape(body) + ")"
  {
    EscapeAppend("(", body + ")");
    EscapeAppend(body, ")");
    assert "(" + body + ")" == "(" + (body + ")");
    assert Escape("(") == "(" && Escape(")") == ")";
  }

  lemma ItemShape(d: Direction)
    ensures RecordOut([d.title, " " + d.text]) == "(" + RecordBody(d) + ")"
    ensures ArrayItem([d.title, " " + d.text]) == Framed(Escape(RecordBody(d)))
    ensures Escape("(" + RecordBody(d) + ")") == "(" + Escape(RecordBody(d)) + ")"
  {
    var body := RecordBody(d);
    assert Join(",", RecordFieldAll([d.title, " " + d.text])) == body;
    EscapeParens(body);
  }

  lemma BodyEscapeChars(d: Direction)
    requires Plain(d.title) && Plain(d.text)
    ensures '\\' !in RecordBody(d)
    ensures ')' !in Escape(RecordBody(d)) && '(' !in Escape(RecordBody(d))
    ensures '\n' in Escape(RecordBody(d)) <==> '\n' in d.title || '\n' in d.text
  {
    var body := RecordBody(d);
    BodyChars(d, '\\');
    BodyChars(d, ')');
    BodyChars(d, '(');
    BodyChars(d, '\n');
    EscapeKeeps(body, ')');
    EscapeKeeps(body, '(');
    EscapeKeeps(body, '\n');
  }

  /** The groups found in PostgreSQL's array text are the record texts, each
      still escaped. */
  lemma FetchedScan(ds: seq<Direction>, stopAtNewline: bool)
    requires PlainAll(ds) && (stopAtNewline ==> SingleLine(ds))
    ensures Scan(ArrayOut(Stored(ds)), stopAtNewline) == Parenthesized(EscapedBodies(ds))
  {
    var inners := EscapedBodies(ds);
    assert ArrayItems(Stored(ds)) == FramedAll(inners) by {
      forall k | 0 <= k < |ds| ensures ArrayItems(Stored(ds))[k] == FramedAll(inners)[k] {
        ItemFramed(ds[k]);
      }
    }
    forall k | 0 <= k < |inners| ensures Enclosable(inners[k], stopAtNewline) {
      ItemFramed(ds[k]);
    }
    assert ArrayOut(Stored(ds)) == "{" + (Join(",", FramedAll(inners)) + "}");
    ScanSkip("{", Join(",", FramedAll(inners)) + "}", stopAtNewline);
    ScanFramed(",", inners, "}", stopAtNewline);
  }

  function EscapedBodies(ds: seq<Direction>): (r: seq<string>)
    ensures |r| == |ds| && forall k | 0 <= k < |ds| :: r[k] == Escape(RecordBody(ds[k]))
  {
    if ds == [] then [] else [Escape(RecordBody(ds[0]))] + EscapedBodies(ds[1..])
  }

  lemma FetchedGroup(d: Direction)
    requires Plain(d.title) && Plain(d.text)
    ensures DirectionOf(Str(Unescape("(" + Escape(RecordBody(d)) + ")"))) == Ok(d)
  {
    ItemFramed(d);
    DirectionFromDatabase(d.title, d.text);
  }

  lemma {:induction false} FetchedDecode(ds: seq<Direction>, stopAtNewline: bool)
    requires PlainAll(ds) && (stopAtNewline ==> SingleLine(ds))
    ensures DecodeArray(Str(ArrayOut(Stored(ds))), DirectionOf, stopAtNewline) == OkAll(ds)
  {
    FetchedScan(ds, stopAtNewline);
    var r := DecodeArray(Str(ArrayOut(Stored(ds))), DirectionOf, stopAtNewline);
    assert |r| == |ds|;
    forall k | 0 <= k < |ds| ensures r[k] == Ok(ds[k]) {
      FetchedGroup(ds[k]);
    }
  }

  /** Fetching a stored list of single-line directions gives them back, in
      order and in number. */
  lemma ArrayFetched(ds: seq<Direction>)
    requires PlainAll(ds) && SingleLine(ds)
    ensures ArrayPythonValue(Str(ArrayOut(Stored(ds))), DirectionOf) == OkAll(ds)
  {
    FetchedDecode(ds, true);
  }

  /** With DOTALL the same holds for directions spanning several lines. */
  lemma ArrayFetchedDotAll(ds: seq<Direction>)
    requires PlainAll(ds)
    ensures ArrayPythonValueDotAll(Str(ArrayOut(Stored(ds))), DirectionOf) == OkAll(ds)
  {
    FetchedDecode(ds, false);
  }

  /** As written, a stored direction whose text spans lines is dropped from
      the fetched list: nothing is decoded and nothing is reported. */
  lemma ArrayDropsMultiline(t: string, x: string)
    requires Plain(t) && Plain(x) && '\n' in x
    ensures ArrayPythonValue(Str(ArrayOut(Stored([Direction(t, x)]))), DirectionOf) == []
    ensures ArrayPythonValueDotAll(Str(ArrayOut(Stored([Direction(t, x)]))), DirectionOf) == [Ok(Direction(t, x))]
  {
    var d := Direction(t, x);
    MultilineUnscanned(d);
    ArrayFetchedDotAll([d]);
  }

  /** PostgreSQL's text of a one-element array, regrouped around the
      element's parentheses. */
  lemma OneItem(e: string)
    ensures "{" + Framed(e) + "}" == "{\"" + ("(" + e + ")" + "\"}")
  {
  }

  /** Without DOTALL no group is found in PostgreSQL's text for a
      direction whose text spans lines. */
  lemma MultilineUnscanned(d: Direction)
    requires Plain(d.title) && Plain(d.text) && '\n' in d.text
    ensures Scan(ArrayOut(Stored([d])), true) == []
  {
    var e := Escape(RecordBody(d));
    ItemFramed(d);
    assert '\n' in e;
    var items := ArrayItems(Stored([d]));
    assert items == [Framed(e)];
    assert Join(",", items) == Framed(e);
    OneItem(e);
    ScanSkip("{\"", "(" + e + ")" + "\"}", true);
    ScanBlocked(e, "\"}");
    ScanSkip("\"}", [], true);
    assert "\"}" + [] == "\"}";
  }
}
