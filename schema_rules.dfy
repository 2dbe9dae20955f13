/** The value-level rules of the marshmallow schemas: the response
    envelope, the `Direction` tuple conversion, the list-PUT id check, the
    nested post check, and the field rules (required fields, `missing`
    defaults, ranges and closed sets) of the recipe schemas. */
module SchemaRules {
  import opened Json

  const FULLFIL_HELP := "More info about fulfilling this entity here: http://link/to/the/doc"
  /** marshmallow's messages. */
  const MISSING := "Missing data for required field."
  const CHOICE := "Not a valid choice."
  const INTEGER := "Not a valid integer."
  const STRING := "Not a valid string."
  const NULL := "Field may not be null."

  // ----- envelopes -----

  /** `__envelope__`: the key a dump is wrapped in, for one object and for
      a list. */
  datatype Envelope = Envelope(single: Option<string>, many: Option<string>)

  datatype Schema = Default | Utensil | Ingredient | Recipe

  /** The `__envelope__` each schema declares: the entity's name, and its
      plural for lists. */
  function EnvelopeOf(s: Schema): (r: Envelope)
    ensures s == Default ==> r == Envelope(None, None)
    ensures s != Default ==> r.single.Some? && r.many == Some(r.single.value + "s")
  {
    match s
    case Default => Envelope(None, None)
    case Utensil =>
      assert "utensil" + "s" == "utensils";
      Envelope(Some("utensil"), Some("utensils"))
    case Ingredient =>
      assert "ingredient" + "s" == "ingredients";
      Envelope(Some("ingredient"), Some("ingredients"))
    case Recipe =>
      assert "recipe" + "s" == "recipes";
      Envelope(Some("recipe"), Some("recipes"))
  }

  function GetEnvelopeKey(env: Envelope, many: bool): Option<string> {
    if many then env.many else env.single
  }

  /** How a client reads a dumped body back: under the envelope key, or
      the body itself when there is none. */
  function Unwrap(env: Envelope, many: bool, body: Json): Option<Json> {
    match GetEnvelopeKey(env, many)
    case None => Some(body)
    case Some(k) => if body.Obj? then Get(body.fields, k) else None
  }

  /** `Default.wrap_with_envelope`: no key leaves the data as it is,
      otherwise it becomes the only entry of a one-key dict, so a client
      reading under the same key gets the data back. */
  function WrapWithEnvelope(env: Envelope, data: Json, many: bool): (r: Json)
    ensures GetEnvelopeKey(env, many).None? ==> r == data
    ensures GetEnvelopeKey(env, many).Some? ==>
      r.Obj? && NoDup(r.fields) && Keys(r.fields) == {GetEnvelopeKey(env, many).value}
    ensures Unwrap(env, many, r) == Some(data)
  {
    match GetEnvelopeKey(env, many)
    case None => data
    case Some(k) =>
      assert Keys([(k, data)]) == {k} by { assert [(k, data)][1..] == []; }
      Obj([(k, data)])
  }

  /** A dump of one entity schema is wrapped under the singular name, a
      list dump under the plural. */
  lemma EntityEnvelope(s: Schema, data: Json, many: bool)
    requires s != Default
    ensures WrapWithEnvelope(EnvelopeOf(s), data, many).Obj?
    ensures Unwrap(EnvelopeOf(s), many, WrapWithEnvelope(EnvelopeOf(s), data, many)) == Some(data)
    ensures many ==> Keys(WrapWithEnvelope(EnvelopeOf(s), data, many).fields) == {EnvelopeOf(s).single.value + "s"}
    ensures !many ==> Keys(WrapWithEnvelope(EnvelopeOf(s), data, many).fields) == {EnvelopeOf(s).single.value}
  {
  }

  /** `Nested.wrap_with_envelope` overrides the entity schema's hook with
      one that returns `data` as it is: a recipe's nested utensils and
      ingredients dump as a schema without envelope would, and never as
      their entity schema's wrapped dump. */
  lemma NestedNeverWraps(s: Schema, data: Json, many: bool)
    ensures WrapWithEnvelope(EnvelopeOf(Default), data, many) == data
    ensures s != Default ==> WrapWithEnvelope(EnvelopeOf(s), data, many) != data
  {
    if s != Default {
      var w := WrapWithEnvelope(EnvelopeOf(s), data, many);
      assert w.Obj? && |w.fields| == 1 && w.fields[0].1 == data;
      assert data < w;
    }
  }

  // ----- Direction -----

  const DIRECTION_KEYS: seq<string> := ["title", "text"]

  /** `dict(zip(keys, values))`, stopping at the shorter one. */
  function Zip(ks: seq<string>, vs: seq<Json>): (r: Fields)
    ensures |r| == if |ks| < |vs| then |ks| else |vs|
    ensures forall i | 0 <= i < |r| :: r[i] == (ks[i], vs[i])
  {
    if ks == [] || vs == [] then [] else [(ks[0], vs[0])] + Zip(ks[1..], vs[1..])
  }

  /** `Direction.to_tuple`: the title and the text, in that order. */
  function ToTuple(data: Fields): (r: seq<Json>)
    requires "title" in Keys(data) && "text" in Keys(data)
    ensures |r| == 2 && Get(data, "title") == Some(r[0]) && Get(data, "text") == Some(r[1])
  {
    [At(data, "title"), At(data, "text")]
  }

  /** `Direction.from_tuple`: the first two components under `title` and
      `text`. */
  function FromTuple(t: seq<Json>): (r: Fields)
    ensures |r| <= 2 && |r| <= |t|
    ensures forall i | 0 <= i < |r| :: r[i] == (DIRECTION_KEYS[i], t[i])
  {
    Zip(DIRECTION_KEYS, t)
  }

  /** A pair read back from the database dumps to the dict it was loaded
      from. */
  lemma {:induction false} ToFromTuple(t: seq<Json>)
    requires |t| == 2
    ensures var d := FromTuple(t); "title" in Keys(d) && "text" in Keys(d) && ToTuple(d) == t
  {
    var d := FromTuple(t);
    assert d == [("title", t[0]), ("text", t[1])];
    assert d[1..][1..] == [];
    assert Get(d, "title") == Some(t[0]);
    assert Get(d, "text") == Some(t[1]);
  }

  /** A loaded direction dict survives the tuple round trip as a dict. */
  lemma {:induction false} FromToTuple(d: Fields)
    requires NoDup(d) && Keys(d) == {"title", "text"}
    ensures SameDict(FromTuple(ToTuple(d)), d)
  {
    var t := ToTuple(d);
    var e := FromTuple(t);
    assert e == [("title", t[0]), ("text", t[1])];
    assert e[1..][1..] == [];
    assert Keys(e) == {"title", "text"};
    assert Get(e, "title") == Some(t[0]);
    assert Get(e, "text") == Some(t[1]);
  }

  // ----- Put.put_id_validator -----

  /** marshmallow's `is_collection`: a list, not a string or a dict. */
  predicate IsCollection(j: Json) {
    j.List?
  }

  /** `put_id_validator`, run on each item of a load whose original
      payload was `original`: inside a list, an item without a truthy `id`
      is rejected with the required message under `id`. */
  function PutIdValidator(data: Fields, original: Json): (r: Option<Fields>)
    ensures r.Some? ==> r.value == [("id", List([Str(MISSING)]))]
  {
    if IsCollection(original) && !(Get(data, "id").Some? && Truthy(Get(data, "id").value)) then
      Some([("id", List([Str(MISSING)]))])
    else
      None
  }

  /** In a list PUT an integer id is accepted exactly when it is non-zero,
      and an item without `id` is refused; a single-object PUT is never
      refused by this check. */
  lemma PutIdRequired(data: Fields, original: Json)
    ensures !IsCollection(original) ==> PutIdValidator(data, original).None?
    ensures IsCollection(original) && "id" !in Keys(data) ==> PutIdValidator(data, original).Some?
    ensures forall n :: IsCollection(original) && Get(data, "id") == Some(Int(n)) ==>
      (PutIdValidator(data, original).None? <==> n != 0)
  {
  }

  // ----- Post and Nested.validate_schema -----

  /** The required-field errors of a post schema (every field required)
      whose fields are `fields`: one `[MISSING]` per absent field. */
  function MissingRequired(fields: seq<string>, data: Fields): (r: Fields)
    ensures Keys(r) == set f | f in fields && f !in Keys(data)
    ensures forall f | f in Keys(r) :: Get(r, f) == Some(List([Str(MISSING)]))
    ensures Distinct(fields) ==> NoDup(r)
  {
    if fields == [] then []
    else
      var rest := MissingRequired(fields[1..], data);
      assert forall f | f in fields :: f == fields[0] || f in fields[1..];
      if fields[0] in Keys(data) then rest
      else
        var r := [(fields[0], List([Str(MISSING)]))] + rest;
        assert r[1..] == rest;
        r
  }

  predicate Distinct(xs: seq<string>) {
    forall i, j | 0 <= i < j < |xs| :: xs[i] != xs[j]
  }

  /** The post schema fields of a nested utensil and of a nested
      ingredient (`id` excluded). */
  const UTENSIL_POST_FIELDS: seq<string> := ["name"]
  const INGREDIENT_POST_FIELDS: seq<string> := ["name"]

  /** `Nested.validate_schema`: an item with `id` refers to an existing
      row and is not checked; otherwise it must have every post field, and
      the errors then carry the `_` help text as well. */
  function ValidateNested(postFields: seq<string>, data: Fields): (r: Option<Fields>)
    ensures r.Some? <==> "id" !in Keys(data) && exists f | f in postFields :: f !in Keys(data)
    ensures r.Some? ==> Keys(r.value) == (set f | f in postFields && f !in Keys(data)) + {"_"}
    ensures r.Some? ==> Get(r.value, "_") == Some(Str(FULLFIL_HELP))
    ensures r.Some? ==> forall f | f in postFields && f !in Keys(data) && f != "_" ::
      Get(r.value, f) == Some(List([Str(MISSING)]))
  {
    if "id" in Keys(data) then None
    else
      var e := MissingRequired(postFields, data);
      if e == [] then
        assert forall f | f in postFields :: f in Keys(data) by {
          forall f | f in postFields ensures f in Keys(data) {
            assert f in Keys(e) <==> f !in Keys(data);
          }
        }
        None
      else
        assert e[0].0 in Keys(e);
        Some(Put(e, "_", Str(FULLFIL_HELP)))
  }

  // ----- field rules -----

  /** The `validate=` argument of a field. */
  datatype Rule = Range(lo: Option<int>, hi: Option<int>) | OneOf(choices: seq<string>)

  /** The field class: what the value's type must be. A nested list is
      checked by its own schema, not here. */
  datatype Kind = IntField | StrField | NestedList

  /** One declared field: its name, class, validator, `required` flag and
      `missing` default. */
  datatype FieldSpec = FieldSpec(name: string, kind: Kind, rule: Option<Rule>, required: bool, default: Option<Json>)

  function Digit(d: nat): char
    requires d < 10
  {
    "0123456789"[d]
  }

  /** `str(n)` for a natural number. */
  function ShowNat(n: nat): (r: string)
    ensures |r| >= 1
    decreases n
  {
    if n < 10 then [Digit(n)] else ShowNat(n / 10) + [Digit(n % 10)]
  }

  /** `str(n)`. */
  function Show(n: int): string {
    if n < 0 then "-" + ShowNat(-n) else ShowNat(n)
  }

  /** marshmallow's `Range` messages: `at least` with only a minimum, `at
      most` with only a maximum, `between` with both. */
  function RangeError(lo: Option<int>, hi: Option<int>): string {
    if lo.Some? && hi.Some? then "Must be between " + Show(lo.value) + " and " + Show(hi.value) + "."
    else if lo.Some? then "Must be at least " + Show(lo.value) + "."
    else if hi.Some? then "Must be at most " + Show(hi.value) + "."
    else ""
  }

  /** The values a rule lets through. */
  predicate Allows(rule: Rule, v: Json) {
    match rule
    case Range(lo, hi) => v.Int? && (lo.None? || lo.value <= v.i) && (hi.None? || v.i <= hi.value)
    case OneOf(cs) => v.Str? && v.s in cs
  }

  /** The validator: nothing for a value it allows, its message
      otherwise. */
  function Check(rule: Rule, v: Json): (r: Option<string>)
    requires rule.Range? ==> v.Int?
    requires rule.OneOf? ==> v.Str?
    ensures r.None? <==> Allows(rule, v)
    ensures rule.Range? && r.Some? ==> r.value == RangeError(rule.lo, rule.hi)
    ensures rule.OneOf? && r.Some? ==> r.value == CHOICE
  {
    match rule
    case Range(lo, hi) =>
      if (lo.Some? && v.i < lo.value) || (hi.Some? && v.i > hi.value) then Some(RangeError(lo, hi)) else None
    case OneOf(cs) =>
      if v.s in cs then None else Some(CHOICE)
  }

  /** What loading one field gives. */
  datatype Outcome = Skipped | Value(v: Json) | Failed(msgs: seq<string>)

  /** One field of a load: the `missing` default stands in for an absent
      value before the required check; `null` and a value of the wrong
      type are refused, then the validator runs. */
  function LoadField(f: FieldSpec, data: Fields): (r: Outcome)
    ensures r.Failed? ==> |r.msgs| == 1
    ensures r == Skipped <==> f.name !in Keys(data) && f.default.None? && !f.required
    ensures r.Value? ==> Get(data, f.name) == Some(r.v) || (f.name !in Keys(data) && f.default == Some(r.v))
    ensures r.Value? && f.rule.Some? ==> Allows(f.rule.value, r.v)
  {
    var raw := if f.name in Keys(data) then Get(data, f.name) else f.default;
    match raw
    case None => if f.required then Failed([MISSING]) else Skipped
    case Some(v) =>
      if v.Null? then Failed([NULL])
      else if f.kind == IntField && !v.Int? then Failed([INTEGER])
      else if f.kind == StrField && !v.Str? then Failed([STRING])
      else if f.rule.Some? && (f.rule.value.Range? ==> v.Int?) && (f.rule.value.OneOf? ==> v.Str?) then
        var c := Check(f.rule.value, v);
        if c.Some? then Failed([c.value]) else Value(v)
      else if f.rule.Some? then Failed([if f.rule.value.Range? then INTEGER else STRING])
      else Value(v)
  }

  /** A list of messages as it appears in an error dict. */
  function Messages(msgs: seq<string>): Json {
    List(seq(|msgs|, i requires 0 <= i < |msgs| => Str(msgs[i])))
  }

  /** No two fields share a name. */
  predicate DistinctNames(specs: seq<FieldSpec>) {
    forall i, j | 0 <= i < j < |specs| :: specs[i].name != specs[j].name
  }

  /** The entry a field contributes to the loaded data (`errors` false)
      or to the error dict (`errors` true). */
  function Entry(f: FieldSpec, data: Fields, errors: bool): Option<Json> {
    match LoadField(f, data)
    case Skipped => None
    case Value(v) => if errors then None else Some(v)
    case Failed(msgs) => if errors then Some(Messages(msgs)) else None
  }

  /** The loaded data or the error dict of a schema load, one entry per
      field that contributes one, under the field's name. */
  function Collect(specs: seq<FieldSpec>, data: Fields, errors: bool): (r: Fields)
    ensures Keys(r) == set f | f in specs && Entry(f, data, errors).Some? :: f.name
    ensures DistinctNames(specs) ==> NoDup(r)
    ensures DistinctNames(specs) ==> forall f | f in specs && Entry(f, data, errors).Some? ::
      Get(r, f.name) == Entry(f, data, errors)
  {
    if specs == [] then []
    else
      var rest := Collect(specs[1..], data, errors);
      CollectStep(specs, data, errors, rest);
      match Entry(specs[0], data, errors)
      case None => rest
      case Some(v) =>
        assert ([(specs[0].name, v)] + rest)[1..] == rest;
        [(specs[0].name, v)] + rest
  }

  /** The facts `Collect` needs about its first field and the rest. */
  lemma CollectStep(specs: seq<FieldSpec>, data: Fields, errors: bool, rest: Fields)
    requires specs != []
    requires Keys(rest) == set f | f in specs[1..] && Entry(f, data, errors).Some? :: f.name
    ensures forall f | f in specs :: f == specs[0] || f in specs[1..]
    ensures (set f | f in specs && Entry(f, data, errors).Some? :: f.name) ==
      (if Entry(specs[0], data, errors).Some? then {specs[0].name} else {}) + Keys(rest)
    ensures DistinctNames(specs) ==> DistinctNames(specs[1..])
    ensures DistinctNames(specs) ==> specs[0].name !in Keys(rest)
    ensures DistinctNames(specs) ==> forall f | f in specs[1..] :: f.name != specs[0].name
  {
    if DistinctNames(specs) {
      forall f | f in specs[1..] ensures f.name != specs[0].name {
        var j :| 0 <= j < |specs[1..]| && specs[1..][j] == f;
        assert specs[0].name != specs[j + 1].name;
      }
    }
    assert forall f | f in specs :: f == specs[0] || f in specs[1..];
  }

  /** A schema load: the loaded data and the error dict. */
  function Load(specs: seq<FieldSpec>, data: Fields): (Fields, Fields) {
    (Collect(specs, data, false), Collect(specs, data, true))
  }

  // ----- the recipe schemas -----

  const PEOPLE := Range(Some(1), Some(12))
  const DIFFICULTY := Range(Some(1), Some(5))
  const QUANTITY := Range(Some(0), None)
  const MEASUREMENTS: seq<string> := ["L", "g", "oz", "spoon"]
  const CATEGORIES: seq<string> := ["starter", "main", "dessert"]
  const DURATIONS: seq<string> :=
    ["0/5", "5/10", "10/15", "15/20", "20/25", "25/30", "30/45", "45/60", "60/75", "75/90", "90/120", "120/150"]

  /** `Post.__init__` and `Meta.exclude`: `id` is dropped and every other
      field becomes required. */
  function Post(specs: seq<FieldSpec>): (r: seq<FieldSpec>)
    ensures forall f | f in r :: f.name != "id" && f.required
    ensures forall f | f in specs && f.name != "id" :: f.(required := true) in r
    ensures forall g | g in r :: exists f | f in specs :: g == f.(required := true)
  {
    if specs == [] then []
    else
      var rest := Post(specs[1..]);
      assert forall f | f in specs :: f == specs[0] || f in specs[1..];
      if specs[0].name == "id" then rest else [specs[0].(required := true)] + rest
  }

  /** `Default`'s `id` field. */
  const ID_FIELD := FieldSpec("id", IntField, None, false, None)

  /** `RecipePost`'s own fields: those of `Recipe`, the nested lists with
      a `[]` default. */
  const RECIPE_POST_OWN: seq<FieldSpec> := [
    FieldSpec("name", StrField, None, false, None),
    FieldSpec("people", IntField, Some(PEOPLE), false, None),
    FieldSpec("difficulty", IntField, Some(DIFFICULTY), false, None),
    FieldSpec("duration", StrField, Some(OneOf(DURATIONS)), false, None),
    FieldSpec("category", StrField, Some(OneOf(CATEGORIES)), false, None),
    FieldSpec("directions", NestedList, None, false, Some(List([]))),
    FieldSpec("utensils", NestedList, None, false, Some(List([]))),
    FieldSpec("ingredients", NestedList, None, false, Some(List([])))
  ]

  /** The fields of a nested ingredient of a recipe. */
  const RECIPE_INGREDIENT: seq<FieldSpec> := [
    ID_FIELD,
    FieldSpec("name", StrField, None, false, None),
    FieldSpec("quantity", IntField, Some(QUANTITY), true, None),
    FieldSpec("measurement", StrField, Some(OneOf(MEASUREMENTS)), true, None)
  ]

  lemma ShowSmall()
    ensures Show(0) == "0" && Show(1) == "1" && Show(5) == "5" && Show(12) == "12"
  {
    assert ShowNat(1) == "1";
    assert ShowNat(12) == ShowNat(1) + [Digit(2)];
  }

  /** The recipe ranges: people from 1 to 12 and difficulty from 1 to 5,
      with marshmallow's `between` message; a quantity is at least 0. */
  lemma RecipeRanges(n: int)
    ensures Check(PEOPLE, Int(n)) == if 1 <= n <= 12 then None else Some("Must be between 1 and 12.")
    ensures Check(DIFFICULTY, Int(n)) == if 1 <= n <= 5 then None else Some("Must be between 1 and 5.")
    ensures Check(QUANTITY, Int(n)) == if 0 <= n then None else Some("Must be at least 0.")
  {
    ShowSmall();
    assert RangeError(Some(1), Some(12)) == "Must be between 1 and 12.";
    assert RangeError(Some(1), Some(5)) == "Must be between 1 and 5.";
    assert RangeError(Some(0), None) == "Must be at least 0.";
  }

  /** The closed sets: a value outside them gets `Not a valid choice.`. */
  lemma RecipeChoices(s: string)
    ensures Check(OneOf(MEASUREMENTS), Str(s)).None? <==> s in {"L", "g", "oz", "spoon"}
    ensures Check(OneOf(CATEGORIES), Str(s)).None? <==> s in {"starter", "main", "dessert"}
    ensures Check(OneOf(DURATIONS), Str(s)).None? <==> s in DURATIONS && |DURATIONS| == 12
    ensures Check(OneOf(MEASUREMENTS), Str(s)).Some? ==> Check(OneOf(MEASUREMENTS), Str(s)).value == CHOICE
  {
  }

  /** Every field made required. */
  function Required(specs: seq<FieldSpec>): seq<FieldSpec> {
    seq(|specs|, i requires 0 <= i < |specs| => specs[i].(required := true))
  }

  /** Without an `id` field, `Post` only makes every field required. */
  lemma {:induction false} PostWithoutId(specs: seq<FieldSpec>)
    requires forall i | 0 <= i < |specs| :: specs[i].name != "id"
    ensures Post(specs) == Required(specs)
  {
    if specs != [] {
      PostWithoutId(specs[1..]);
      assert Required(specs) == [specs[0].(required := true)] + Required(specs[1..]);
    }
  }

  /** The fields of `RecipePost`: its own, each required. */
  const RECIPE_POST: seq<FieldSpec> := Required(RECIPE_POST_OWN)

  /** A schema deriving from `Default` and `Post`: `id` goes, every
      other field becomes required. This is how `RECIPE_POST` is
      obtained from `ID_FIELD` and `RECIPE_POST_OWN`. */
  lemma PostOfDefault(specs: seq<FieldSpec>)
    requires forall i | 0 <= i < |specs| :: specs[i].name != "id"
    ensures Post([ID_FIELD] + specs) == Required(specs)
  {
    assert ([ID_FIELD] + specs)[1..] == specs;
    PostWithoutId(specs);
  }

  lemma RecipePostDistinct()
    ensures DistinctNames(RECIPE_POST)
  {
  }

  /** What `Collect` holds under one field's name. */
  lemma {:induction false} EntryAt(specs: seq<FieldSpec>, data: Fields, errors: bool, i: nat)
    requires DistinctNames(specs) && i < |specs|
    ensures Entry(specs[i], data, errors).Some? ==>
      Get(Collect(specs, data, errors), specs[i].name) == Entry(specs[i], data, errors)
    ensures Entry(specs[i], data, errors).None? ==> specs[i].name !in Keys(Collect(specs, data, errors))
  {
    assert specs[i] in specs;
  }

  /** A required field with no default that is absent is reported
      missing. */
  lemma MissingField(specs: seq<FieldSpec>, data: Fields, i: nat)
    requires DistinctNames(specs) && i < |specs|
    requires specs[i].required && specs[i].default.None? && specs[i].name !in Keys(data)
    ensures Get(Load(specs, data).1, specs[i].name) == Some(Messages([MISSING]))
  {
    assert LoadField(specs[i], data) == Failed([MISSING]);
    EntryAt(specs, data, true, i);
  }

  /** An absent field with a default loads the default and is no error. */
  lemma DefaultField(specs: seq<FieldSpec>, data: Fields, i: nat)
    requires DistinctNames(specs) && i < |specs|
    requires specs[i].default == Some(List([])) && specs[i].kind == NestedList && specs[i].rule.None?
    requires specs[i].name !in Keys(data)
    ensures Get(Load(specs, data).0, specs[i].name) == Some(List([]))
    ensures specs[i].name !in Keys(Load(specs, data).1)
  {
    assert LoadField(specs[i], data) == Value(List([]));
    EntryAt(specs, data, false, i);
    EntryAt(specs, data, true, i);
  }

  /** A present value of the right type is loaded when its rule allows it
      and refused with the rule's message otherwise. */
  lemma CheckedField(specs: seq<FieldSpec>, data: Fields, i: nat, v: Json)
    requires DistinctNames(specs) && i < |specs| && specs[i].rule.Some?
    requires Get(data, specs[i].name) == Some(v)
    requires specs[i].rule.value.Range? ==> v.Int? && specs[i].kind == IntField
    requires specs[i].rule.value.OneOf? ==> v.Str? && specs[i].kind == StrField
    ensures Check(specs[i].rule.value, v).None? ==> Get(Load(specs, data).0, specs[i].name) == Some(v)
    ensures Check(specs[i].rule.value, v).Some? ==>
      Get(Load(specs, data).1, specs[i].name) == Some(Messages([Check(specs[i].rule.value, v).value]))
  {
    var c := Check(specs[i].rule.value, v);
    assert LoadField(specs[i], data) == if c.Some? then Failed([c.value]) else Value(v);
    EntryAt(specs, data, false, i);
    EntryAt(specs, data, true, i);
  }

  /** The first five fields of `RecipePost` are required and have no
      default. */
  lemma RecipePostScalar(i: nat)
    requires i < 5
    ensures i < |RECIPE_POST| && RECIPE_POST[i].required && RECIPE_POST[i].default.None?
  {
    assert RECIPE_POST[i] == RECIPE_POST_OWN[i].(required := true);
  }

  /** Creating a recipe: an absent scalar field (name, people,
      difficulty, duration, category) is reported missing. */
  lemma RecipePostMissing(data: Fields, i: nat)
    requires i < 5 && RECIPE_POST[i].name !in Keys(data)
    ensures Get(Load(RECIPE_POST, data).1, RECIPE_POST[i].name) == Some(Messages([MISSING]))
  {
    RecipePostDistinct();
    RecipePostScalar(i);
    MissingField(RECIPE_POST, data, i);
  }

  /** Creating a recipe: an absent directions, utensils or ingredients
      list loads as `[]` and is not an error. */
  lemma RecipePostDefaults(data: Fields, i: nat)
    requires 5 <= i < 8 && RECIPE_POST[i].name !in Keys(data)
    ensures Get(Load(RECIPE_POST, data).0, RECIPE_POST[i].name) == Some(List([]))
    ensures RECIPE_POST[i].name !in Keys(Load(RECIPE_POST, data).1)
  {
    RecipePostDistinct();
    assert RECIPE_POST[i].default == Some(List([])) && RECIPE_POST[i].kind == NestedList && RECIPE_POST[i].rule.None?;
    DefaultField(RECIPE_POST, data, i);
  }

  /** Creating a recipe: people outside 1..12 is refused with
      marshmallow's `between` message. */
  lemma RecipePostPeople(data: Fields, k: int)
    requires Get(data, "people") == Some(Int(k))
    ensures !(1 <= k <= 12) ==> Get(Load(RECIPE_POST, data).1, "people") == Some(Messages(["Must be between 1 and 12."]))
    ensures 1 <= k <= 12 ==> Get(Load(RECIPE_POST, data).0, "people") == Some(Int(k))
  {
    RecipePostDistinct();
    RecipeRanges(k);
    assert RECIPE_POST[1] == FieldSpec("people", IntField, Some(PEOPLE), true, None);
    CheckedField(RECIPE_POST, data, 1, Int(k));
  }

  /** Creating a recipe never loads an `id`. */
  lemma RecipePostNoId(data: Fields)
    ensures "id" !in Keys(Load(RECIPE_POST, data).0) && "id" !in Keys(Load(RECIPE_POST, data).1)
  {
    assert forall f | f in RECIPE_POST :: f.name != "id";
  }

  /** A nested recipe ingredient: the quantity is required even next to
      an `id`, and a negative quantity is refused with `Must be at least
      0.`. */
  lemma RecipeIngredientQuantity(data: Fields, k: int)
    ensures "quantity" !in Keys(data) ==> Get(Load(RECIPE_INGREDIENT, data).1, "quantity") == Some(Messages([MISSING]))
    ensures Get(data, "quantity") == Some(Int(k)) && k < 0 ==>
      Get(Load(RECIPE_INGREDIENT, data).1, "quantity") == Some(Messages(["Must be at least 0."]))
    ensures Get(data, "quantity") == Some(Int(k)) && 0 <= k ==>
      Get(Load(RECIPE_INGREDIENT, data).0, "quantity") == Some(Int(k))
  {
    assert DistinctNames(RECIPE_INGREDIENT);
    assert RECIPE_INGREDIENT[2] == FieldSpec("quantity", IntField, Some(QUANTITY), true, None);
    if "quantity" !in Keys(data) {
      MissingField(RECIPE_INGREDIENT, data, 2);
    }
    if Get(data, "quantity") == Some(Int(k)) {
      RecipeRanges(k);
      CheckedField(RECIPE_INGREDIENT, data, 2, Int(k));
    }
  }

  /** A nested recipe ingredient: the measurement is required, and one
      outside `L, g, oz, spoon` is refused with `Not a valid choice.`. */
  lemma RecipeIngredientMeasurement(data: Fields, s: string)
    ensures "measurement" !in Keys(data) ==> Get(Load(RECIPE_INGREDIENT, data).1, "measurement") == Some(Messages([MISSING]))
    ensures Get(data, "measurement") == Some(Str(s)) && s in {"L", "g", "oz", "spoon"} ==>
      Get(Load(RECIPE_INGREDIENT, data).0, "measurement") == Some(Str(s))
    ensures Get(data, "measurement") == Some(Str(s)) && s !in {"L", "g", "oz", "spoon"} ==>
      Get(Load(RECIPE_INGREDIENT, data).1, "measurement") == Some(Messages([CHOICE]))
  {
    assert DistinctNames(RECIPE_INGREDIENT);
    assert RECIPE_INGREDIENT[3] == FieldSpec("measurement", StrField, Some(OneOf(MEASUREMENTS)), true, None);
    if "measurement" !in Keys(data) {
      MissingField(RECIPE_INGREDIENT, data, 3);
    }
    if Get(data, "measurement") == Some(Str(s)) {
      RecipeChoices(s);
      CheckedField(RECIPE_INGREDIENT, data, 3, Str(s));
    }
  }

  // ----- Dumping a recipe -----

  /** The fields the schemas declare, `id` (from `Default`) first. */
  const RECIPE_FIELDS: seq<string> :=
    ["id", "name", "people", "difficulty", "duration", "category", "directions", "utensils", "ingredients"]
  const UTENSIL_FIELDS: seq<string> := ["id", "name"]
  const INGREDIENT_FIELDS: seq<string> := ["id", "name", "quantity", "measurement"]

  /** What a dump keeps of a dict: the declared fields it has, in
      declaration order; a field it lacks is skipped and a key no field
      declares is dropped. */
  function Select(names: seq<string>, d: Fields): Fields {
    if names == [] then []
    else (if names[0] in Keys(d) then [(names[0], At(d, names[0]))] else []) + Select(names[1..], d)
  }

  lemma {:induction false} SelectSpec(names: seq<string>, d: Fields)
    ensures forall k :: k in Keys(Select(names, d)) <==> k in names && k in Keys(d)
    ensures forall k | k in names :: Get(Select(names, d), k) == Get(d, k)
    ensures Distinct(names) ==> NoDup(Select(names, d))
  {
    if names != [] {
      var x := names[0];
      var rest := Select(names[1..], d);
      SelectSpec(names[1..], d);
      assert forall k | k in names :: k == x || k in names[1..];
      if x in Keys(d) {
        var r := [(x, At(d, x))] + rest;
        assert r[1..] == rest;
        assert Keys(r) == {x} + Keys(rest);
        if Distinct(names) {
          assert Distinct(names[1..]) by {
            forall i, j | 0 <= i < j < |names[1..]| ensures names[1..][i] != names[1..][j] {
              assert names[1..][i] == names[i + 1] && names[1..][j] == names[j + 1];
            }
          }
          assert x !in names[1..] by {
            forall j | 0 <= j < |names[1..]| ensures names[1..][j] != x {
              assert names[1..][j] == names[j + 1];
            }
          }
        }
      } else {
        assert Select(names, d) == rest;
        if Distinct(names) {
          assert Distinct(names[1..]) by {
            forall i, j | 0 <= i < j < |names[1..]| ensures names[1..][i] != names[1..][j] {
              assert names[1..][i] == names[i + 1] && names[1..][j] == names[j + 1];
            }
          }
        }
      }
    }
  }

  /** `Direction.from_tuple`, the pre-dump hook: a loaded direction is a
      `(title, text)` pair and dumps as the dict of the Direction schema's
      `title` and `text` fields. Anything else is not a loaded direction
      and is left as it is. */
  function DumpDirection(j: Json): Json {
    if j.List? then Obj(FromTuple(j.items)) else j
  }

  /** The `directions` list, dumped with `many=True`. */
  function DumpDirections(j: Json): Json {
    if j.List? then List(seq(|j.items|, i requires 0 <= i < |j.items| => DumpDirection(j.items[i]))) else j
  }

  /** A nested utensil or ingredient list, dumped with `many=True`:
      `retrieve_internal` hands a dict over as it is (a dict has no
      `utensil` or `ingredient` attribute), the nested schema keeps its own
      fields, and `Nested.wrap_with_envelope` adds no envelope. */
  function DumpItems(names: seq<string>, j: Json): Json {
    if j.List? then
      List(seq(|j.items|, i requires 0 <= i < |j.items| =>
        if j.items[i].Obj? then Obj(Select(names, j.items[i].fields)) else j.items[i]))
    else j
  }

  /** The dump of one Recipe field: the three nested ones through their
      schema, the Integer and String ones as they are (the loaded values
      already have those types). */
  function DumpField(name: string, v: Json): Json {
    if name == "directions" then DumpDirections(v)
    else if name == "utensils" then DumpItems(UTENSIL_FIELDS, v)
    else if name == "ingredients" then DumpItems(INGREDIENT_FIELDS, v)
    else v
  }

  function DumpValues(f: Fields): Fields {
    if f == [] then [] else [(f[0].0, DumpField(f[0].0, f[0].1))] + DumpValues(f[1..])
  }

  /** `Recipe().dump(recipe).data` before its envelope. */
  function DumpRecipe(c: Fields): Fields {
    DumpValues(Select(RECIPE_FIELDS, c))
  }

  lemma {:induction false} DumpValuesSpec(f: Fields)
    ensures Keys(DumpValues(f)) == Keys(f)
    ensures forall k | k in Keys(f) :: Get(DumpValues(f), k) == Some(DumpField(k, At(f, k)))
    ensures NoDup(f) ==> NoDup(DumpValues(f))
  {
    if f != [] {
      var r := DumpValues(f);
      DumpValuesSpec(f[1..]);
      assert r[1..] == DumpValues(f[1..]);
    }
  }

  /** A recipe dumps to exactly the Recipe fields it has, once each, every
      one through its field's dump. */
  lemma DumpRecipeSpec(c: Fields)
    ensures NoDup(DumpRecipe(c))
    ensures forall k :: k in Keys(DumpRecipe(c)) <==> k in RECIPE_FIELDS && k in Keys(c)
    ensures forall k | k in RECIPE_FIELDS && k in Keys(c) :: Get(DumpRecipe(c), k) == Some(DumpField(k, At(c, k)))
  {
    assert Distinct(RECIPE_FIELDS);
    SelectSpec(RECIPE_FIELDS, c);
    DumpValuesSpec(Select(RECIPE_FIELDS, c));
  }

  /** Loaded directions dump to dicts that `to_tuple` turns back into the
      pairs they came from, in order. */
  lemma DirectionsDumped(j: Json)
    requires j.List? && forall i | 0 <= i < |j.items| :: j.items[i].List? && |j.items[i].items| == 2
    ensures DumpDirections(j).List? && |DumpDirections(j).items| == |j.items|
    ensures forall i | 0 <= i < |j.items| ::
      && DumpDirections(j).items[i].Obj?
      && "title" in Keys(DumpDirections(j).items[i].fields) && "text" in Keys(DumpDirections(j).items[i].fields)
      && ToTuple(DumpDirections(j).items[i].fields) == j.items[i].items
  {
    forall i | 0 <= i < |j.items|
      ensures DumpDirections(j).items[i] == Obj(FromTuple(j.items[i].items))
      ensures var d := FromTuple(j.items[i].items); "title" in Keys(d) && "text" in Keys(d) && ToTuple(d) == j.items[i].items
    {
      ToFromTuple(j.items[i].items);
    }
  }

  /** A nested list dumps item by item, in order: each dict keeps exactly
      the nested schema's fields it has, with their values. */
  lemma ItemsDumped(names: seq<string>, j: Json)
    requires j.List? && Distinct(names) && forall i | 0 <= i < |j.items| :: j.items[i].Obj?
    ensures DumpItems(names, j).List? && |DumpItems(names, j).items| == |j.items|
    ensures forall i | 0 <= i < |j.items| ::
      var out := DumpItems(names, j).items[i];
      && out.Obj? && NoDup(out.fields)
      && (forall k :: k in Keys(out.fields) <==> k in names && k in Keys(j.items[i].fields))
      && (forall k | k in names :: Get(out.fields, k) == Get(j.items[i].fields, k))
  {
    forall i | 0 <= i < |j.items|
      ensures DumpItems(names, j).items[i] == Obj(Select(names, j.items[i].fields))
    {
    }
    forall i | 0 <= i < |j.items| {
      SelectSpec(names, j.items[i].fields);
    }
  }

  /** The Integer and String fields of a recipe dump as they are. */
  lemma ScalarDump(k: string, v: Json)
    requires k in RECIPE_FIELDS[1..6]
    ensures k in RECIPE_FIELDS && k != "id" && DumpField(k, v) == v
  {
    assert RECIPE_FIELDS[1..6] == ["name", "people", "difficulty", "duration", "category"];
  }

  /** One key of a recipe dump. */
  lemma DumpRecipeAt(c: Fields, k: string)
    ensures k in Keys(DumpRecipe(c)) <==> k in RECIPE_FIELDS && k in Keys(c)
    ensures k in RECIPE_FIELDS && k in Keys(c) ==> Get(DumpRecipe(c), k) == Some(DumpField(k, At(c, k)))
  {
    DumpRecipeSpec(c);
  }
}
