/** Recipe creation and lookup: `recipes_post` takes a validated recipe
    whose utensils and ingredients are resolved rows, creates the recipe
    row and then the junction rows that link it to its utensils and
    ingredients; `recipe_get` maps a missing id to a 404. The database is
    an abstract store of tables held in sequences and maps. The table
    lock around `recipes_post` (Utensil, then Ingredient) and the
    transaction it opens are left out: the model is sequential and does
    not roll back. */
module Recipes {
  import opened Json
  import opened Helpers
  import opened Exceptions
  import SchemaRules

  const RECIPE_EXISTS := "recipe already exists"
  const RECIPE_NOT_FOUND := "recipe not found"

  /** A response: a body with its status, or a raised `APIException`. */
  datatype Response = Reply(body: Json, status: int) | Raised(e: ApiException)

  /** The statements issued on the store, in order. */
  datatype Statement = CreateRecipe(id: int) | InsertUtensils(rows: seq<Fields>) | InsertIngredients(rows: seq<Fields>)

  /** Items of a resolved list: dicts carrying their row's `id`. */
  predicate Resolved(items: seq<Json>) {
    forall i | 0 <= i < |items| :: items[i].Obj? && "id" in Keys(items[i].fields)
  }

  /** Resolved ingredients also carry their quantity and measurement. */
  predicate ResolvedIngredients(items: seq<Json>) {
    && Resolved(items)
    && forall i | 0 <= i < |items| ::
      && WellFormed(items[i])
      && "quantity" in Keys(items[i].fields) && "measurement" in Keys(items[i].fields)
  }

  /** `ret_id`: `{'recipe': recipe.id, key: obj['id']}`. */
  function RetId(recipeId: int, obj: Json, key: string): Fields
    requires obj.Obj? && "id" in Keys(obj.fields)
  {
    [("recipe", Int(recipeId)), (key, At(obj.fields, "id"))]
  }

  /** The junction row of one utensil: exactly the recipe id and the
      utensil's id. */
  function UtensilRow(recipeId: int, u: Json): (r: Fields)
    requires u.Obj? && "id" in Keys(u.fields)
    ensures NoDup(r) && Keys(r) == {"recipe", "utensil"}
    ensures Get(r, "recipe") == Some(Int(recipeId)) && Get(r, "utensil") == Get(u.fields, "id")
  {
    var r := RetId(recipeId, u, "utensil");
    PairFacts(r, "recipe", Int(recipeId), "utensil", At(u.fields, "id"));
    r
  }

  /** `ret_recipe_ingr`: `dict_merge` of the ids and the item's quantity
      and measurement, so exactly those four keys. */
  function IngredientRow(recipeId: int, ingr: Json): (r: Fields)
    requires ingr.Obj? && WellFormed(ingr)
    requires "id" in Keys(ingr.fields) && "quantity" in Keys(ingr.fields) && "measurement" in Keys(ingr.fields)
    ensures NoDup(r) && Keys(r) == {"recipe", "ingredient", "quantity", "measurement"}
    ensures Get(r, "recipe") == Some(Int(recipeId)) && Get(r, "ingredient") == Get(ingr.fields, "id")
    ensures Get(r, "quantity") == Get(ingr.fields, "quantity")
    ensures Get(r, "measurement") == Get(ingr.fields, "measurement")
  {
    var a := RetId(recipeId, ingr, "ingredient");
    var b := [("quantity", At(ingr.fields, "quantity")), ("measurement", At(ingr.fields, "measurement"))];
    IngredientParts(recipeId, ingr, a, b);
    MergePairKeys(a, b);
    MergePairAt(a, b, "recipe");
    MergePairAt(a, b, "ingredient");
    MergePairAt(a, b, "quantity");
    MergePairAt(a, b, "measurement");
    Merge([a, b])
  }

  /** The two dicts `ret_recipe_ingr` merges. */
  lemma IngredientParts(recipeId: int, ingr: Json, a: Fields, b: Fields)
    requires ingr.Obj? && WellFormed(ingr)
    requires "id" in Keys(ingr.fields) && "quantity" in Keys(ingr.fields) && "measurement" in Keys(ingr.fields)
    requires a == RetId(recipeId, ingr, "ingredient")
    requires b == [("quantity", At(ingr.fields, "quantity")), ("measurement", At(ingr.fields, "measurement"))]
    ensures Keys(a) == {"recipe", "ingredient"} && NoDup(a) && WellFormed(Obj(a))
    ensures Get(a, "recipe") == Some(Int(recipeId)) && Get(a, "ingredient") == Get(ingr.fields, "id")
    ensures Keys(b) == {"quantity", "measurement"} && NoDup(b) && WellFormed(Obj(b))
    ensures Get(b, "quantity") == Get(ingr.fields, "quantity") && Get(b, "measurement") == Get(ingr.fields, "measurement")
  {
    PairFacts(a, "recipe", Int(recipeId), "ingredient", At(ingr.fields, "id"));
    PairFacts(b, "quantity", At(ingr.fields, "quantity"), "measurement", At(ingr.fields, "measurement"));
    ChildWellFormed(ingr.fields, "id");
    ChildWellFormed(ingr.fields, "quantity");
    ChildWellFormed(ingr.fields, "measurement");
  }

  /** The facts about a two-key dict literal. */
  lemma PairFacts(d: Fields, k1: string, v1: Json, k2: string, v2: Json)
    requires d == [(k1, v1), (k2, v2)] && k1 != k2
    ensures Keys(d) == {k1, k2} && NoDup(d)
    ensures Get(d, k1) == Some(v1) && Get(d, k2) == Some(v2) && At(d, k1) == v1 && At(d, k2) == v2
    ensures WellFormed(v1) && WellFormed(v2) ==> WellFormed(Obj(d))
  {
    var t := [(k2, v2)];
    assert d[1..] == t;
    Singleton(k2, v2);
    assert Keys(d) == {k1} + Keys(t);
    assert Get(d, k2) == Get(t, k2);
    if WellFormed(v1) && WellFormed(v2) {
      forall p | p in d ensures WellFormed(p.1) {
        assert p == d[0] || p == d[1];
      }
    }
  }

  lemma {:induction false} ChildWellFormed(d: Fields, k: string)
    requires WellFormed(Obj(d)) && k in Keys(d)
    ensures WellFormed(At(d, k))
  {
    if d[0].0 != k {
      assert d[0] in d;
      assert WellFormed(Obj(d[1..])) by {
        forall p | p in d[1..] ensures WellFormed(p.1) {
          assert p in d;
        }
      }
      ChildWellFormed(d[1..], k);
    } else {
      assert d[0] in d;
    }
  }

  /** The utensil junction rows of a recipe, one per item, in order. */
  function UtensilRows(recipeId: int, items: seq<Json>): (r: seq<Fields>)
    requires Resolved(items)
    ensures |r| == |items|
    ensures forall i | 0 <= i < |r| ::
      Get(r[i], "recipe") == Some(Int(recipeId)) && Get(r[i], "utensil") == Get(items[i].fields, "id")
  {
    seq(|items|, i requires 0 <= i < |items| => UtensilRow(recipeId, items[i]))
  }

  /** The ingredient junction rows of a recipe, one per item, in order. */
  function IngredientRows(recipeId: int, items: seq<Json>): (r: seq<Fields>)
    requires ResolvedIngredients(items)
    ensures |r| == |items|
    ensures forall i | 0 <= i < |r| ::
      && Get(r[i], "recipe") == Some(Int(recipeId))
      && Get(r[i], "ingredient") == Get(items[i].fields, "id")
      && Get(r[i], "quantity") == Get(items[i].fields, "quantity")
      && Get(r[i], "measurement") == Get(items[i].fields, "measurement")
  {
    seq(|items|, i requires 0 <= i < |items| => IngredientRow(recipeId, items[i]))
  }

  /** The recipe id a junction row points at. */
  function RecipeRef(row: Fields): int {
    match Get(row, "recipe")
    case Some(Int(n)) => n
    case _ => -1
  }

  /** Rows whose `recipe` is `id` all point at that recipe. */
  lemma PointAt(id: int, rows: seq<Fields>)
    requires forall i | 0 <= i < |rows| :: Get(rows[i], "recipe") == Some(Int(id))
    ensures forall i | 0 <= i < |rows| :: RecipeRef(rows[i]) == id
  {
  }

  /** The row `Recipe.create(**recipe)` gets: the payload without its
      ingredient and utensil lists. */
  function Scalars(recipe: Fields): (r: Fields)
    ensures Keys(r) == Keys(recipe) - {"ingredients", "utensils"}
    ensures forall k | k != "ingredients" && k != "utensils" :: Get(r, k) == Get(recipe, k)
    ensures NoDup(recipe) ==> NoDup(r)
  {
    Remove(Remove(recipe, "ingredients"), "utensils")
  }

  /** Whether creating `row` would violate the unique name. */
  predicate NameTaken(recipes: map<int, Fields>, row: Fields) {
    exists id | id in recipes :: Get(recipes[id], "name") == Get(row, "name")
  }

  /** The statements of a successful creation: the recipe, then each
      junction insert whose list is non-empty. */
  function CreationLog(id: int, us: seq<Fields>, ins: seq<Fields>): seq<Statement> {
    [CreateRecipe(id)] + (if us == [] then [] else [InsertUtensils(us)]) + (if ins == [] then [] else [InsertIngredients(ins)])
  }

  /** The recipe as `recipe.dump` sees it after creation: its row, its id
      and the two resolved lists. */
  function Created(id: int, row: Fields, ingredients: Json, utensils: Json): Json {
    Obj(Put(Put(Put(row, "id", Int(id)), "ingredients", ingredients), "utensils", utensils))
  }

  /** `schemas.recipe.dump(recipe).data` for the created recipe: its
      Recipe dump, under the `recipe` envelope. */
  function CreatedReply(id: int, row: Fields, ingredients: Json, utensils: Json): Json {
    SchemaRules.WrapWithEnvelope(SchemaRules.EnvelopeOf(SchemaRules.Recipe),
      Obj(SchemaRules.DumpRecipe(Created(id, row, ingredients, utensils).fields)), false)
  }

  /** The recipe, ingredient and utensil junction tables. Recipe names
      are unique (the constraint whose violation is the IntegrityError),
      ids are below the next id, and every junction row points at a
      recipe. */
  class RecipeStore {
    var recipes: map<int, Fields>
    var nextId: int
    var utensilRows: seq<Fields>
    var ingredientRows: seq<Fields>
    var log: seq<Statement>

    ghost predicate Valid()
      reads this
    {
      && (forall id | id in recipes :: id < nextId)
      && (forall a, b | a in recipes && b in recipes && Get(recipes[a], "name") == Get(recipes[b], "name") :: a == b)
      && (forall i | 0 <= i < |utensilRows| :: RecipeRef(utensilRows[i]) in recipes)
      && (forall i | 0 <= i < |ingredientRows| :: RecipeRef(ingredientRows[i]) in recipes)
    }

    constructor ()
      ensures Valid() && recipes == map[] && utensilRows == [] && ingredientRows == [] && log == []
    {
      recipes, nextId, utensilRows, ingredientRows, log := map[], 1, [], [], [];
    }

    /** `recipes_post`: the lists are popped, the recipe row created (a
        clash gives 409 `recipe already exists` and changes nothing), a
        junction row is inserted per utensil and per ingredient, and the
        created recipe comes back, wrapped in its envelope, with 201. */
    method Post(recipe: Fields) returns (resp: Response)
      requires Valid() && NoDup(recipe)
      requires "ingredients" in Keys(recipe) && "utensils" in Keys(recipe)
      requires At(recipe, "ingredients").List? && ResolvedIngredients(At(recipe, "ingredients").items)
      requires At(recipe, "utensils").List? && Resolved(At(recipe, "utensils").items)
      modifies this
      ensures Valid()
      ensures NameTaken(old(recipes), Scalars(recipe)) ==>
        && resp == Raised(Raise(Str(RECIPE_EXISTS), Int(409), Null))
        && recipes == old(recipes) && nextId == old(nextId) && log == old(log)
        && utensilRows == old(utensilRows) && ingredientRows == old(ingredientRows)
      ensures !NameTaken(old(recipes), Scalars(recipe)) ==>
        var id := old(nextId);
        var us := UtensilRows(id, At(recipe, "utensils").items);
        var ins := IngredientRows(id, At(recipe, "ingredients").items);
        && recipes == old(recipes)[id := Scalars(recipe)] && nextId == id + 1
        && utensilRows == old(utensilRows) + us
        && ingredientRows == old(ingredientRows) + ins
        && log == old(log) + CreationLog(id, us, ins)
        && resp == Reply(CreatedReply(id, Scalars(recipe), At(recipe, "ingredients"), At(recipe, "utensils")), 201)
    {
      var ingredients := At(recipe, "ingredients");
      var utensils := At(recipe, "utensils");
      var row := Scalars(recipe);
      if NameTaken(recipes, row) {
        return Raised(Raise(Str(RECIPE_EXISTS), Int(409), Null));
      }
      resp := Create(row, ingredients, utensils);
    }

    /** The success path of `recipes_post`: create the recipe row, insert
        the junction rows and answer with the created recipe. */
    method Create(row: Fields, ingredients: Json, utensils: Json) returns (resp: Response)
      requires Valid() && !NameTaken(recipes, row)
      requires ingredients.List? && ResolvedIngredients(ingredients.items)
      requires utensils.List? && Resolved(utensils.items)
      modifies this
      ensures Valid()
      ensures recipes == old(recipes)[old(nextId) := row] && nextId == old(nextId) + 1
      ensures utensilRows == old(utensilRows) + UtensilRows(old(nextId), utensils.items)
      ensures ingredientRows == old(ingredientRows) + IngredientRows(old(nextId), ingredients.items)
      ensures log == old(log) + CreationLog(old(nextId),
        UtensilRows(old(nextId), utensils.items), IngredientRows(old(nextId), ingredients.items))
      ensures resp == Reply(CreatedReply(old(nextId), row, ingredients, utensils), 201)
    {
      var id := AddRecipe(row);
      AddUtensils(id, utensils.items);
      AddIngredients(id, ingredients.items);
      CreationSteps(old(log), id, UtensilRows(id, utensils.items), IngredientRows(id, ingredients.items));
      resp := Reply(CreatedReply(id, row, ingredients, utensils), 201);
    }

    /** `Recipe.create`: the row gets the next id. */
    method AddRecipe(row: Fields) returns (id: int)
      requires Valid() && !NameTaken(recipes, row)
      modifies this
      ensures Valid()
      ensures id == old(nextId) && recipes == old(recipes)[id := row] && nextId == id + 1
      ensures utensilRows == old(utensilRows) && ingredientRows == old(ingredientRows)
      ensures log == old(log) + [CreateRecipe(id)]
    {
      id := nextId;
      recipes := recipes[id := row];
      nextId := nextId + 1;
      log := log + [CreateRecipe(id)];
    }

    /** `if utensils: RecipeUtensils.insert_many(...)`. */
    method AddUtensils(id: int, items: seq<Json>)
      requires Valid() && id in recipes && Resolved(items)
      modifies this
      ensures Valid()
      ensures recipes == old(recipes) && nextId == old(nextId) && ingredientRows == old(ingredientRows)
      ensures utensilRows == old(utensilRows) + UtensilRows(id, items)
      ensures items == [] ==> log == old(log)
      ensures items != [] ==> log == old(log) + [InsertUtensils(UtensilRows(id, items))]
    {
      if items != [] {
        var rows := UtensilRows(id, items);
        PointAt(id, rows);
        utensilRows := utensilRows + rows;
        log := log + [InsertUtensils(rows)];
      }
    }

    /** `if ingredients: RecipeIngredients.insert_many(...)`. */
    method AddIngredients(id: int, items: seq<Json>)
      requires Valid() && id in recipes && ResolvedIngredients(items)
      modifies this
      ensures Valid()
      ensures recipes == old(recipes) && nextId == old(nextId) && utensilRows == old(utensilRows)
      ensures ingredientRows == old(ingredientRows) + IngredientRows(id, items)
      ensures items == [] ==> log == old(log)
      ensures items != [] ==> log == old(log) + [InsertIngredients(IngredientRows(id, items))]
    {
      if items != [] {
        var rows := IngredientRows(id, items);
        PointAt(id, rows);
        ingredientRows := ingredientRows + rows;
        log := log + [InsertIngredients(rows)];
      }
    }

    /** `recipe_get`'s lookup: an id with no recipe raises 404 `recipe not
        found`; otherwise the recipe's row with its id. */
    method GetRecipe(recipeId: int) returns (resp: Response)
      ensures recipeId !in recipes <==> resp == Raised(Raise(Str(RECIPE_NOT_FOUND), Int(404), Null))
      ensures recipeId in recipes ==> resp.Reply? && resp.status == 200
      ensures recipeId in recipes ==>
        SchemaRules.Unwrap(SchemaRules.EnvelopeOf(SchemaRules.Recipe), false, resp.body) == Some(Obj(Put(recipes[recipeId], "id", Int(recipeId))))
    {
      if recipeId !in recipes {
        return Raised(Raise(Str(RECIPE_NOT_FOUND), Int(404), Null));
      }
      var data := Obj(Put(recipes[recipeId], "id", Int(recipeId)));
      resp := Reply(SchemaRules.WrapWithEnvelope(SchemaRules.EnvelopeOf(SchemaRules.Recipe), data, false), 200);
    }
  }

  /** The creation log, one statement at a time. */
  lemma CreationSteps(l: seq<Statement>, id: int, us: seq<Fields>, ins: seq<Fields>)
    ensures (if ins == [] then l + [CreateRecipe(id)] + (if us == [] then [] else [InsertUtensils(us)])
      else l + [CreateRecipe(id)] + (if us == [] then [] else [InsertUtensils(us)]) + [InsertIngredients(ins)])
      == l + CreationLog(id, us, ins)
  {
  }

  /** An empty utensil or ingredient list issues no insert into its
      junction table; a non-empty one exactly one, carrying one row per
      item. */
  lemma CreationInserts(id: int, us: seq<Fields>, ins: seq<Fields>)
    ensures (forall s | s in CreationLog(id, us, ins) :: !s.InsertUtensils?) <==> us == []
    ensures (forall s | s in CreationLog(id, us, ins) :: !s.InsertIngredients?) <==> ins == []
    ensures us != [] ==> InsertUtensils(us) in CreationLog(id, us, ins)
    ensures ins != [] ==> InsertIngredients(ins) in CreationLog(id, us, ins)
    ensures CreationLog(id, us, ins)[0] == CreateRecipe(id)
  {
    var l := CreationLog(id, us, ins);
    if us != [] {
      assert l[1] == InsertUtensils(us);
    }
    if ins != [] {
      assert l[|l| - 1] == InsertIngredients(ins);
    }
  }

  /** The created recipe carries the payload's scalar fields, its new id
      and both resolved lists, and not the lists as row fields. */
  lemma CreatedBody(id: int, recipe: Fields)
    requires NoDup(recipe) && "ingredients" in Keys(recipe) && "utensils" in Keys(recipe)
    ensures var c := Created(id, Scalars(recipe), At(recipe, "ingredients"), At(recipe, "utensils"));
      && NoDup(c.fields)
      && Keys(c.fields) == Keys(recipe) + {"id"}
      && Get(c.fields, "id") == Some(Int(id))
      && Get(c.fields, "ingredients") == Get(recipe, "ingredients")
      && Get(c.fields, "utensils") == Get(recipe, "utensils")
      && forall k | k != "id" :: Get(c.fields, k) == Get(recipe, k)
  {
  }

  /** The 201 body of a creation, read under `recipe`: the new id, the
      payload's Recipe fields and no other key, the directions through
      their dump, and each utensil and ingredient cut down to its nested
      schema's fields. */
  lemma CreatedDump(id: int, recipe: Fields)
    requires NoDup(recipe) && "ingredients" in Keys(recipe) && "utensils" in Keys(recipe)
    ensures var body := CreatedReply(id, Scalars(recipe), At(recipe, "ingredients"), At(recipe, "utensils"));
      var un := SchemaRules.Unwrap(SchemaRules.EnvelopeOf(SchemaRules.Recipe), false, body);
      && un.Some? && un.value.Obj? && NoDup(un.value.fields)
      && (forall k :: k in Keys(un.value.fields) <==> k == "id" || (k in SchemaRules.RECIPE_FIELDS && k in Keys(recipe)))
      && Get(un.value.fields, "id") == Some(Int(id))
      && (forall k | k in SchemaRules.RECIPE_FIELDS[1..6] :: Get(un.value.fields, k) == Get(recipe, k))
      && ("directions" in Keys(recipe) ==>
            Get(un.value.fields, "directions") == Some(SchemaRules.DumpDirections(At(recipe, "directions"))))
      && Get(un.value.fields, "utensils") == Some(SchemaRules.DumpItems(SchemaRules.UTENSIL_FIELDS, At(recipe, "utensils")))
      && Get(un.value.fields, "ingredients") == Some(SchemaRules.DumpItems(SchemaRules.INGREDIENT_FIELDS, At(recipe, "ingredients")))
  {
    var c := Created(id, Scalars(recipe), At(recipe, "ingredients"), At(recipe, "utensils"));
    assert SchemaRules.Unwrap(SchemaRules.EnvelopeOf(SchemaRules.Recipe), false,
      CreatedReply(id, Scalars(recipe), At(recipe, "ingredients"), At(recipe, "utensils")))
      == Some(Obj(SchemaRules.DumpRecipe(c.fields)));
    DumpedKeys(id, recipe, c.fields);
    DumpedScalars(id, recipe, c.fields);
    DumpedLists(id, recipe, c.fields);
  }

  /** The Recipe dump of the created recipe: its keys and id, its Integer
      and String fields, its three nested lists. */
  lemma DumpedKeys(id: int, recipe: Fields, c: Fields)
    requires NoDup(recipe) && "ingredients" in Keys(recipe) && "utensils" in Keys(recipe)
    requires c == Created(id, Scalars(recipe), At(recipe, "ingredients"), At(recipe, "utensils")).fields
    ensures var d := SchemaRules.DumpRecipe(c);
      && NoDup(d)
      && (forall k :: k in Keys(d) <==> k == "id" || (k in SchemaRules.RECIPE_FIELDS && k in Keys(recipe)))
      && Get(d, "id") == Some(Int(id))
  {
    var d := SchemaRules.DumpRecipe(c);
    SchemaRules.DumpRecipeSpec(c);
    forall k
      ensures k in Keys(d) <==> k == "id" || (k in SchemaRules.RECIPE_FIELDS && k in Keys(recipe))
    {
      CreatedAt(id, recipe, c, k);
    }
    CreatedAt(id, recipe, c, "id");
  }

  lemma DumpedScalars(id: int, recipe: Fields, c: Fields)
    requires NoDup(recipe) && "ingredients" in Keys(recipe) && "utensils" in Keys(recipe)
    requires c == Created(id, Scalars(recipe), At(recipe, "ingredients"), At(recipe, "utensils")).fields
    ensures forall k | k in SchemaRules.RECIPE_FIELDS[1..6] :: Get(SchemaRules.DumpRecipe(c), k) == Get(recipe, k)
  {
    forall k | k in SchemaRules.RECIPE_FIELDS[1..6]
      ensures Get(SchemaRules.DumpRecipe(c), k) == Get(recipe, k)
    {
      CreatedAt(id, recipe, c, k);
      SchemaRules.ScalarDump(k, if k in Keys(c) then At(c, k) else Null);
      SchemaRules.DumpRecipeAt(c, k);
    }
  }

  lemma DumpedLists(id: int, recipe: Fields, c: Fields)
    requires NoDup(recipe) && "ingredients" in Keys(recipe) && "utensils" in Keys(recipe)
    requires c == Created(id, Scalars(recipe), At(recipe, "ingredients"), At(recipe, "utensils")).fields
    ensures var d := SchemaRules.DumpRecipe(c);
      && ("directions" in Keys(recipe) ==> Get(d, "directions") == Some(SchemaRules.DumpDirections(At(recipe, "directions"))))
      && Get(d, "utensils") == Some(SchemaRules.DumpItems(SchemaRules.UTENSIL_FIELDS, At(recipe, "utensils")))
      && Get(d, "ingredients") == Some(SchemaRules.DumpItems(SchemaRules.INGREDIENT_FIELDS, At(recipe, "ingredients")))
  {
    CreatedAt(id, recipe, c, "directions");
    CreatedAt(id, recipe, c, "utensils");
    CreatedAt(id, recipe, c, "ingredients");
    SchemaRules.DumpRecipeAt(c, "directions");
    SchemaRules.DumpRecipeAt(c, "utensils");
    SchemaRules.DumpRecipeAt(c, "ingredients");
  }

  /** One key of the created recipe. */
  lemma CreatedAt(id: int, recipe: Fields, c: Fields, k: string)
    requires NoDup(recipe) && "ingredients" in Keys(recipe) && "utensils" in Keys(recipe)
    requires c == Created(id, Scalars(recipe), At(recipe, "ingredients"), At(recipe, "utensils")).fields
    ensures NoDup(c)
    ensures k in Keys(c) <==> k == "id" || k in Keys(recipe)
    ensures Get(c, k) == if k == "id" then Some(Int(id)) else Get(recipe, k)
  {
    CreatedBody(id, recipe);
  }
}
