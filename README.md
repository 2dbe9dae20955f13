# RulzUrAPI reference resolver, in Dafny

This project models the core of RulzUrAPI, a recipe-catalog backend. A recipe
is made of shared ingredients and utensils. When a recipe is created, every
ingredient or utensil it mentions is a *reference*: either `{id}` (an existing
row) or `{name}` (an existing row, or a new one to create). The core is
`get_or_insert`, which resolves such a list in place against the ingredient or
utensil table. It reports per-item errors and inserts the names nobody knows
yet. Around it sit:

- the schema hooks that project the payload items and merge the resolved rows
  back into them;
- the junction rows written when a recipe is created;
- the column codecs for enums, directions and direction arrays;
- the recursive `dict_merge` and `unpack`;
- the `APIException` error value.

Files, one module each:

| file | module | models |
|---|---|---|
| `json.dfy` | `Json` | Python values; dicts as insertion-ordered association lists |
| `table.dfy` | `Table` | the `ingredient` / `utensil` table: a class with `rows: map<int, string>`, an id sequence and a query log |
| `resolver_spec.dfy` | `ResolverSpec` | what each position of a request should become (`Expected`), the error map, the names to insert, the queries issued |
| `resolver.dfy` | `DbHelpers` | `_multiple_entries_error`, `_get`, `_insert`, `get_or_insert` as methods over an `array<Json>` updated in place, each proved against `ResolverSpec` |
| `resolver_facts.dfy` | `ResolverFacts` | the resolver's promises, stated on the specification |
| `helpers.dfy` | `Helpers` | `dict_merge` (loop and recursion), `is_iterable`, `unpack` |
| `schemas.dfy` | `Schemas` | `Nested.get_insert_or_raise` |
| `schema_rules.dfy` | `SchemaRules` | envelopes, the `Direction` tuple conversion, the list-PUT id check, `Post` and the nested post check, the recipe field rules |
| `text.dfy` | `Text` | Python string operations: `join`, `strip`, `split`, the `\"` escape, `re.findall(r"\(.*?\)")` |
| `orm.dfy` | `Orm` | `EnumField`, `DirectionField`, `ArrayField` |
| `exceptions.dfy` | `Exceptions` | `APIException` and `dump_api_exc` |
| `recipes.dfy` | `Recipes` | `recipes_post` and `recipe_get` over a store class holding the recipe and junction tables |

How the resolver is specified. `ResolverSpec.Expected(rows, s, i)` gives the
outcome of item `i` from two things: the table's rows before the call, and how
many items reference the same row under the same key or under the other key.
The outcome is one of:

- resolved to the merged row;
- failed under its key with a list of messages;
- pending, waiting for its name to be inserted.

`DbHelpers.GetOrInsert` is proved to do the following:

- return exactly `ExpectedErrors`;
- leave `Final(...)` at every position;
- insert exactly `Inserted(...)` with consecutive ids;
- issue exactly the queries of `Issued(...)`;
- keep the table invariant (ids drawn from the sequence, names unique).

Its helper methods follow the loops of `_get` one by one: grouping, the
fetched rows, missing ids, then names.

Names in the ingredient and utensil tables are unique. The peewee models
declare no constraint (src/db/models.py:49, 55), but the database schema
does: a duplicate name raises `peewee.IntegrityError`, which the ingredient
and utensil endpoints turn into a 409 (src/api/ingredients/endpoint.py:50-53).
`Valid()` mirrors that constraint. In this sequential model,
`Table.Table.InsertManyReturning` keeps `Valid()` exactly when the names it
is given are distinct and absent, so the insert that would raise
`IntegrityError` is never reached: the resolver inserts only names the
select did not find, each once.

Three behaviours of the code worth stating:

- The insert is a plain `insert_many(...).returning()` of the names the
  select did not find (src/db/helpers.py:70-76).
- A row referenced once by id and once by name is detected from the fetched
  row, after the select, not before it. Each such item gets the structured
  `{msg, id, name}` error (src/db/helpers.py:38-45).
- When the error map is non-empty, nothing is inserted. Items that did
  resolve still hold their merged rows.

## Model

| member | source | states |
|---|---|---|
| `ResolverSpec.RefOf` | src/db/helpers.py:24 | an item with an `id` key is referenced by that id even if it has a name; any other item by its name |
| `ResolverSpec.KeyOf` | src/db/helpers.py:14 | the error bucket is `id` exactly when the item is referenced by id |
| `ResolverSpec.GroupSpec` | src/db/helpers.py:23-25 | a group holds exactly the items referencing its key, each with its own original index and element, in index order |
| `ResolverSpec.IdOrderSpec` | src/db/helpers.py:27 | `ids.keys()` lists every referenced id, once each |
| `ResolverSpec.NameOrderSpec` | src/db/helpers.py:27 | `names.keys()` lists every name referenced by name, once each |
| `ResolverSpec.Unknown` | src/db/helpers.py:62-66 | a name is left to insert iff it was asked for, has no row, and is referenced exactly once |
| `Table.Table.SelectWhere` | src/db/helpers.py:27-36 | the select returns every stored row whose id or name was asked for, only stored rows, each once; the table is unchanged and the query is logged |
| `Table.Table.InsertManyReturning` | src/db/helpers.py:71-75 | the k-th name gets id `nextId + k`, returned in order; old rows are kept; name uniqueness holds when the names are distinct and absent |
| `DbHelpers.MultipleEntriesError` | src/db/helpers.py:11-14 | appends the message to `errors[index][key]` for every entry of the group, `key` being `id` if the item has one else `name`; every other position is unchanged |
| `DbHelpers.GroupItems` | src/db/helpers.py:21-27 | every item joins the group of its id, else of its name, remembering its index; the key lists are in first-appearance order |
| `DbHelpers.ReportConflict` | src/db/helpers.py:38-45 | a row referenced by id and by name gives every such item the `{msg, id, name}` error under the key it used |
| `DbHelpers.ApplySingle` | src/db/helpers.py:47-54 | a row reached through one key: a repeated reference fails with MULTIPLE, a single one is overwritten at its own index by the row merged with the item |
| `DbHelpers.ApplyRow` | src/db/helpers.py:36-54 | one fetched row settles exactly the items referencing its id or its name, to the outcome `ResolverSpec.Expected` gives them |
| `DbHelpers.ApplyRows` | src/db/helpers.py:36-54 | after the fetched rows, every item referencing a found row is settled and no other item is touched |
| `DbHelpers.ReportMissing` | src/db/helpers.py:57-60 | an id with no row gives its items CORRESPONDING under `id`, preceded by MULTIPLE when the id is repeated |
| `DbHelpers.SettleName` | src/db/helpers.py:62-66 | an unknown name referenced twice or more fails with MULTIPLE; one referenced once keeps its entry for the insert |
| `DbHelpers.SplitNames` | src/db/helpers.py:62-66 | the names kept for the insert are exactly the unknown names referenced once, in first-appearance order |
| `DbHelpers.Leftovers` | src/db/helpers.py:57-68 | after both final loops the error map is the expected one and every resolved item holds its merged row |
| `DbHelpers.Get` | src/db/helpers.py:17-68 | `_get` issues one select, leaves the table unchanged, returns the expected errors and the names to insert, and overwrites exactly the resolved items |
| `DbHelpers.WriteBackAt` | src/db/helpers.py:75-76 | each inserted name's item holds its created row, and every other item is unchanged |
| `DbHelpers.Insert` | src/db/helpers.py:70-76 | one insert of the names, in order; each returned row replaces the item that named it; uniqueness is preserved |
| `DbHelpers.NewNamesFresh` | src/db/helpers.py:62-73 | the names handed to the insert are distinct and absent from the table |
| `DbHelpers.GetOrInsert` | src/db/helpers.py:79-89 | errors equal the expected per-position errors; every position holds its expected final value; exactly the unknown names are inserted, only when there is no error; the query log is exactly the expected one; name uniqueness is preserved |
| `ResolverFacts.EmptyRequest` | src/db/helpers.py:79-89 | an empty list gives no error, nothing to insert and no query |
| `ResolverFacts.FailedKey` | src/db/helpers.py:11-14 | a failing item fails under the key it used, with at least one message |
| `ResolverFacts.ErrorsAtItems` | src/db/helpers.py:38-60 | error keys are indices of input items, each holding exactly one bucket, `id` if the item has an id else `name` |
| `ResolverFacts.Repeated` | src/db/helpers.py:47-64 | two references to the same id or the same name (existing or new) make each of them fail, starting with MULTIPLE or the structured conflict |
| `ResolverFacts.BothKeys` | src/db/helpers.py:38-45 | a row referenced by id and by name: each such item gets exactly `[{msg: MULTIPLE, id, name}]` under its own key |
| `ResolverFacts.RowMerge` | src/db/helpers.py:54 | `dict_merge(row, item)` keeps every key of the item with its value and adds the row's `id` and `name` where the item lacks them |
| `ResolverFacts.ResolvedItem` | src/db/helpers.py:47-54 | a resolved item becomes its row merged with the item: the item's own keys win, and the id is the stored id of the referenced row |
| `ResolverFacts.InsertedOnce` | src/db/helpers.py:62-87 | the inserted names are distinct, unknown to the table and referenced once; anything is inserted only when the error map is empty |
| `Schemas.Project` | src/utils/schemas.py:98-101 | an item is projected to `{id}` if it has an id, else to `{name}`, keeping the same reference |
| `Schemas.ProjectKeepsRef` | src/utils/schemas.py:99 | the projection keeps the reference and the error key of the item |
| `Schemas.GetInsertOrRaise` | src/utils/schemas.py:95-108 | a single-object load leaves the items, the rows, the next id and the query log alone (no query is issued); a list load returns the resolver's errors on the projected items, inserts exactly the resolver's new names with consecutive ids, logs its queries, and changes neither items nor table when there is an error; otherwise every item is updated with its entity |
| `Schemas.LoadMany` | src/utils/schemas.py:97-106 | the list branch: the expected errors, the table grown by exactly the inserted names with ids from the old next id on, the issued queries, and the update of each item only when there is no error |
| `Schemas.Resolve` | src/utils/schemas.py:98-103 | the resolver seen from the schema: expected errors and entities, old rows kept, the k-th inserted name stored under the old next id plus k and nothing else added, the select and insert logged; no new row when there is an error |
| `Schemas.UpdateAll` | src/utils/schemas.py:105-106 | each item is `update`d with the entity at its own position |
| `Schemas.ApplyRow` | src/utils/schemas.py:106 | updating an item with the row of its own reference adds `id` and `name` and keeps every other key |
| `Schemas.EntityIsRow` | src/utils/schemas.py:98-106 | in an error-free load the entity at each position has exactly `id` and `name`, an integer id, and the reference's own id or name |
| `Schemas.LoadedStored` | src/utils/schemas.py:98-106 | after an error-free list load every item's `id` is a stored id of the table as it now stands and its `name` is that row's name |
| `Schemas.LoadedItem` | src/utils/schemas.py:104-106 | after an error-free list load every item carries its row's id and name and keeps every other key, quantity and measurement included |
| `Schemas.InsertedDicts` | src/db/helpers.py:70-73 | each new name is held by exactly one projected item, and that item's dict, the one `_insert` passes to `insert_many`, is exactly `{name: nm}` |
| `SchemaRules.WrapWithEnvelope` | src/utils/schemas.py:33-42 | no key leaves the data unwrapped; a key wraps it in a one-key dict; reading under the same key gives the data back |
| `SchemaRules.EntityEnvelope` | src/utils/schemas.py:157-241 | a list dump of utensils, ingredients or recipes is wrapped under the plural name, a single dump under the singular name |
| `SchemaRules.NestedNeverWraps` | src/utils/schemas.py:91-93 | a nested list dumps as with no envelope, and so differs from its entity schema's wrapped dump |
| `SchemaRules.ToTuple` | src/utils/schemas.py:225-227 | `to_tuple` gives the title, then the text |
| `SchemaRules.FromTuple` | src/utils/schemas.py:229-231 | `from_tuple` puts the first two components under `title` and `text` |
| `SchemaRules.SelectSpec` | src/utils/schemas.py:235-262 | a dump keeps exactly the declared fields the object has, with their values, once each |
| `SchemaRules.DumpRecipeSpec` | src/utils/schemas.py:235-262 | a recipe dumps to exactly the Recipe fields it has, once each, each through its field's dump |
| `SchemaRules.DirectionsDumped` | src/utils/schemas.py:229-231 | loaded directions dump, in order, to `{title, text}` dicts that `to_tuple` turns back into the loaded pairs |
| `SchemaRules.ItemsDumped` | src/utils/schemas.py:172-218 | a nested utensil or ingredient list dumps item by item, in order, each dict cut down to the nested schema's fields with their values |
| `SchemaRules.ToFromTuple` | src/utils/schemas.py:225-231 | `to_tuple(from_tuple(t)) == t` for every pair |
| `SchemaRules.FromToTuple` | src/utils/schemas.py:225-231 | `from_tuple(to_tuple(d)) == d` as Python dicts, for any dict of `title` and `text` |
| `SchemaRules.PutIdValidator` | src/utils/schemas.py:78-83 | the validator rejects only with the required-field message under `id` |
| `SchemaRules.PutIdRequired` | src/utils/schemas.py:78-83 | in a list PUT an item without `id` is rejected and an integer id passes iff it is non-zero; a single-object PUT is never rejected |
| `SchemaRules.MissingRequired` | src/utils/schemas.py:65-69 | the required-field errors are exactly one `[MISSING]` per absent post field |
| `SchemaRules.ValidateNested` | src/utils/schemas.py:141-147 | a nested item fails iff it has no `id` and lacks a post field; the errors then list each missing field and the `_` help text |
| `SchemaRules.Post` | src/utils/schemas.py:59-73 | a post schema drops `id` and makes every other field required |
| `SchemaRules.PostOfDefault` | src/utils/schemas.py:65-73 | deriving from `Default` and `Post` gives the schema's own fields, all required |
| `SchemaRules.Check` | src/utils/schemas.py:244-258 | a validator passes exactly the values its range or choice set allows, and otherwise gives its message |
| `SchemaRules.LoadField` | src/utils/schemas.py:203-209 | an absent field takes its `missing` default, a required absent one fails with MISSING, and a loaded value satisfies the field's rule |
| `SchemaRules.RecipeRanges` | src/utils/schemas.py:244-249 | people must be 1..12, difficulty 1..5 and quantity at least 0, each with its range message |
| `SchemaRules.RecipeChoices` | src/utils/schemas.py:250-258 | measurement ∈ {L, g, oz, spoon}, category ∈ {starter, main, dessert}, duration is one of 12 labels |
| `SchemaRules.RecipePostMissing` | src/utils/schemas.py:265-270 | on create, an absent name, people, difficulty, duration or category is reported missing |
| `SchemaRules.RecipePostDefaults` | src/utils/schemas.py:265-270 | on create, an absent utensils, ingredients or directions list loads as `[]` without error |
| `SchemaRules.RecipePostPeople` | src/utils/schemas.py:244-246 | on create, people outside 1..12 is refused with the range message, and inside it is loaded |
| `SchemaRules.RecipePostNoId` | src/utils/schemas.py:71-73 | creating a recipe never loads or reports an `id` |
| `SchemaRules.RecipeIngredientQuantity` | src/utils/schemas.py:203-205 | a nested ingredient's quantity is required and must be at least 0 |
| `SchemaRules.RecipeIngredientMeasurement` | src/utils/schemas.py:206-209 | a nested ingredient's measurement is required and must be one of L, g, oz, spoon |
| `Orm.EnumDbValue` | src/db/orm.py:39-42 | a member of `choices` is stored as itself; anything else gives `Invalid Enum Value "v"` |
| `Orm.EnumDdlLabels` | src/db/orm.py:21-37 | the DDL creates type `e_<name>` and lists exactly the choices, single-quoted, in order, joined by `, ` |
| `Orm.DirectionStored` | src/db/orm.py:48-49 | `db_value((t, x))` is the composite literal that the database reads as the fields `t` and ` x` |
| `Orm.DirectionFromDatabase` | src/db/orm.py:51-56 | `python_value` on the database's text form of a stored direction gives `Direction(t, x)` |
| `Orm.DirectionRoundTrip` | src/db/orm.py:48-56 | a direction stored and fetched back through the column is the direction written |
| `Orm.DirectionFromJoined` | src/db/orm.py:51-56 | `python_value` also reads the `(t, x)` form |
| `Orm.CommaInText` | src/db/orm.py:51-52 | a stored text holding a comma comes back from the database quoted, `split(',')` yields three parts and `python_value` fails |
| `Orm.DecodeArray` | src/db/orm.py:74-81 | a string is decoded group by group, each unescaped; a list element by element; order and count are preserved |
| `Orm.ArrayScan` | src/db/orm.py:60-72 | the groups found in `db_value`'s output are the `(t, x)` pairs, in order |
| `Orm.ArrayRoundTrip` | src/db/orm.py:63-81 | decoding `db_value`'s output for plain single-line directions gives them back, in order |
| `Orm.ArrayFetched` | src/db/orm.py:74-81 | decoding the database's array text of stored plain single-line directions gives them back, in order and in number |
| `Orm.ArrayDropsMultiline` | src/db/orm.py:60 | as written, a stored direction whose text spans lines is silently dropped; with DOTALL it is decoded |
| `Orm.ArrayFetchedDotAll` | src/db/orm.py:60-81 | with DOTALL every stored direction is fetched back, in order, multi-line ones included |
| `Text.ScanFramed` | src/db/orm.py:60 | `findall(r"\(.*?\)")` on framed groups joined by a separator finds exactly those groups, in order |
| `Text.UnescapeEscape` | src/db/orm.py:76-77 | replacing `\"` by `"` undoes the database's escaping of quotes |
| `Helpers.IsIterable` | src/utils/helpers.py:15-16 | `is_iterable` holds iff the value has `__iter__` and is not a string |
| `Helpers.DictMerge` | src/utils/helpers.py:69-88 | the loop computes the merge that `MergeSpec` and `MergePairAt` describe |
| `Helpers.MergeSpec` | src/utils/helpers.py:74-88 | the result's keys are exactly the union of the input keys, each once; each key holds the fold of its values in argument order |
| `Helpers.MergePairKeys` | src/utils/helpers.py:74-88 | the keys of `dict_merge(a, b)` are those of either dict, each once |
| `Helpers.MergePairAt` | src/utils/helpers.py:79-86 | for two dicts, key by key: dicts merge, an earlier string or dict is replaced, lists concatenate in order, a later non-iterable replaces |
| `Helpers.MergeDisjoint` | src/utils/helpers.py:69-88 | merging two dicts with no common key gives the first followed by the second |
| `Helpers.MergeScalars` | src/utils/helpers.py:69-88 | merging with a dict of non-iterable values is `update` |
| `Helpers.Unpack` | src/utils/helpers.py:31-47 | a non-tuple becomes `(v, 200, {})`, a 3-tuple itself, a 2-tuple `(d, c, {})`, any other tuple `(v, 200, {})` |
| `Helpers.UnpackIdempotent` | src/utils/helpers.py:31-47 | unpacking an unpacked triple changes nothing |
| `Exceptions.Raise` | src/utils/exceptions.py:5-9 | args are exactly `(message, status, payload)`, with a falsy status replaced by 400 |
| `Exceptions.PayloadItems` | src/utils/exceptions.py:17 | a `None` payload adds no key |
| `Exceptions.ToJson` | src/utils/exceptions.py:12-19 | the body has `message`, `status_code` and every payload key, payload winning; the second component is the status |
| `Exceptions.DumpApiExc` | src/utils/exceptions.py:22-23 | `dump_api_exc(e) == e.to_json()` |
| `Exceptions.BareException` | src/utils/exceptions.py:5-19 | without payload the body is exactly message and status, the status defaulting to 400 |
| `Exceptions.StatusKept` | src/utils/exceptions.py:5-19 | an explicit status is kept in the response, and every payload key appears with its value |
| `Recipes.UtensilRow` | src/api/recipes/endpoint.py:97 | a utensil junction row is exactly `{recipe: recipe id, utensil: item id}` |
| `Recipes.IngredientRow` | src/api/recipes/endpoint.py:98-101 | an ingredient junction row has exactly the recipe id, the ingredient id, the quantity and the measurement |
| `Recipes.UtensilRows` | src/api/recipes/endpoint.py:113-115 | one utensil row per resolved utensil, in list order |
| `Recipes.IngredientRows` | src/api/recipes/endpoint.py:117-119 | one ingredient row per resolved ingredient, in list order, with its quantity and measurement |
| `Recipes.Scalars` | src/api/recipes/endpoint.py:103-106 | the recipe row is the payload without `ingredients` and `utensils` |
| `Recipes.RecipeStore.Post` | src/api/recipes/endpoint.py:92-121 | a clash gives 409 `recipe already exists` and writes nothing; otherwise the recipe is created and its junction rows are appended in order, and the response is the Recipe dump of the created recipe under `recipe`, with 201 |
| `Recipes.RecipeStore.AddRecipe` | src/api/recipes/endpoint.py:105-108 | the recipe row gets the next id |
| `Recipes.RecipeStore.Create` | src/api/recipes/endpoint.py:105-121 | the recipe row is stored under the next id, the utensil and ingredient junction rows are appended in list order, the log gains the recipe insert and one insert per non-empty list, and the response is the Recipe dump of the created recipe under `recipe`, with 201 |
| `Recipes.RecipeStore.AddUtensils` | src/api/recipes/endpoint.py:113-115 | one junction row per utensil is appended in list order, nothing else changes; an empty list issues no insert, otherwise exactly one insert of those rows |
| `Recipes.RecipeStore.AddIngredients` | src/api/recipes/endpoint.py:117-119 | one junction row per ingredient is appended in list order, nothing else changes; an empty list issues no insert, otherwise exactly one insert of those rows |
| `Recipes.CreationInserts` | src/api/recipes/endpoint.py:113-119 | a creation issues a utensil or ingredient insert iff that list is non-empty, after creating the recipe |
| `Recipes.CreatedBody` | src/api/recipes/endpoint.py:103-111 | the created recipe carries the payload's fields, its new id and both resolved lists |
| `Recipes.CreatedDump` | src/api/recipes/endpoint.py:109-121 | the 201 body, read under `recipe`, has the new id and the payload's Recipe fields and no other key, the scalar fields unchanged, the directions and both nested lists through their dumps |
| `Recipes.RecipeStore.GetRecipe` | src/api/recipes/endpoint.py:136-141 | an id with no recipe gives 404 `recipe not found`; otherwise the recipe with its id, under `recipe` |

## Left out

- Table locking (src/db/utils.py:15-31): its purpose is concurrency, and this model is sequential. `recipes_post` locks Utensil, then Ingredient. Its effect is taken as given: each resolver call sees a table no one else writes. `lock` also runs the whole handler inside `db.database.atomic()` (src/db/utils.py:25): a 409, or a 400 from a nested list checked after the resolver's insert, rolls back the names that insert added. Transactions and rollback are not modelled; in the model those names stay in the table.
- peewee query building and execution, and `select_recipes`: the two queries the resolver issues are the methods of `Table.Table`, with no SQL text. `BaseModel.create_table` is left out; only the enum DDL string is modelled.
- The Returning-Update primitive, `update_recipe` and `recipe_put`: they call `ingredients_parsing` and `utensils_parsing`, which are not part of this model, and `recipe_put` is unfinished.
- `Nested.handle_error` and `Default.handle_error`: they depend on marshmallow's error structure.
- marshmallow's own loading: `SchemaRules.LoadField` models only the parts the recipe schemas use: `missing` defaults, `required`, null, the String type check, and `Range` / `OneOf` with their messages. Nested fields are not loaded by it.
- SchemaRules.LoadField: an Integer field accepts only a JSON integer. marshmallow 2's Integer field is not strict and casts with `int()`, so a string such as `"5"` (or a float or a boolean) would load; the model refuses it with INTEGER.
- SchemaRules.ValidateNested: the nested post schema is checked for missing required fields only, not for the types of the values present.
- DbHelpers.GetOrInsert: requires every item to be a dict with an integer `id`, or a string `name` when it has no `id`. What the source does with other items is not modelled; some of them raise, others reach the select (`{'id': None}` gets the CORRESPONDING error).
- DbHelpers.GetOrInsert: `_insert` inserts the whole dict of the item holding each new name (src/db/helpers.py:72); the model inserts the name. The two agree for the projected `{name}` items the schema hook hands over (`Schemas.InsertedDicts`); name items with further keys, which the left-out re-run in `Nested.handle_error` (src/utils/schemas.py:129) could pass, are not modelled.
- `Recipes.RecipeStore.Post` takes the payload after the schema load, with resolved lists. The `IntegrityError` of `Recipe.create` is modelled as "a recipe with this name already exists". The SQL schema that declares the constraint is not part of this model.
- Recipes.RecipeStore.Post, Recipes.RecipeStore.Create: the dump takes the loaded values as already of their field's type, so marshmallow's Integer and String formatting is the identity. A Recipe field the payload lacks is skipped, where a peewee instance would dump it as null; the post schema requires every field, so a loaded payload has them all.
- Recipes.RecipeStore.GetRecipe: its 200 body is the stored row with its id, directions kept as the stored pairs and no utensil or ingredient lists; the source returns the Recipe schema's dump of the joined recipe (src/api/recipes/endpoint.py:143). The HTML template is not modelled either.
- `dict_merge` aliasing: `+=` on a list extends, in place, a list taken from an argument. The model uses immutable sequences and does not reproduce that aliasing.
- `dict_merge` on sets and tuples: the value model has no sets and no tuples. Lists stand for every non-string iterable except dicts.
- Flask plumbing (`raise_or_return`, `template`, `make_response`, the blueprints), the ingredient and utensil CRUD endpoints, the superseded API modules, configuration, the connection and `src/db/enum.py`: none of them is part of this model.
- Orm.DirectionFromDatabase, Orm.DirectionRoundTrip: proved only for titles and texts without comma, quote, backslash or parenthesis; with those characters the database quotes or splits the fields differently.
- Orm.ArrayRoundTrip, Orm.ArrayFetched: proved only for plain directions (`PlainAll`: no `"`, `\`, `(`, `)` or `,`) on a single line. For multi-line ones see the finding below. A text with a comma is stored, but PostgreSQL prints it quoted with its comma, and `python_value`'s `split(',')` (src/db/orm.py:52) then yields three parts and raises `ValueError` (`Orm.CommaInText`); PostgreSQL's quote-aware reading of such a literal is not modelled, so no corrected decoder is given for it.

## Findings

| source | as written | input that shows it | evidently intended | confidence | as-written member | corrected member |
|---|---|---|---|---|---|---|
| src/db/orm.py:60 | `re.compile("\(.*?\)")` has no DOTALL flag, so `.` stops at a newline | a stored direction whose text contains a newline, e.g. `Direction("a", "b\nc")`: the group never closes, and the fetched list is `[]` with no error | every stored direction comes back, multi-line ones included (pattern compiled with `re.DOTALL`) | medium, not executed | `Orm.ArrayDropsMultiline` | `Orm.ArrayFetchedDotAll` |
