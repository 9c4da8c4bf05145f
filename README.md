# Ingredient classifier

A model of the classification core of the `CheckIngredients` HTTP function in
`Foodtems/CheckIngredients.cs`. The function gets a list of restricted
ingredient names and a catalog document of items. For each item it flattens the
batter, topping and filling groups into one ingredient list. It then flags the
item `"red"` when every restricted name occurs in that list and `"green"`
otherwise.

The catalog is represented as typed records that have already been decoded. A
JSON key the code may find absent is an `Option`. The nested `batters.batter`
and `fillings.filling` paths are therefore `Option<Option<seq<…>>>`. Batter and
topping entries carry their name under `type`; filling entries carry it under
`name`. The error paths are `Result` values: a missing group, or a missing
`items.item` array, fails the whole request.

Files:
- `wrappers.dfy`: `Option` and `Result`.
- `catalog.dfy`: the document, items and ingredient entries. Also which groups are readable and which names an item mentions.
- `linq.dfy`: `Enumerable.Except` over strings: the distinct elements of the first list that are not in the second, compared exactly.
- `ingredients.dfy`: the two flattenings (`GetAllIngredients`, and the copy inside `CheckForRestrictedIngredients`), the containment test, and lemmas about them.
- `classifier.dfy`: the `foreach` loop of `Run` as a method, and lemmas about the entries it returns.

The source computes the flattened list twice, at lines 69-73 and 81-85. The
model keeps both copies. `FlagUsesReturnedList` proves that they fail together
and that the flag is computed from the same list that is returned.

## Model

| member | source | states |
|---|---|---|
| `Ingredients.GetAllIngredients` | Foodtems/CheckIngredients.cs:79-86 | It succeeds exactly when batters.batter and topping are present and fillings is absent or has its filling array. Otherwise it fails with the first missing group, in the order batters, toppings, fillings. On success the list holds the batter "type" names, then the topping "type" names, then the filling "name" names, position by position, with the length being the sum of the group sizes. |
| `Ingredients.CheckForRestrictedIngredients` | Foodtems/CheckIngredients.cs:67-77 | It fails under the same conditions, with the same group. On success it is true exactly when every restricted name is mentioned by some batter, topping or filling entry of the item. |
| `Linq.Except` | Foodtems/CheckIngredients.cs:76 | The elements of the result are exactly those of the first list that are not in the second. The result has no repeats and is no longer than the first list. |
| `Linq.ExceptUnseen` | Foodtems/CheckIngredients.cs:76 | It yields each element of the list that is not yet in the seen set exactly once, without repeats. |
| `Linq.ExceptEmptyIffContained` | Foodtems/CheckIngredients.cs:76 | `!restricted.Except(all).Any()` holds if and only if every restricted name is in `all`. |
| `Ingredients.MentionsIffListed` | Foodtems/CheckIngredients.cs:81-85 | A name is in the concatenated list if and only if some entry of some group carries it under that group's name key. |
| `Ingredients.FlagUsesReturnedList` | Foodtems/CheckIngredients.cs:57-61 | The test and the returned list fail together, with the same group. When both succeed, the test equals containment of the restricted names in the list that GetAllIngredients returns. |
| `Ingredients.NoFillingsGroup` | Foodtems/CheckIngredients.cs:83 | An item without a fillings object flattens to its batter names followed by its topping names. The absence is not an error. |
| `Ingredients.OccurrencesKept` | Foodtems/CheckIngredients.cs:85 | Each name occurs in the flattened list exactly as often as in the three groups together, so nothing is deduplicated or dropped. |
| `Ingredients.EmptyRestrictedHolds` | Foodtems/CheckIngredients.cs:76 | With an empty restricted list, every readable item passes the test. |
| `Ingredients.OnlyRestrictedNamesMatter` | Foodtems/CheckIngredients.cs:76 | Two restricted lists with the same names, in any order and with any repeats, give the same test result for every item. |
| `Ingredients.GlazedExample` | Foodtems/CheckIngredients.cs:69-85 | Take a Regular batter and a Glazed topping with no fillings. It flattens to ["Regular", "Glazed"]. It passes when "Glazed" is restricted and fails when "Chocolate" is. |
| `Classifier.Run` | Foodtems/CheckIngredients.cs:52-64 | A document without items.item fails with MalformedDocument. Otherwise the result succeeds exactly when every item is readable. On failure it names the first unreadable item and its first missing group. On success there is one entry per item, in order: id and type unchanged, ingredients equal to the item's flattened list, and flag Red exactly when every restricted name is in that list. |
| `Classifier.EmptyRestrictedAllRed` | Foodtems/CheckIngredients.cs:60 | With no restricted names, every entry of a response is flagged red. |
| `Classifier.ClassificationIgnoresRestrictedOrder` | Foodtems/CheckIngredients.cs:59-61 | An entry that is correct for one restricted list stays correct for any list with the same names. |

## Left out

- Reading and deserialising the request body (lines 29-30) is left out. The restricted list is a `seq<string>` parameter. A body without the `restrictedIngredients` field gives a null list. The request would then fail at the first item: at `Except` if that item is readable, or earlier in `GetAllIngredients` if it is not. A catalog with no items would still succeed. That case is not modelled.
- Environment-variable configuration and the Azure Blob download (lines 33-47) are external I/O and are left out.
- `JObject.Parse` (line 49) and dynamic `JToken` traversal are a foreign JSON library. The document is given as typed records, and a missing key is `None`.
- A name key missing from an entry is left out. The cast `(string)b["type"]` would then put a null into the list. In the model every entry carries a string name.
- A key present with a JSON null value, or with a value of the wrong JSON kind, is left out.
- `id` and `type` can be any JSON values and are passed through unchanged. The model represents them as strings.
- Logging, `async`/`await` and the serialisation of the response list by `OkObjectResult` are left out. `Flag.Label` gives the wire strings "red" and "green".
- The source raises exceptions. It raises `NullReferenceException` for a missing object, or when iterating a missing `items.item` (line 55). It raises `ArgumentNullException` from `Select` over a missing array (lines 69-71 and 81-83). The model turns both into the `Error` variants `MalformedDocument` and `MalformedItem(index, group)`. The index and group are added by the model to say which item failed.
