# Foodgram backend — a Dafny model

Foodgram is a recipe-sharing service with a Django REST backend. Users
publish recipes. A recipe has tags and a list of ingredients, each with an
amount. Users follow authors, mark recipes as favourites, put recipes in a
shopping cart, and download a shopping list that sums the cart's
ingredients.

This project models that backend's core in Dafny:

- the tables and their constraints, cascades and default orderings (`UserModels`, `RecipeModels`);
- the database as one mutable object whose fields are the tables (`Database.Store`);
- the tag slug validator (`Validators`);
- the three object-permission classes (`Permissions`);
- the serializers' logic (`Serializers`): the relation flags, the password and follow validations, the follow view, and recipe create and update;
- the views' logic (`Views`): the recipe list filter, the favourite, cart and subscribe toggles, and the shopping-list download;
- the shopping list's GROUP BY/SUM aggregation and its text rendering (`ShoppingList`, `Text`).

Shared pieces:

- `Seqs` holds `Option`, `Result`, `Filter` and sequence lemmas.
- `Ordering` holds code-point string order and an insertion sort proved sorted and a permutation.
- `ApiErrors` lists the ways a request can fail.

Pure operations are functions on a `Db` value (one sequence per table).
Operations that write to the database are methods on a `Store`. Each such
method's postcondition ties the new `Store.Snapshot()` to one of those
functions, or states the new tables outright. Every method also keeps
`Store.Valid()`: the schema's unique keys, foreign keys and bounds hold.

Some behaviours of the code that a reader of the API might not expect:

- **Followed author's recipes.** `get_recipes` shows the first six of the
  author's recipes in the recipe table's default order, which is by name,
  not by date (`Serializers.GetRecipes`).
- **Duplicate ingredients.** Nothing rejects a payload that lists the same
  ingredient twice, so two join rows are stored
  (`Serializers.DuplicateEntriesKept`).
- **No transaction.** Create and update run without a transaction. A
  missing `amount` in create leaves the recipe row and its tags written
  (`Serializers.CreateRecipe`). A missing `amount` in update leaves the old
  ingredient rows deleted (`Serializers.UpdateRecipe`).
- **Raw storage errors.** The foreign-key `IntegrityError` of update's
  `bulk_create` is not turned into a validation error
  (`Serializers.UpdateFailsOnKeptIngredient`).
- **Recipe list.** No `tags` parameter means no recipe, and either value of
  the cart flag raises `FieldError` (`Views.NoTagsNoRecipes`,
  `Views.RecipeList`; see Findings).

## Model

| member | source | states |
|---|---|---|
| Ordering.StrLeTotal | backend/recipes/models.py:50 | the name order relates every pair of strings |
| Ordering.StrLeTrans | backend/recipes/models.py:50 | the name order is transitive |
| Ordering.StrLeAntisym | backend/recipes/models.py:50 | two names each ordered before the other are equal |
| Ordering.Sort | backend/recipes/models.py:108 | `order_by`: the result is a permutation of the input and is sorted |
| Ordering.SortMembers | backend/recipes/models.py:108 | ordering keeps exactly the rows it was given |
| Text.Capitalize | backend/api/views.py:235 | `str.capitalize`: same length, first character upper-cased, the rest lower-cased |
| Text.CaseMappingLaws | backend/api/views.py:235 | the case mappings are idempotent and undo each other on the letters they change |
| Text.CapitalizeIdempotent | backend/api/views.py:235 | capitalizing twice equals capitalizing once |
| Text.Decimal | backend/api/views.py:238 | an integer in an f-string: decimal digits only, no leading zero |
| Text.DecimalRoundTrip | backend/api/views.py:238 | reading the rendered digits back gives the number |
| Validators.SlugRun | backend/recipes/validators.py:5 | the greedy run of slug characters: all of them are slug characters, and the next character is not |
| Validators.SlugValidation | backend/recipes/validators.py:8-13 | returns the value unchanged when it matches; accepts exactly the non-empty runs of `[-a-zA-Z0-9_]`, with or without one trailing newline; otherwise the slug error |
| Validators.PatternMatchesExactly | backend/recipes/validators.py:5-9 | the anchored `re.match` succeeds iff the string is a slug body, optionally followed by one newline |
| Validators.SlugValidationIdempotent | backend/recipes/validators.py:8-13 | a value that validated validates again to the same result |
| Validators.EmptySlugRejected | backend/recipes/validators.py:5 | the empty string is refused, since `+` needs one character |
| Validators.SlugExamples | backend/recipes/validators.py:5-13 | concrete accepted slugs, including one with a single trailing newline |
| Validators.SlugRejectedExamples | backend/recipes/validators.py:5-13 | concrete refused slugs: one with a space and `!`, and one with two trailing newlines |
| Permissions.CustomUserPermissions | backend/foodgram/api/permissions.py:4-9 | `retrieve` is allowed iff the requester is signed in; any other action is allowed |
| Permissions.IsAuthor | backend/foodgram/api/permissions.py:12-15 | allowed iff the requester is signed in and is the object's author |
| Permissions.IsAuthorOrReadOnly | backend/foodgram/api/permissions.py:18-22 | a safe method is always allowed; any other method iff the requester is the author |
| Permissions.AuthorPermissionsAgree | backend/foodgram/api/permissions.py:12-22 | `IsAuthor` implies `IsAuthorOrReadOnly`; for writing methods the two agree |
| UserModels.InsertUser | backend/users/models.py:10-19 | the insert succeeds iff e-mail and username are both unused; the result appends the user and keeps users unique |
| UserModels.FindByEmail | backend/users/models.py:8 | a found user has that e-mail; none is found only if no user has it |
| UserModels.LoginIdentifiesUser | backend/users/models.py:8-19 | since e-mails are unique, each user's e-mail finds exactly that user |
| UserModels.UsernameLeIsTotalPreorder | backend/users/models.py:30 | the username order is total and transitive |
| UserModels.OrderedUsers | backend/users/models.py:30 | users listed by username: a permutation of the table, ascending |
| UserModels.OrderedFollows | backend/users/models.py:49 | follows listed by `-author_id`: a permutation, author ids descending |
| UserModels.FollowsAfterUserDelete | backend/users/models.py:37-46 | both foreign keys cascade: exactly the follows naming the user on neither side remain, each with its number of copies |
| RecipeModels.EmptyConsistent | backend/recipes/models.py:9-166 | the empty database satisfies every constraint of the schema |
| RecipeModels.DuplicatePairsAreStorable | backend/recipes/models.py:114-166 | a consistent database may hold duplicate join, favourite, cart and follow rows and a self-follow, since no constraint forbids them |
| RecipeModels.TagFieldErrors | backend/recipes/models.py:10-26 | a blank name is an error; a non-blank name, any colour, or a non-blank slug over its `max_length` is a length error; a blank slug is neither length-checked nor validated; a non-blank slug errs iff the validator refuses it; no unique error arises here |
| RecipeModels.TagUniqueErrors | backend/recipes/models.py:12-23 | each unique error iff its value is in use and its field had no field error; with no field errors, no unique error iff name, colour and slug are all unused |
| RecipeModels.InsertTag | backend/recipes/models.py:9-26 | the insert succeeds iff there is no field error and no clash; on success the tags stay well formed; on failure the error set is the field errors plus the unique errors of the fields that passed |
| RecipeModels.InsertTagKeepsWellFormed | backend/recipes/models.py:9-26 | appending a fresh valid tag keeps ids, names, colours and slugs unique |
| RecipeModels.NameOrdersAreTotalPreorders | backend/recipes/models.py:50 | ordering ingredients by name, and recipes by name as line 108 of the same file does, is total and transitive |
| RecipeModels.OrderedTags | backend/recipes/models.py:31 | tags listed by id: a permutation, ids ascending |
| RecipeModels.OrderedIngredients | backend/recipes/models.py:50 | ingredients listed by name: a permutation, names ascending |
| RecipeModels.OrderedRecipes | backend/recipes/models.py:108 | recipes listed by name: a permutation with the same members, ascending |
| RecipeModels.DeleteRecipe | backend/recipes/models.py:115-162 | deleting a recipe removes exactly it and the join, favourite and cart rows naming it; every other row keeps its number of copies; users, follows, tags, ingredients and the id sequence are unchanged |
| RecipeModels.DeleteIngredients | backend/recipes/models.py:119-123 | deleting catalogue ingredients removes exactly them and every join row naming them, in any recipe; every other join row keeps its number of copies; the other tables are unchanged |
| RecipeModels.DeleteUser | backend/recipes/models.py:65-162 | deleting a user removes the user, their follows on either side, their recipes, and the join, favourite and cart rows of those recipes, and their own favourite and cart rows; every surviving row keeps its number of copies; tags, ingredients and the id sequence are unchanged |
| RecipeModels.DeleteRecipeKeepsConsistent | backend/recipes/models.py:115-162 | the recipe cascade leaves a consistent database consistent |
| RecipeModels.DeleteIngredientsKeepsConsistent | backend/recipes/models.py:119-123 | the ingredient cascade leaves a consistent database consistent |
| RecipeModels.DeleteUserKeepsConsistent | backend/recipes/models.py:65-70 | the user cascade leaves a consistent database consistent |
| RecipeModels.DeleteUserKeepsUserRefs | backend/users/models.py:37-46 | after the user cascade, no follow, recipe, favourite or cart row points at a missing user |
| RecipeModels.DeleteUserKeepsRecipeRefs | backend/recipes/models.py:115-162 | after the user cascade, no join, favourite or cart row points at a missing recipe |
| Database.Store.constructor | backend/recipes/models.py:9-166 | a new database is empty, consistent, and its recipe ids start at 1 |
| Serializers.IsSubscribed | backend/api/serializers.py:41-45 | false for an anonymous requester; for a signed-in one, true iff a follow row pairs them with the author |
| Serializers.IsFavorited | backend/api/serializers.py:213-217 | false for an anonymous requester; otherwise true iff a favourite row pairs them with the recipe |
| Serializers.IsInBasket | backend/api/serializers.py:219-223 | false for an anonymous requester; otherwise true iff a cart row pairs them with the recipe |
| Serializers.ValidatePassword | backend/api/serializers.py:53-57 | accepted iff the new password differs from the current one; the value is returned unchanged; otherwise the fixed error text |
| Serializers.ValidateFollow | backend/api/serializers.py:99-113 | no error iff not yet followed and not oneself; the "already subscribed" check comes first |
| Serializers.FollowTwiceRejected | backend/api/serializers.py:99-106 | once a validated follow is stored, the same follow is refused as already subscribed |
| Serializers.AuthorRecipes | backend/api/serializers.py:91 | exactly the recipes by the author |
| Serializers.GetRecipesCount | backend/api/serializers.py:95-97 | at most the table size; zero iff the author wrote nothing |
| Serializers.RecipesCountIsCardinality | backend/api/serializers.py:95-97 | with unique recipe ids, the count is the number of the author's distinct recipes |
| Serializers.GetRecipes | backend/api/serializers.py:90-93 | min(6, count) of the author's recipes, each table row at most as often as stored, in name order; no recipe left out sorts before one shown |
| Serializers.ShownRowsOccurInTable | backend/api/serializers.py:91-93 | the shown prefix takes no table row more often than the table holds it |
| Serializers.FirstOfOrdered | backend/api/serializers.py:91 | a prefix of the author's recipes in name order is ordered; nothing outside it sorts earlier |
| Serializers.FollowData | backend/api/serializers.py:60-97 | the follow view: the author's e-mail, id, username, first and last name, the is_subscribed flag, the recipe count, and one summary per recipe `get_recipes` returns, in its order |
| Serializers.TagSet | backend/api/serializers.py:254 | `tags.set` stores each listed tag once |
| Serializers.JoinRows | backend/api/serializers.py:255-260 | Ok iff every entry has an amount, else `KeyError('amount')`; one row per entry, same order, same ingredient and amount |
| Serializers.DuplicateEntriesKept | backend/api/serializers.py:255-260 | two entries for one ingredient become two join rows |
| Serializers.JoinRowsValid | backend/api/serializers.py:255-260 | rows built from validated entries name existing ingredients and carry amounts in 1..50000 |
| Serializers.WithTags | backend/api/serializers.py:274-275 | only the recipe with that id gets the new tag set; the others and the order stay |
| Serializers.WithRecord | backend/api/serializers.py:277-281 | only the row with that id is replaced by the record; the others and the order stay |
| Serializers.AddRecipeKeepsConsistent | backend/api/serializers.py:253 | a new recipe with the next sequence id and valid fields keeps the database consistent |
| Serializers.AppendRowsKeepsConsistent | backend/api/serializers.py:255-260 | appending join rows with existing keys and valid amounts keeps the database consistent |
| Serializers.SameIdsKeepConsistent | backend/api/serializers.py:274-281 | rewriting recipe rows in place with the same ids and valid fields keeps the database consistent |
| Serializers.WithTagsKeepsConsistent | backend/api/serializers.py:274-275 | setting existing tags keeps the database consistent |
| Serializers.WithRecordKeepsConsistent | backend/api/serializers.py:277-281 | saving a valid record keeps the database consistent |
| Serializers.CreateRecipe | backend/api/serializers.py:250-261 | the recipe row gets the next id and its tags; then either every join row is appended and the recipe is returned, or `KeyError` with the row and tags already stored; no other table changes |
| Serializers.LinkedIngredients | backend/api/serializers.py:265 | exactly the catalogue ingredients the recipe's join rows name |
| Serializers.ReplaceIngredients | backend/api/serializers.py:264-272 | the store after the ingredient step equals the as-written step: delete the linked catalogue rows, then insert the new rows or fail |
| Serializers.UpdateRecipe | backend/api/serializers.py:263-283 | the new store and the result equal `Update` of the old store; the store stays consistent |
| Serializers.DeletedCatalogue | backend/api/serializers.py:265 | after the delete, the catalogue holds exactly the ingredients the recipe did not name |
| Serializers.UpdateFailsOnKeptIngredient | backend/api/serializers.py:264-272 | an update that names ingredients fails with `IntegrityError` iff one of them was linked to the recipe |
| Serializers.UpdateStripsSharedRows | backend/api/serializers.py:265 | every join row, in any recipe, that names an ingredient of the updated recipe is gone |
| Serializers.UpdateReplacesOwnRows | backend/api/serializers.py:264-272 | after a successful update, the recipe's rows are exactly the new ones, each as many times as the payload lists it |
| Serializers.UpdateFootprint | backend/api/serializers.py:263-283 | a successful update changes only the catalogue, the join rows and the recipe's tags; with a `tags` key the stored recipe's tags become the listed set; other recipes are unchanged; the returned instance carries the new scalar fields, which the store does not |
| Serializers.UpdateKeepsConsistent | backend/api/serializers.py:263-283 | the update as written keeps a consistent database consistent |
| Serializers.UpdateIntended | backend/api/serializers.py:263-283 | the corrected update: only the recipe's own rows are replaced, and the record is saved |
| Serializers.UpdateIntendedSpec | backend/api/serializers.py:263-283 | the corrected update leaves the catalogue and other recipes' rows alone; the stored row equals the returned record |
| Serializers.UpdateIntendedKeepsConsistent | backend/api/serializers.py:263-283 | the corrected update keeps a consistent database consistent |
| Serializers.SharedIngredientExample | backend/api/serializers.py:265 | rewriting one recipe's ingredients succeeds, yet removes another recipe's flour row and the flour itself |
| Serializers.SharedIngredientIntendedExample | backend/api/serializers.py:264-272 | under the corrected update the other recipe's row and the catalogue entry survive |
| Serializers.RenameNotStoredExample | backend/api/serializers.py:277-283 | a rename returns the new name while the stored row keeps the old one |
| Views.FindRecipe | backend/api/views.py:167 | `get_object_or_404`: a found recipe has the id; none only if no recipe has it |
| Views.FindUser | backend/api/views.py:66 | `get_object_or_404`: a found user has the id; none only if no user has it |
| Views.RecipeList | backend/api/views.py:130-158 | `TypeError` iff the requester is anonymous; otherwise `FieldError` iff the cart flag is `'1'` or `'0'`; otherwise the stored recipes passing the favourite, tag and author filters, each as many times as the table holds it, in name order |
| Views.RecipeListIsIntersection | backend/api/views.py:134-156 | when no cart flag is set, the list's ids are the intersection of the favourite, tag and author sets |
| Views.NoTagsNoRecipes | backend/api/views.py:148-152 | with no `tags` parameter a signed-in user's list is empty, or `FieldError` when the cart flag is set |
| Views.RecipeListIntended | backend/api/views.py:130-158 | the corrected list: the same filters with the cart filter working, an anonymous requester matching no relation, and no tags meaning no tag restriction; each kept recipe as many times as the table holds it, in name order |
| Views.CartFilterExample | backend/api/views.py:142-146 | a signed-in request for the cart's breakfast recipes fails with `FieldError`, where the corrected list returns the recipe in the cart |
| Views.RecipeListIntendedAgrees | backend/api/views.py:130-158 | for a signed-in requester with tags and no cart flag the two lists agree; with no parameters the corrected list is the whole ordered table |
| Views.AddPair | backend/api/views.py:169-177 | adding succeeds iff the pair is absent, and appends it; otherwise "already present" |
| Views.RemovePair | backend/api/views.py:179-186 | removing succeeds iff the pair occurs exactly once and removes that one; absent gives "absent"; twice or more gives the `.get()` error |
| Views.AddThenRemoveRestores | backend/api/views.py:169-186 | adding then removing a pair restores the table |
| Views.ToggleTwiceRefused | backend/api/views.py:169-186 | a second add, or a second remove, of the same pair is refused |
| Views.TogglesKeepNoDuplicates | backend/api/views.py:169-186 | toggling keeps a duplicate-free table duplicate-free, and removal there never meets the `.get()` error |
| Views.FlagsFollowToggles | backend/api/serializers.py:213-223 | after an add the matching favourite or basket flag is true and after a remove it is false; the same holds for the subscription flag of lines 40-44 |
| Views.Favorite | backend/api/views.py:165-186 | 404 for an unknown recipe; otherwise the favourite table is updated as the toggle says, with its reply or error text; no other table changes |
| Views.ShoppingCard | backend/api/views.py:193-214 | the same toggle over the cart table; no other table changes |
| Views.Subscribe | backend/api/views.py:64-79 | 404 for an unknown author; POST stores the validated follow and answers with the view read after the insert; DELETE removes the single matching follow, else 404 or the `.get()` error |
| Views.SubscribeAnswerShowsSubscribed | backend/api/views.py:69-74 | the answer to a successful subscribe shows the author as subscribed |
| Views.DownloadShoppingCart | backend/api/views.py:221-240 | `AttributeError` iff a cart recipe has no ingredients; otherwise the header followed by one line per group |
| Views.RenderShoppingList | backend/api/views.py:233-240 | the loop's joined pieces equal the header followed by one line per aggregated group, in order |
| Views.EmptyCartDocument | backend/api/views.py:221-240 | a user with an empty cart gets the header alone |
| ShoppingList.FindIngredient | backend/api/views.py:226-227 | the join from a row to its ingredient: found with that id, or the id is absent |
| ShoppingList.AggregateCorrect | backend/api/views.py:223-231 | the groups are strictly sorted by key, have exactly the items' keys, and each total is the sum for its key |
| ShoppingList.TotalOfGroup | backend/api/views.py:229 | in sorted groups, a group's total is the total looked up for its key |
| ShoppingList.AggregateSpec | backend/api/views.py:223-231 | each group's key occurs among the items and its total is that key's sum; every key has a group; no key twice; names ascending |
| ShoppingList.ShoppingGroupsSpec | backend/api/views.py:223-231 | the same for the items of the user's cart recipes, one per cart row and join row |
| ShoppingList.EmptyCartNoGroups | backend/api/views.py:224 | a user with no cart rows gets no groups |
| ShoppingList.IntText | backend/api/views.py:238 | an integer as an f-string writes it: its digits, with a minus sign when negative |
| ShoppingList.ShoppingListTextShape | backend/api/views.py:233-238 | the document starts with the header; with no groups it is the header alone; otherwise the first line follows the header |
| ShoppingList.ShoppingListTextAppend | backend/api/views.py:234-238 | one more group appends exactly its line |
| ShoppingList.FlourExample | backend/api/views.py:229 | two flour rows of 100 g and 200 g sum into one group of 300 g |
| ShoppingList.FlourLineExample | backend/api/views.py:235-238 | the flour group of 300 g is rendered as `Flour (g) — 300;` and a newline |

## Left out

- HTTP plumbing (status codes, response headers, content types, routing, pagination, the 405 for other verbs) is not modelled. The toggle methods require POST or DELETE.
- Authentication: tokens, password hashing and `set_password` are left out. `IsAuthenticated` is modelled as a signed-in `UserId` parameter on the toggle and download methods.
- A serializer context without a `request` is modelled as an anonymous requester. That matches `UserSerializer.get_is_subscribed`, which then returns false (backend/api/serializers.py:41-43). `FollowSerializer.get_is_subscribed` instead raises `KeyError` on such a context (backend/api/serializers.py:84-85); that failure is not modelled.
- Image upload: Base64 decoding and file storage are left out. The image is an opaque string.
- The ingredient name prefix search (`istartswith`) is not modelled. It is a database lookup with case folding.
- The CSV data loaders, the admin, and the older duplicate `backend/foodgram/` tree are not modelled. The exception is its `api/permissions.py`, which the views import.
- `users/validators.py` is not part of this model. The username validator's pattern is not modelled.
- Django's field machinery is left out: `SlugField`'s own built-in validator, DRF's `max_length=150` on passwords, and the type coercion of request fields.
- Text.Capitalize: the case mappings cover only ASCII letters and Cyrillic U+0400–U+045F. Every other character maps to itself, where Python's `str.capitalize` changes other letters (`"CRÈME"` gives `"Crème"`) and can change the length (`"ßa"` gives `"Ssa"`).
- Collation: the model orders names by Unicode code point. A database collation may order them differently.
- ShoppingList.Aggregate: the query orders groups by name only. The model breaks ties between two units of one name by unit, because the database leaves that order unspecified.
- Views.RecipeList: the `favoriterecipe__in` join repeats a recipe that the requester favourited twice. The model returns each recipe once.
- Views.RecipeList: a non-numeric `author` parameter raises `ValueError` in the source. The model takes the parameter as an integer.
- Views.DownloadShoppingCart: the NULL name row is modelled as one upfront check. Its position in the database's ordering is not modelled. The response's UTF-8 encoding is not modelled either.
- Serializers.CreateRecipe: an anonymous creator (`perform_create` with `AnonymousUser`) is not modelled. The author must be a stored user.
- Serializers.UpdateRecipe: the view's `get_object` and permission check are not modelled. The instance must be a stored recipe.
- The `is_favorite` and `is_in_shopping_cart` columns of the recipe table are not modelled. No code reads or writes them.
- Concurrency and transaction isolation are not modelled. Every operation runs alone.

## Findings

| source | as written | input that shows it | evidently intended | confidence | as-written member | corrected member |
|---|---|---|---|---|---|---|
| backend/api/serializers.py:265 | `instance.ingredients.all().delete()` deletes the catalogue ingredients the recipe uses; the cascade then removes their rows from every recipe | two recipes that share flour; update the first with ingredients `[salt]` | delete only this recipe's join rows | high (not executed) | Serializers.SharedIngredientExample | Serializers.SharedIngredientIntendedExample |
| backend/api/serializers.py:264-272 | an update that lists an ingredient the recipe already used fails on the foreign key, since that ingredient was just deleted | a recipe with flour, updated with ingredients `[flour]` | keeping an ingredient succeeds | high (not executed) | Serializers.UpdateFailsOnKeptIngredient | Serializers.UpdateIntendedSpec |
| backend/api/serializers.py:277-283 | the scalar fields are assigned on the instance but never saved | update a recipe's name only | the new name is stored | medium (not executed) | Serializers.RenameNotStoredExample | Serializers.UpdateIntendedSpec |
| backend/api/views.py:148-152 | `getlist` returns `[]` when `tags` is absent, and `is not None` is then true, so the list keeps no recipe | `GET /recipes/` with no query parameters | no `tags` means no tag restriction | high (not executed) | Views.NoTagsNoRecipes | Views.RecipeListIntendedAgrees |
| backend/api/views.py:132-135 | `FavoriteRecipe.objects.filter(user=AnonymousUser)` raises before any flag is read | an anonymous `GET /recipes/` | an anonymous visitor sees the list | medium (not executed) | Views.RecipeList | Views.RecipeListIntended |
| backend/api/views.py:142-146 | `shopping_cart__in` names a relation the recipe model does not have: the cart's foreign key to the recipe declares no related name, so the reverse query name is `shoppingcart`, and building the filter raises `FieldError` | a signed-in `GET /recipes/?is_in_shopping_cart=1&tags=breakfast` | filter by the requester's cart | high (not executed) | Views.CartFilterExample | Views.RecipeListIntended |
