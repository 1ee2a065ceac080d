# foodgram backend core, modelled in Dafny

This project models the core logic of the foodgram recipe service's Django REST backend:

- **Users and follows** (`users_models.dfy`):
  - field bounds and unique columns;
  - the `unique_follow` constraint and the self-follow guard in `clean`;
  - the string forms;
  - cascade deletes.
- **Recipes store** (`recipes_models.dfy`):
  - ingredients, tags, recipes and their join rows, favorites and shopping-list rows;
  - their bounds and unique columns;
  - what each delete cascades to.
- **Permissions** (`permissions.dfy`): the three permission classes, grouped as Python groups `and`/`or`.
- **Filters** (`filters.dfy`): the recipe filter sets (tags, author, favorites, shopping cart) and the ingredient filter set.
- **Image field** (`serializers_fields.dfy`): the `data:` URL header handling of `Base64ImageField`, as defined in section 3 of RFC 2397.
- **Shared helpers** (`common.dfy`): `add_del_obj_action`, `get_is_field_action` and `create_update_instance_recipe`.
  - The relation tables and the recipe join tables are classes whose row sequences the methods update in place.
- **Views** (`views.dfy`):
  - the user list that hides staff accounts;
  - the POST/DELETE actions behind subscribe, favorite and shopping cart.
- **Shopping-list export** (`shopping_cart.dfy`):
  - `download_shopping_cart` as a method with the source's nested loops over a dictionary;
  - it is specified by a left fold over the cart's ingredient rows;
  - the file body is rendered line by line in name order.

`util.dfy` (Option, Result, sequence filtering, uniqueness) and `text.dfy` (Python's `capitalize`, `split`, `startswith`, string ordering and `str(int)`) hold the library semantics that the core relies on.

Behaviour of the code worth knowing:

- **Export format.** The export writes no header line and numbers no lines. An empty cart gives an empty body.
- **Export grouping.** Rows are grouped by ingredient name alone, not by name and unit. The unit is the one from the first row.
- **Export amount.** The first row of each name is counted twice (see Findings).
- **Recipe composition.** `create_update_instance_recipe` only appends join rows. It deletes nothing first, and no transaction is involved.
- **Missing row on DELETE.**
  - The views' DELETE answers 400 when no row matches.
  - The shared `add_del_obj_action` deletes and answers 204 whether or not a row existed.
- **Repeated subscription.** Neither the subscribe view nor `add_del_obj_action` checks for an existing follow before saving. When the serializer accepts a pair already stored, `unique_follow` makes `save()` raise `IntegrityError`; nothing is stored and no 201 is sent. Favorites and shopping-list rows have no unique constraint, so a repeated add stores a second row.

## Model

| member | source | states |
|---|---|---|
| Text.CapitalizeIdempotent | backend/foodgram/api/views.py:134 | `capitalize` keeps the length of the name and applying it twice changes nothing more |
| Text.Capitalize | backend/foodgram/api/views.py:134 | `str.capitalize` keeps the length, upper-cases the first character and lower-cases every other one |
| Text.Split | backend/foodgram/api/serializers_fields.py:14 | `str.split` with a separator always yields at least one piece |
| Text.FindSpec | backend/foodgram/api/serializers_fields.py:14 | the separator search `str.split` performs finds the first occurrence, and finds nothing exactly when the separator does not occur |
| Text.SplitJoins | backend/foodgram/api/serializers_fields.py:14 | the pieces of `str.split`, joined again by the separator, give back the input |
| Text.SplitPiecesClean | backend/foodgram/api/serializers_fields.py:14 | no piece of `str.split` contains the separator |
| Text.LastPieceAfterSep | backend/foodgram/api/serializers_fields.py:15 | when the text holds the separator, the last piece of the split (`[-1]`) comes right after one |
| Text.LexTotal | backend/foodgram/api/views.py:133 | the string order `sorted` uses is total: of two different names one comes first |
| Text.DecimalRoundTrip | backend/foodgram/api/views.py:134 | the decimal text written for an amount reads back as that amount |
| Text.LastPieceAfterFinalSep | backend/foodgram/api/serializers_fields.py:15 | `split(sep)[-1]` of a text ending in a separator and a separator-free tail is that tail, for a separator whose first character does not recur |
| SerializersFields.LastSegment | backend/foodgram/api/serializers_fields.py:15 | `split('/')[-1]` is a suffix without `/`, preceded by `/` when the format has one, and the whole format when it has none |
| SerializersFields.ToInternalValue | backend/foodgram/api/serializers_fields.py:12-17 | non-strings and strings not starting with `data:image` pass unchanged; unpacking fails exactly when `;base64,` does not split the text in two; a two-piece header always gives the file `temp.` plus the extension holding the decoding of the second part when decoding succeeds, and the decode error when it fails |
| SerializersFields.SplitDataUrl | backend/foodgram/api/serializers_fields.py:14 | `data:image/<subtype>;base64,<payload>` splits into the header and the payload |
| SerializersFields.ImageSubtypeIsExtension | backend/foodgram/api/serializers_fields.py:15 | the extension of `data:image/<subtype>` is the subtype |
| SerializersFields.DataUrlRoundTrip | backend/foodgram/api/serializers_fields.py:12-17 | a well-formed data URL becomes the file `temp.<subtype>` holding the decoded payload, or a decode error |
| SerializersFields.MissingMarkerRejected | backend/foodgram/api/serializers_fields.py:14 | an image header without `;base64,` fails to unpack |
| Permissions.HasPermission | backend/foodgram/api/permissions.py:6-10 | safe methods are always allowed; unsafe ones exactly for authenticated users |
| Permissions.AdminObjectPermission | backend/foodgram/api/permissions.py:13-20 | unsafe methods only for authenticated staff |
| Permissions.OwnerObjectPermission | backend/foodgram/api/permissions.py:23-31 | unsafe methods for the authenticated author, or for staff |
| Permissions.StrangerDenied | backend/foodgram/api/permissions.py:23-31 | an authenticated non-author non-staff user may not change the object |
| Permissions.StaffBypassesAuthentication | backend/foodgram/api/permissions.py:26-31 | because `and` binds tighter than `or`, `is_staff` alone grants the owner permission but not the admin one; no request Django builds tells the two apart, since an unauthenticated user is never staff |
| Permissions.StaffMonotone | backend/foodgram/api/permissions.py:13-31 | setting `is_staff` never withdraws an object permission |
| Permissions.AnonymousReadOnly | backend/foodgram/api/permissions.py:6-31 | the anonymous user is allowed exactly the safe methods |
| UsersModels.FollowStrNamesBoth | backend/foodgram/users/models.py:45-46 | the follow string `<user> - <author>` determines both usernames |
| UsersModels.UserFieldsValid | backend/foodgram/users/models.py:6-12 | a user needs an email of at most 254 characters, a username of at most 150 from the validator's alphabet, and first and last names of at most 150 |
| UsersModels.UsersValid | backend/foodgram/users/models.py:6-12 | every user row is valid, and id, email and username are each unique |
| UsersModels.FollowsValid | backend/foodgram/users/models.py:22-43 | both ends of every follow exist, and no (user, author) pair repeats |
| UsersModels.UserStr | backend/foodgram/users/models.py:18-19 | the string form of a valid user is its non-empty username, which holds no space |
| UsersModels.FollowStr | backend/foodgram/users/models.py:45-46 | the string form of a follow is the follower's, then ` - `, then the author's |
| UsersModels.Clean | backend/foodgram/users/models.py:48-50 | `clean` rejects a follow exactly when user and author are the same |
| UsersModels.InsertFollow | backend/foodgram/users/models.py:22-43 | a follow row is stored exactly when both users exist and the pair is not there yet, and is then appended |
| UsersModels.InsertFollowKeepsValid | backend/foodgram/users/models.py:39-43 | storing a follow keeps foreign keys and `unique_follow` |
| UsersModels.ValidatedInsert | backend/foodgram/users/models.py:48-50 | full validation refuses a self-follow and otherwise stores as the table does |
| UsersModels.SecondInsertRefused | backend/foodgram/users/models.py:39-43 | storing the same pair again violates `unique_follow` |
| UsersModels.FollowsAfterUserDelete | backend/foodgram/users/models.py:22-34 | deleting a user deletes every follow with that user at either end |
| UsersModels.UserDeleteKeepsFollowsValid | backend/foodgram/users/models.py:6-43 | after a user delete the user table and the follow table stay valid |
| RecipesModels.DeleteRecipe | backend/foodgram/recipes/models.py:35-69 | deleting a recipe deletes its tag, ingredient, favorite and shopping rows, and nothing else: every other row stays as often as it was there |
| RecipesModels.DeleteRecipeKeepsValid | backend/foodgram/recipes/models.py:35-69 | a recipe delete leaves no dangling reference |
| RecipesModels.DeleteUser | backend/foodgram/recipes/models.py:21-26 | deleting a user deletes their follows, their recipes and all rows of those recipes, and their favorites and shopping rows; every other row stays as often as it was there |
| RecipesModels.DeleteUserKeepsValid | backend/foodgram/recipes/models.py:20-69 | a user delete leaves the store valid |
| RecipesModels.DeleteIngredient | backend/foodgram/recipes/models.py:40-42 | deleting an ingredient deletes the recipe rows using it, and nothing else: every other row stays as often as it was there |
| RecipesModels.DeleteIngredientKeepsValid | backend/foodgram/recipes/models.py:40-42 | an ingredient delete leaves the store valid |
| RecipesModels.DeleteTag | backend/foodgram/recipes/models.py:35-37 | deleting a tag deletes the recipe rows carrying it, and nothing else: every other row stays as often as it was there |
| RecipesModels.DeleteTagKeepsValid | backend/foodgram/recipes/models.py:35-37 | a tag delete leaves the store valid |
| RecipesModels.DuplicatesAdmissible | backend/foodgram/recipes/models.py:9-69 | a valid store may hold two ingredients with one name, duplicate ingredient rows with amount 0, and duplicate favorites |
| RecipesModels.IngredientFieldsValid | backend/foodgram/recipes/models.py:9-11 | an ingredient has a non-empty name of at most 254 characters and a non-empty unit of at most 128 |
| RecipesModels.TagFieldsValid | backend/foodgram/recipes/models.py:14-17 | a tag has a name of at most 200 characters, a color of at most 7 bytes and a slug of at most 200 slug characters |
| RecipesModels.RecipeFieldsValid | backend/foodgram/recipes/models.py:20-30 | a recipe has bounded name, image path and text, and a cooking time of at least 1 that fits an `IntegerField` |
| RecipesModels.AmountValid | backend/foodgram/recipes/models.py:43 | an amount fits a `PositiveSmallIntegerField`: 0 to 32767 |
| RecipesModels.TagRecipeAccepted | backend/foodgram/recipes/models.py:35-37 | the store accepts a tag row exactly when its tag and its recipe exist |
| RecipesModels.IngredientRecipeAccepted | backend/foodgram/recipes/models.py:40-43 | the store accepts an ingredient row exactly when its ingredient and recipe exist and its amount fits |
| RecipesModels.IngredientsValid | backend/foodgram/recipes/models.py:9-11 | every ingredient is in bounds and only the id is unique: two ingredients may share a name, since `name` is indexed but not unique |
| RecipesModels.TagsValid | backend/foodgram/recipes/models.py:14-17 | every tag is in bounds, and id, `name`, `color` and `slug` are each unique |
| RecipesModels.RecipesValid | backend/foodgram/recipes/models.py:20-30 | every recipe is in bounds, its author exists, and the id is unique; names may repeat |
| RecipesModels.RowsValid | backend/foodgram/recipes/models.py:35-69 | every join, favorite and shopping row is one the store accepts; no pair is unique |
| RecipesModels.Valid | backend/foodgram/recipes/models.py:6-69 | the whole store: users and follows, ingredients, tags with their four unique columns, recipes with existing authors, and the rows |
| Filters.GetFilterQueryset | backend/foodgram/api/filters.py:39-47 | a false or absent flag keeps the queryset; a true one keeps exactly the recipes in the user's favorites (field `favorites`) or shopping rows (any other field); the result is within the input |
| Filters.AuthorFilter | backend/foodgram/api/filters.py:33 | keeps exactly the recipes by the given author, or all without a value |
| Filters.TagsFilter | backend/foodgram/api/filters.py:9-13 | an unknown slug is an error; otherwise the recipes having any tag with a listed slug remain, all of them when none is listed |
| Filters.AnonymousFilter | backend/foodgram/api/filters.py:5-17 | the anonymous set filters by tags only, within the input |
| Filters.RecipeFilter | backend/foodgram/api/filters.py:20-47 | the authenticated set fails exactly when the tags do, and keeps the tag matches that also satisfy each given flag and author |
| Filters.AnonymousIgnoresCallerFields | backend/foodgram/api/filters.py:15-17 | author and flags make no difference to the anonymous set |
| Filters.IngredientNameFilter | backend/foodgram/api/filters.py:51-54 | keeps exactly the ingredients whose name starts with the text, ignoring case |
| Filters.MeasurementUnitFilter | backend/foodgram/api/filters.py:56-58 | keeps exactly the ingredients with that unit, or all without a value |
| Filters.NameFilterIgnoresCase | backend/foodgram/api/filters.py:51-54 | lower-casing the search text finds the same ingredients |
| Common.Without | backend/foodgram/api/common.py:19 | `filter(**data).delete()` removes exactly the matching rows; every other row stays as often as it was there |
| Util.FilterCounts | backend/foodgram/api/common.py:10 | a queryset `filter` keeps every selected row as often as it occurs and no other row |
| Common.WithoutIdempotent | backend/foodgram/api/common.py:19 | deleting a second time removes nothing more |
| Common.SaveThenDelete | backend/foodgram/api/common.py:10-20 | deleting with the lookup just saved undoes the save |
| Common.InsertKeepsUnique | backend/foodgram/users/models.py:39-43 | an insert the unique constraint lets through keeps every pair of stored rows free of a clash |
| Common.RelationTable.Save | backend/foodgram/api/common.py:14 | saving appends one row, unless a stored row clashes with it under the table's unique constraint (`IntegrityError`), and then nothing changes; the constraint is preserved |
| Common.RelationTable.DeleteMatching | backend/foodgram/api/common.py:19 | deleting removes every matching row and keeps the rest in order |
| Common.Code | backend/foodgram/api/common.py:17-20 | created is 201, no content 204, bad request 400 |
| Common.AddDelObjAction | backend/foodgram/api/common.py:6-20 | POST: a failed validation raises and saves nothing; a passed one saves one row and answers 201, or raises `IntegrityError` and saves nothing when the unique constraint refuses the row; any other method deletes every matching row and answers 204 whether or not one existed |
| Common.GetIsFieldAction | backend/foodgram/api/common.py:23-32 | no request, no `user` attribute or a falsy user gives False and leaves the data alone; otherwise the data gains the user's id (`NULL` for the anonymous user) and the answer is whether some row matches it |
| Common.AnonymousHasNothing | backend/foodgram/api/common.py:31-32 | the anonymous user's `NULL` id matches no row of a table whose rows all have a user |
| Common.IngredientRowsFor | backend/foodgram/api/common.py:39-46 | one ingredient row per entry |
| Common.TagRowsFor | backend/foodgram/api/common.py:49-52 | one tag row per value of `tags` |
| Common.IngredientRowsForEntries | backend/foodgram/api/common.py:39-46 | one ingredient row per entry, in order, with the recipe, the entry's ingredient id and amount |
| Common.TagRowsForTags | backend/foodgram/api/common.py:49-52 | one tag row per value of `tags`, in order, linked to the recipe |
| Common.ComposeAppendsIngredients | backend/foodgram/api/common.py:35-47 | composing appends the new rows after the recipe's old ones and leaves other recipes' rows alone |
| Common.ComposeAppendsTags | backend/foodgram/api/common.py:49-55 | the same for tag rows |
| Common.RecipeJoins.CreateUpdateInstanceRecipe | backend/foodgram/api/common.py:35-55 | the store refuses the ingredient insert exactly when a built row has a dangling key or an amount out of range, and then nothing changes; otherwise the ingredient rows are appended, and the tag rows too unless one of them dangles, in which case the ingredient rows stay |
| Common.ComposedRowsValid | backend/foodgram/recipes/models.py:35-43 | appending built rows the store accepts keeps the store's rows valid |
| Views.UserQueryset | backend/foodgram/api/views.py:20-25 | listing as non-staff keeps exactly the non-staff users; any other action or a staff caller sees the queryset unchanged |
| Views.ListingDiffersOnlyInStaff | backend/foodgram/api/views.py:20-25 | a staff caller lists every user, others exactly the non-staff ones |
| Views.PairFor | backend/foodgram/api/views.py:36-40 | the pair holds exactly the caller's own id as `user` and the path id as the target |
| Views.PairLookup | backend/foodgram/api/views.py:48-51 | a row matches the lookup exactly when it links caller and target |
| Views.UniqueKeys | backend/foodgram/users/models.py:39-43 | the follow table is unique on `user` and `author`; the favorite and shopping tables have no unique constraint |
| Views.RefusedIffRepeatedSubscription | backend/foodgram/users/models.py:39-43 | saving is refused exactly when the pair is a subscription of a real user that is already stored |
| Views.RelationAction | backend/foodgram/api/views.py:33-55 | POST saves the pair (201), raises `IntegrityError` and stores nothing when the unique constraint refuses it, or answers 400 when the serializer does; otherwise an existing match is deleted (204) or the table stays unchanged (400); favorite and shopping cart, at lines 87-109 and 137-159, have the same shape |
| Views.DeleteTwice | backend/foodgram/api/views.py:101-109 | deleting twice answers 204 then 400 |
| Views.AddThenRemove | backend/foodgram/api/views.py:33-55 | adding then removing answers 201, or raises for a subscription already stored, then 204, and leaves the other rows as they were |
| ShoppingCart.AggregateKeys | backend/foodgram/api/views.py:123-128 | the dictionary has exactly one key per distinct ingredient name |
| ShoppingCart.Step | backend/foodgram/api/views.py:123-131 | one turn records the row's name; a known name keeps its unit; a new name gets the row's unit and twice its amount |
| ShoppingCart.StepLeavesOthers | backend/foodgram/api/views.py:123-131 | one turn adds at most the row's name and changes no other entry |
| ShoppingCart.Aggregate | backend/foodgram/api/views.py:120-131 | folding the rows in order leaves the last row's name in the dictionary |
| ShoppingCart.AggregateEntry | backend/foodgram/api/views.py:123-131 | a name's entry has the unit of its first row and, as amount, the sum over its rows plus the first row's amount |
| ShoppingCart.UnitFixedByFirstRow | backend/foodgram/api/views.py:123-128 | later rows never change the unit recorded for a name |
| ShoppingCart.SortedDistinct | backend/foodgram/api/views.py:133 | sorted names are distinct: one line per name |
| ShoppingCart.Least | backend/foodgram/api/views.py:133 | the least name of a set |
| ShoppingCart.SortNames | backend/foodgram/api/views.py:133 | `sorted` yields the keys, each once, in ascending order |
| ShoppingCart.RenderStartsWithFirstLine | backend/foodgram/api/views.py:133-134 | a non-empty body starts with the first name's line: no header |
| ShoppingCart.RenderLine | backend/foodgram/api/views.py:134 | a line opens with the capitalized name and ends with `;` and a newline |
| ShoppingCart.RenderLineAmountReadsBack | backend/foodgram/api/views.py:134 | the text between a line's last `) - ` and its closing `;` and newline is a decimal numeral that reads back as the entry's amount |
| ShoppingCart.Render | backend/foodgram/api/views.py:133-134 | the body is empty exactly when there are no names |
| ShoppingCart.BodyEmptyIffNoEntries | backend/foodgram/api/views.py:118-134 | the body is empty exactly when the dictionary is |
| ShoppingCart.DownloadShoppingCart | backend/foodgram/api/views.py:111-135 | the dictionary is the fold of all cart rows, the names are its keys in ascending order, and the body is their lines in that order |
| ShoppingCart.FirstRowCountedTwice | backend/foodgram/api/views.py:129-131 | 200 g and 50 g of sugar are exported as 450 g where the rows sum to 250 g |
| ShoppingCart.IntendedAggregateSums | backend/foodgram/api/views.py:129-131 | with the intended step each name's amount is the sum of its rows |
| ShoppingCart.AggregateOvercounts | backend/foodgram/api/views.py:129-131 | the written fold exceeds the intended one by exactly the first row's amount |

## Left out

- HTTP plumbing is not modelled: response objects, headers, the content type and the file name of the export, and URL routing. Statuses are a small datatype.
- The ORM is not modelled: a table is a sequence of rows, and a query's row order is whatever order the model is given. This covers querysets, `bulk_create`, `in_bulk` and lazy evaluation.
- Transactions and concurrent requests are not modelled. The store's unique and foreign-key checks are sequential functions. The project settings are not part of this model: if they wrapped each request in a transaction, a refused tag insert in `create_update_instance_recipe` would also undo the ingredient rows that the model keeps.
- Serializer validation (`FavoriteSerializer`, `SubscribeSerializer`, `ShoppingCartSerializer`) is not part of this model. `is_valid` is a parameter that sees the table and the data.
- Common.AddDelObjAction: the row saved holds exactly the data passed; fields a serializer might add on `save` are not modelled.
- Base64 decoding (section 4 of RFC 4648), `ContentFile` and the image validation in `super().to_internal_value` are left out. The decoder is a parameter.
- Text.Capitalize: upper- and lower-case mapping covers ASCII and the basic Cyrillic block only, not full Unicode case mapping.
- UsersModels.UserFieldsValid: the `\w` of Django's username validator is approximated by ASCII letters, digits, `_` and Cyrillic letters. Email syntax and password rules are not modelled.
- Filters.TagsFilter: the error names the first unknown slug, where the form reports every invalid choice.
- The mismatched names between revisions are not modelled. `views.py` imports `Favorite` and `ShoppingCart`, which `recipes/models.py` defines as `Favorites` and `ShoppingList`, and `user.shoppings` does not match `related_name='shopping'`. The cart is the user's shopping rows, whatever the name.
- `TagListField` (`in_bulk`) is left out. The `tags` passed to composition is the sequence of the mapping's values in iteration order.
- The CSV import commands and the admin registrations are left out: file I/O and framework configuration.
- ShoppingCart.DownloadShoppingCart: the ORM fetch of the cart is left out. The method receives, per shopping row, the ingredient rows of its recipe as (name, unit, amount).

## Findings

| source | as written | input that shows it | evidently intended | confidence | as-written member | corrected member |
|---|---|---|---|---|---|---|
| backend/foodgram/api/views.py:129-131 | a name's first row stores `get('amount', item.amount) + item.amount`, its own amount twice | one cart recipe with 200 g sugar and 50 g sugar: the export says 450 | each name's amount is the sum of its rows (250) | high; not executed | ShoppingCart.FirstRowCountedTwice | ShoppingCart.IntendedAggregateSums |

`ShoppingCart.DownloadShoppingCart` reproduces the code as written, because that is what the export produces. `ShoppingCart.IntendedAggregate` is the corrected fold. `ShoppingCart.AggregateOvercounts` states exactly how far apart the two are.
