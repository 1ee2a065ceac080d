/** The helpers the views share: saving or deleting a relation row, asking
    whether the caller has one, and writing the join rows of a recipe. The
    relation tables (favorites, shopping list, follows) are handled through
    `filter(**data)` lookups, so a row is modelled as a map from field names
    to values and a lookup as a partial match on it. */
module Common {
  import opened Util
  import opened RecipesModels
  import opened Permissions

  /** A field value: a row id, or SQL `NULL` (what `request.user.id` is for
      the anonymous user). */
  datatype Value = Id(n: int) | Null

  type Row = map<string, Value>

  /** `filter(**data)`: every field named in `data` holds the given value. */
  predicate Matches(row: Row, data: Row) {
    forall k :: k in data ==> k in row && row[k] == data[k]
  }

  /** Some row of the table matches the lookup (`filter(**data).exists()`). */
  predicate AnyMatch(rows: seq<Row>, data: Row) {
    exists x :: x in rows && Matches(x, data)
  }

  /** The table after `filter(**data).delete()`. */
  function Without(rows: seq<Row>, data: Row): (r: seq<Row>)
    ensures forall x :: x in r <==> x in rows && !Matches(x, data)
    ensures |r| <= |rows|
    ensures forall x :: multiset(r)[x] == if Matches(x, data) then 0 else multiset(rows)[x]
  {
    var keep := (x: Row) => !Matches(x, data);
    FilterCounts(rows, keep);
    Filter(rows, keep)
  }

  /** Deleting twice deletes nothing more. */
  lemma {:induction false} WithoutIdempotent(rows: seq<Row>, data: Row)
    ensures Without(Without(rows, data), data) == Without(rows, data)
  {
    if rows != [] {
      var p := (x: Row) => !Matches(x, data);
      WithoutIdempotent(rows[1..], data);
      if p(rows[0]) {
        assert Without(rows, data) == [rows[0]] + Without(rows[1..], data);
        assert Without(rows, data)[1..] == Without(rows[1..], data);
      }
    }
  }

  /** Deleting with a lookup removes a row saved with those very fields, and
      leaves the rest of the table as deleting would have without the save. */
  lemma SaveThenDelete(rows: seq<Row>, data: Row)
    ensures Without(rows + [data], data) == Without(rows, data)
  {
    FilterAppend(rows, [data], (x: Row) => !Matches(x, data));
    assert Filter([data], (x: Row) => !Matches(x, data)) == [];
  }

  /** Two rows clash under a unique constraint over `keys` when both hold the
      same non-`NULL` value in every one of those columns (SQL never counts two
      `NULL`s as equal). An empty set of keys means no constraint. */
  predicate Clash(row: Row, other: Row, keys: set<string>) {
    && keys != {}
    && forall k :: k in keys ==> k in row && k in other && row[k] == other[k] && row[k].Id?
  }

  /** The database refuses to insert `row`: a stored row already clashes with it. */
  predicate Refuses(rows: seq<Row>, row: Row, keys: set<string>) {
    exists x :: x in rows && Clash(x, row, keys)
  }

  /** No two stored rows clash: the unique constraint holds. */
  predicate UniqueUnder(rows: seq<Row>, keys: set<string>) {
    forall i, j :: 0 <= i < j < |rows| ==> !Clash(rows[i], rows[j], keys)
  }

  /** An insert the database lets through keeps the unique constraint. */
  lemma InsertKeepsUnique(rows: seq<Row>, row: Row, keys: set<string>)
    requires UniqueUnder(rows, keys) && !Refuses(rows, row, keys)
    ensures UniqueUnder(rows + [row], keys)
  {
    var r := rows + [row];
    forall i, j | 0 <= i < j < |r| ensures !Clash(r[i], r[j], keys) {
      if j == |rows| {
        assert r[i] in rows;
      } else {
        assert r[i] == rows[i] && r[j] == rows[j];
      }
    }
  }

  /** A relation table whose rows the views save and delete in place;
      `uniqueKeys` are the columns of its unique constraint, if it has one. */
  class RelationTable {
    var rows: seq<Row>
    const uniqueKeys: set<string>

    constructor (initial: seq<Row>, keys: set<string>)
      ensures rows == initial && uniqueKeys == keys
    {
      rows := initial;
      uniqueKeys := keys;
    }

    predicate HasMatch(data: Row)
      reads this
    {
      AnyMatch(rows, data)
    }

    /** `serializer.save()` on validated data: one new row, unless the
        database refuses it under the unique constraint (`IntegrityError`),
        and then nothing changes. */
    method Save(row: Row) returns (saved: bool)
      modifies this
      ensures saved <==> !Refuses(old(rows), row, uniqueKeys)
      ensures rows == if saved then old(rows) + [row] else old(rows)
      ensures old(UniqueUnder(rows, uniqueKeys)) ==> UniqueUnder(rows, uniqueKeys)
    {
      if Refuses(rows, row, uniqueKeys) {
        return false;
      }
      if UniqueUnder(rows, uniqueKeys) {
        InsertKeepsUnique(rows, row, uniqueKeys);
      }
      rows := rows + [row];
      return true;
    }

    /** `filter(**data).delete()`: every matching row goes, the others stay in order. */
    method DeleteMatching(data: Row)
      modifies this
      ensures rows == Without(old(rows), data)
      ensures !HasMatch(data)
    {
      rows := Without(rows, data);
    }
  }

  /** The response statuses the helpers and views return. */
  datatype Status = Created | NoContent | BadRequest

  /** The HTTP status sent: 201, 204 or 400. */
  function Code(s: Status): (code: int)
    ensures code == 201 <==> s == Created
    ensures code == 204 <==> s == NoContent
    ensures code == 400 <==> s == BadRequest
  {
    match s
    case Created => 201
    case NoContent => 204
    case BadRequest => 400
  }

  /** A response, the validation error `is_valid(raise_exception=True)`
      raises, or the `IntegrityError` a refused insert raises out of `save()`. */
  datatype Outcome = Responded(status: Status) | ValidationRaised | IntegrityErrorRaised

  /** `add_del_obj_action`. The serializer's `is_valid` is a parameter that
      sees the table and the data; on success the row saved holds `data`,
      unless the table's unique constraint refuses it. */
  method AddDelObjAction(verb: string, table: RelationTable, isValid: (seq<Row>, Row) -> bool, data: Row)
    returns (r: Outcome)
    modifies table
    ensures verb == "POST" && isValid(old(table.rows), data) && !Refuses(old(table.rows), data, table.uniqueKeys) ==>
      r == Responded(Created) && table.rows == old(table.rows) + [data]
    ensures verb == "POST" && isValid(old(table.rows), data) && Refuses(old(table.rows), data, table.uniqueKeys) ==>
      r == IntegrityErrorRaised && table.rows == old(table.rows)
    ensures verb == "POST" && !isValid(old(table.rows), data) ==>
      r == ValidationRaised && table.rows == old(table.rows)
    ensures verb != "POST" ==>
      r == Responded(NoContent) && table.rows == Without(old(table.rows), data) && !table.HasMatch(data)
  {
    if verb == "POST" {
      if !isValid(table.rows, data) {
        return ValidationRaised;
      }
      var saved := table.Save(data);
      if !saved {
        return IntegrityErrorRaised;
      }
      return Responded(Created);
    }
    table.DeleteMatching(data);
    return Responded(NoContent);
  }

  /** `request.user` as `get_is_field_action` reads it: the request may lack
      the attribute, hold a falsy value, or hold a user (the anonymous user
      included, which is truthy). */
  datatype UserAttribute = NoUserAttribute | FalsyUser | User(user: RequestUser)

  /** `user.id` as a lookup value: the anonymous user's `None` is `NULL`. */
  function UserIdValue(id: Option<int>): Value {
    if id.None? then Null else Id(id.value)
  }

  /** `get_is_field_action`. The caller's `data` dict is updated in place
      with the user's id; `updated` is that dict afterwards. */
  method GetIsFieldAction(request: Option<UserAttribute>, table: RelationTable, data: Row)
    returns (found: bool, updated: Row)
    ensures request.None? || !request.value.User? ==> !found && updated == data
    ensures request.Some? && request.value.User? ==>
      updated == data["user" := UserIdValue(request.value.user.id)]
      && (found <==> exists x :: x in table.rows && Matches(x, updated))
  {
    var attribute: UserAttribute := FalsyUser;
    if request.Some? && request.value != NoUserAttribute {
      attribute := request.value;
    }
    if !attribute.User? {
      return false, data;
    }
    updated := data["user" := UserIdValue(attribute.user.id)];
    found := table.HasMatch(updated);
  }

  /** The anonymous user's id is `NULL`, and a table with no `NULL` user
      holds nothing for it, whatever else the lookup asks. */
  lemma AnonymousHasNothing(rows: seq<Row>, data: Row)
    requires forall x :: x in rows ==> "user" in x && x["user"] != Null
    ensures !AnyMatch(rows, data["user" := Null])
  {
    var d := data["user" := Null];
    forall x | x in rows ensures !Matches(x, d) {
      assert "user" in d && d["user"] == Null;
    }
  }

  /** One ingredient entry of a validated recipe: `data['ingredient']['id']`
      and `data['amount']`. */
  datatype IngredientEntry = IngredientEntry(ingredient: int, amount: int)

  /** The join rows built for `recipe` from its ingredient entries, one per entry, in order. */
  function IngredientRowsFor(recipe: int, ingredients: seq<IngredientEntry>): (rows: seq<IngredientRecipe>)
    ensures |rows| == |ingredients|
  {
    if ingredients == [] then []
    else
      var last := ingredients[|ingredients| - 1];
      IngredientRowsFor(recipe, ingredients[..|ingredients| - 1])
        + [IngredientRecipe(last.ingredient, recipe, last.amount)]
  }

  /** The join rows built for `recipe` from the values of the `tags` mapping, in order. */
  function TagRowsFor(recipe: int, tags: seq<int>): (rows: seq<TagRecipe>)
    ensures |rows| == |tags|
  {
    if tags == [] then []
    else TagRowsFor(recipe, tags[..|tags| - 1]) + [TagRecipe(tags[|tags| - 1], recipe)]
  }

  /** Each built ingredient row carries the recipe and its entry's ingredient and amount. */
  lemma {:induction false} IngredientRowsForEntries(recipe: int, ingredients: seq<IngredientEntry>)
    ensures forall i :: 0 <= i < |ingredients| ==>
      IngredientRowsFor(recipe, ingredients)[i]
        == IngredientRecipe(ingredients[i].ingredient, recipe, ingredients[i].amount)
  {
    if ingredients != [] {
      var front := ingredients[..|ingredients| - 1];
      IngredientRowsForEntries(recipe, front);
      forall i | 0 <= i < |front| ensures front[i] == ingredients[i] { }
    }
  }

  /** Each built tag row links the recipe to the tag at the same position. */
  lemma {:induction false} TagRowsForTags(recipe: int, tags: seq<int>)
    ensures forall i :: 0 <= i < |tags| ==> TagRowsFor(recipe, tags)[i] == TagRecipe(tags[i], recipe)
  {
    if tags != [] {
      var front := tags[..|tags| - 1];
      TagRowsForTags(recipe, front);
      forall i | 0 <= i < |front| ensures front[i] == tags[i] { }
    }
  }

  /** The ingredient rows of one recipe. */
  function IngredientRowsOf(rows: seq<IngredientRecipe>, recipe: int): (r: seq<IngredientRecipe>)
    ensures forall x :: x in r <==> x in rows && x.recipe == recipe
  {
    Filter(rows, (x: IngredientRecipe) => x.recipe == recipe)
  }

  /** The tag rows of one recipe. */
  function TagRowsOf(rows: seq<TagRecipe>, recipe: int): (r: seq<TagRecipe>)
    ensures forall x :: x in r <==> x in rows && x.recipe == recipe
  {
    Filter(rows, (x: TagRecipe) => x.recipe == recipe)
  }

  lemma {:induction false} FilterAll<T(!new)>(s: seq<T>, p: T -> bool)
    requires forall x :: x in s ==> p(x)
    ensures Filter(s, p) == s
  {
    if s != [] {
      FilterAll(s[1..], p);
    }
  }

  lemma {:induction false} FilterNone<T(!new)>(s: seq<T>, p: T -> bool)
    requires forall x :: x in s ==> !p(x)
    ensures Filter(s, p) == []
  {
    if s != [] {
      FilterNone(s[1..], p);
    }
  }

  /** Composing only appends: the recipe's ingredient rows are the ones it
      had, in order, followed by one per entry; every other recipe's rows are
      untouched. Nothing is deleted or merged. */
  lemma ComposeAppendsIngredients(rows: seq<IngredientRecipe>, recipe: int, ingredients: seq<IngredientEntry>, other: int)
    requires other != recipe
    ensures IngredientRowsOf(rows + IngredientRowsFor(recipe, ingredients), recipe)
         == IngredientRowsOf(rows, recipe) + IngredientRowsFor(recipe, ingredients)
    ensures IngredientRowsOf(rows + IngredientRowsFor(recipe, ingredients), other) == IngredientRowsOf(rows, other)
  {
    var added := IngredientRowsFor(recipe, ingredients);
    IngredientRowsForEntries(recipe, ingredients);
    FilterAppend(rows, added, (x: IngredientRecipe) => x.recipe == recipe);
    FilterAll(added, (x: IngredientRecipe) => x.recipe == recipe);
    FilterAppend(rows, added, (x: IngredientRecipe) => x.recipe == other);
    FilterNone(added, (x: IngredientRecipe) => x.recipe == other);
  }

  /** The same for the tag rows. */
  lemma ComposeAppendsTags(rows: seq<TagRecipe>, recipe: int, tags: seq<int>, other: int)
    requires other != recipe
    ensures TagRowsOf(rows + TagRowsFor(recipe, tags), recipe) == TagRowsOf(rows, recipe) + TagRowsFor(recipe, tags)
    ensures TagRowsOf(rows + TagRowsFor(recipe, tags), other) == TagRowsOf(rows, other)
  {
    var added := TagRowsFor(recipe, tags);
    TagRowsForTags(recipe, tags);
    FilterAppend(rows, added, (x: TagRecipe) => x.recipe == recipe);
    FilterAll(added, (x: TagRecipe) => x.recipe == recipe);
    FilterAppend(rows, added, (x: TagRecipe) => x.recipe == other);
    FilterNone(added, (x: TagRecipe) => x.recipe == other);
  }

  /** Every built ingredient row is one the store accepts. */
  predicate IngredientRowsAccepted(rows: seq<IngredientRecipe>, ingredientIds: set<int>, recipeIds: set<int>) {
    forall x :: x in rows ==> IngredientRecipeAccepted(x, ingredientIds, recipeIds)
  }

  /** Every built tag row is one the store accepts. */
  predicate TagRowsAccepted(rows: seq<TagRecipe>, tagIds: set<int>, recipeIds: set<int>) {
    forall x :: x in rows ==> TagRecipeAccepted(x, tagIds, recipeIds)
  }

  /** Appending the built rows to a valid store keeps it valid when the
      store accepts each of them. */
  lemma ComposedRowsValid(db: Db, recipe: int, ingredients: seq<IngredientEntry>, tags: seq<int>)
    requires RowsValid(db)
    requires IngredientRowsAccepted(IngredientRowsFor(recipe, ingredients), IngredientIds(db.ingredients), RecipeIds(db.recipes))
    requires TagRowsAccepted(TagRowsFor(recipe, tags), TagIds(db.tags), RecipeIds(db.recipes))
    ensures RowsValid(db.(ingredientRecipes := db.ingredientRecipes + IngredientRowsFor(recipe, ingredients),
                          tagRecipes := db.tagRecipes + TagRowsFor(recipe, tags)))
  {
  }

  /** Which bulk insert the store refused, if any. */
  datatype ComposeOutcome = Composed | IngredientInsertRefused | TagInsertRefused

  /** The two join tables `create_update_instance_recipe` writes to. */
  class RecipeJoins {
    var ingredientRows: seq<IngredientRecipe>
    var tagRows: seq<TagRecipe>

    constructor (ingredientRows0: seq<IngredientRecipe>, tagRows0: seq<TagRecipe>)
      ensures ingredientRows == ingredientRows0 && tagRows == tagRows0
    {
      ingredientRows := ingredientRows0;
      tagRows := tagRows0;
    }

    /** `create_update_instance_recipe`: build one ingredient row per entry
        and bulk-insert them, then one tag row per value of `tags` and
        bulk-insert those. `tags` lists the mapping's values in iteration
        order; `ingredientIds`, `tagIds` and `recipeIds` are the ids the store
        holds. The store refuses a bulk insert holding a row with a dangling
        foreign key or an amount outside its column, and the error
        propagates; the ingredient rows already inserted stay, since nothing
        wraps the two inserts in a transaction. */
    method CreateUpdateInstanceRecipe(recipe: int, ingredients: seq<IngredientEntry>, tags: seq<int>,
                                      ingredientIds: set<int>, tagIds: set<int>, recipeIds: set<int>)
      returns (outcome: ComposeOutcome)
      modifies this
      ensures var built := IngredientRowsFor(recipe, ingredients);
        && (outcome == IngredientInsertRefused <==> !IngredientRowsAccepted(built, ingredientIds, recipeIds))
        && (outcome == IngredientInsertRefused ==> ingredientRows == old(ingredientRows))
        && (outcome != IngredientInsertRefused ==> ingredientRows == old(ingredientRows) + built)
      ensures var built := TagRowsFor(recipe, tags);
        && (outcome == TagInsertRefused <==>
              outcome != IngredientInsertRefused && !TagRowsAccepted(built, tagIds, recipeIds))
        && (outcome == Composed ==> tagRows == old(tagRows) + built)
        && (outcome != Composed ==> tagRows == old(tagRows))
    {
      var objTagRecipe: seq<TagRecipe> := [];
      var objIngredientRecipe: seq<IngredientRecipe> := [];

      for i := 0 to |ingredients|
        invariant objIngredientRecipe == IngredientRowsFor(recipe, ingredients[..i])
      {
        assert ingredients[..i + 1][..i] == ingredients[..i];
        objIngredientRecipe := objIngredientRecipe
          + [IngredientRecipe(ingredients[i].ingredient, recipe, ingredients[i].amount)];
      }
      assert ingredients[..|ingredients|] == ingredients;
      if !IngredientRowsAccepted(objIngredientRecipe, ingredientIds, recipeIds) {
        return IngredientInsertRefused;
      }
      ingredientRows := ingredientRows + objIngredientRecipe;

      for i := 0 to |tags|
        invariant objTagRecipe == TagRowsFor(recipe, tags[..i])
      {
        assert tags[..i + 1][..i] == tags[..i];
        objTagRecipe := objTagRecipe + [TagRecipe(tags[i], recipe)];
      }
      assert tags[..|tags|] == tags;
      if !TagRowsAccepted(objTagRecipe, tagIds, recipeIds) {
        return TagInsertRefused;
      }
      tagRows := tagRows + objTagRecipe;
      return Composed;
    }
  }
}
