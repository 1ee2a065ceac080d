/** The `recipes` app's models and the store they make up with the users
    app: field bounds, unique columns, foreign keys and what a delete
    cascades to. A table is a sequence of rows; join rows carry no identity
    of their own, so two equal join rows are two rows. */
module RecipesModels {
  import opened Util
  import opened UsersModels

  datatype Ingredient = Ingredient(id: int, name: string, measurementUnit: string)

  datatype Tag = Tag(id: int, name: string, color: seq<Byte>, slug: string)

  datatype Recipe = Recipe(id: int, author: int, name: string, image: string, text: string, cookingTime: int)

  datatype TagRecipe = TagRecipe(tag: int, recipe: int)

  datatype IngredientRecipe = IngredientRecipe(ingredient: int, recipe: int, amount: int)

  datatype Favorites = Favorites(user: int, recipe: int)

  datatype ShoppingList = ShoppingList(user: int, recipe: int)

  /** Largest value of an `IntegerField` and of a `PositiveSmallIntegerField`. */
  const MaxInteger := 2147483647
  const MaxSmallInteger := 32767

  predicate IngredientFieldsValid(i: Ingredient) {
    1 <= |i.name| <= 254 && 1 <= |i.measurementUnit| <= 128
  }

  /** Django's slug alphabet: ASCII letters, digits, `-` and `_`. */
  predicate SlugChar(c: char) {
    'a' <= c <= 'z' || 'A' <= c <= 'Z' || '0' <= c <= '9' || c == '-' || c == '_'
  }

  predicate TagFieldsValid(t: Tag) {
    && 1 <= |t.name| <= 200
    && |t.color| <= 7
    && 1 <= |t.slug| <= 200 && (forall i :: 0 <= i < |t.slug| ==> SlugChar(t.slug[i]))
  }

  /** `cooking_time` carries `MinValueValidator(1)`; the image path is a
      `FileField` path of at most 100 characters. */
  predicate RecipeFieldsValid(r: Recipe) {
    && 1 <= |r.name| <= 200
    && 1 <= |r.image| <= 100
    && 1 <= |r.text| <= 512
    && 1 <= r.cookingTime <= MaxInteger
  }

  /** `amount` is a `PositiveSmallIntegerField` with no validator of its own: zero is admitted. */
  predicate AmountValid(amount: int) {
    0 <= amount <= MaxSmallInteger
  }

  datatype Db = Db(
    users: seq<CustomUser>,
    follows: seq<Follow>,
    ingredients: seq<Ingredient>,
    tags: seq<Tag>,
    recipes: seq<Recipe>,
    tagRecipes: seq<TagRecipe>,
    ingredientRecipes: seq<IngredientRecipe>,
    favorites: seq<Favorites>,
    shopping: seq<ShoppingList>)

  function RecipeIds(recipes: seq<Recipe>): set<int> {
    set r | r in recipes :: r.id
  }

  function IngredientIds(ingredients: seq<Ingredient>): set<int> {
    set i | i in ingredients :: i.id
  }

  function TagIds(tags: seq<Tag>): set<int> {
    set t | t in tags :: t.id
  }

  /** `Ingredient.name` is indexed, not unique: only the id is a key. */
  ghost predicate IngredientsValid(ingredients: seq<Ingredient>) {
    && (forall i :: i in ingredients ==> IngredientFieldsValid(i))
    && UniqueBy(ingredients, (i: Ingredient) => i.id)
  }

  /** `Tag.name`, `Tag.color` and `Tag.slug` are each unique. */
  ghost predicate TagsValid(tags: seq<Tag>) {
    && (forall t :: t in tags ==> TagFieldsValid(t))
    && UniqueBy(tags, (t: Tag) => t.id)
    && UniqueBy(tags, (t: Tag) => t.name)
    && UniqueBy(tags, (t: Tag) => t.color)
    && UniqueBy(tags, (t: Tag) => t.slug)
  }

  ghost predicate RecipesValid(users: seq<CustomUser>, recipes: seq<Recipe>) {
    && (forall r :: r in recipes ==> RecipeFieldsValid(r) && r.author in UserIds(users))
    && UniqueBy(recipes, (r: Recipe) => r.id)
  }

  /** A tag row the store accepts: both foreign keys resolve. */
  predicate TagRecipeAccepted(x: TagRecipe, tagIds: set<int>, recipeIds: set<int>) {
    x.tag in tagIds && x.recipe in recipeIds
  }

  /** An ingredient row the store accepts: both foreign keys resolve and the
      amount fits its column. */
  predicate IngredientRecipeAccepted(x: IngredientRecipe, ingredientIds: set<int>, recipeIds: set<int>) {
    x.ingredient in ingredientIds && x.recipe in recipeIds && AmountValid(x.amount)
  }

  /** Join and relation rows: every reference resolves and amounts fit.
      No pair is unique: (tag, recipe), (ingredient, recipe) and
      (user, recipe) may repeat. */
  ghost predicate RowsValid(db: Db) {
    && (forall x :: x in db.tagRecipes ==> TagRecipeAccepted(x, TagIds(db.tags), RecipeIds(db.recipes)))
    && (forall x :: x in db.ingredientRecipes ==>
          IngredientRecipeAccepted(x, IngredientIds(db.ingredients), RecipeIds(db.recipes)))
    && (forall x :: x in db.favorites ==> x.user in UserIds(db.users) && x.recipe in RecipeIds(db.recipes))
    && (forall x :: x in db.shopping ==> x.user in UserIds(db.users) && x.recipe in RecipeIds(db.recipes))
  }

  ghost predicate Valid(db: Db) {
    && UsersValid(db.users)
    && FollowsValid(db.users, db.follows)
    && IngredientsValid(db.ingredients)
    && TagsValid(db.tags)
    && RecipesValid(db.users, db.recipes)
    && RowsValid(db)
  }

  /** Deleting a recipe: its tag, ingredient, favorite and shopping rows go with it. */
  function DeleteRecipe(db: Db, rid: int): (r: Db)
    ensures forall x :: x in r.recipes <==> x in db.recipes && x.id != rid
    ensures forall x :: x in r.tagRecipes <==> x in db.tagRecipes && x.recipe != rid
    ensures forall x :: x in r.ingredientRecipes <==> x in db.ingredientRecipes && x.recipe != rid
    ensures forall x :: x in r.favorites <==> x in db.favorites && x.recipe != rid
    ensures forall x :: x in r.shopping <==> x in db.shopping && x.recipe != rid
    ensures r.users == db.users && r.follows == db.follows
    ensures r.ingredients == db.ingredients && r.tags == db.tags
    // Each surviving row keeps its multiplicity: nothing else is deleted.
    ensures forall x :: multiset(r.recipes)[x] == if x.id != rid then multiset(db.recipes)[x] else 0
    ensures forall x :: multiset(r.tagRecipes)[x] == if x.recipe != rid then multiset(db.tagRecipes)[x] else 0
    ensures forall x :: (multiset(r.ingredientRecipes)[x] ==
      if x.recipe != rid then multiset(db.ingredientRecipes)[x] else 0)
    ensures forall x :: multiset(r.favorites)[x] == if x.recipe != rid then multiset(db.favorites)[x] else 0
    ensures forall x :: multiset(r.shopping)[x] == if x.recipe != rid then multiset(db.shopping)[x] else 0
  {
    var keepRecipe := (x: Recipe) => x.id != rid;
    var keepTag := (x: TagRecipe) => x.recipe != rid;
    var keepIngredient := (x: IngredientRecipe) => x.recipe != rid;
    var keepFavorite := (x: Favorites) => x.recipe != rid;
    var keepShopping := (x: ShoppingList) => x.recipe != rid;
    FilterCounts(db.recipes, keepRecipe);
    FilterCounts(db.tagRecipes, keepTag);
    FilterCounts(db.ingredientRecipes, keepIngredient);
    FilterCounts(db.favorites, keepFavorite);
    FilterCounts(db.shopping, keepShopping);
    db.(recipes := Filter(db.recipes, keepRecipe),
        tagRecipes := Filter(db.tagRecipes, keepTag),
        ingredientRecipes := Filter(db.ingredientRecipes, keepIngredient),
        favorites := Filter(db.favorites, keepFavorite),
        shopping := Filter(db.shopping, keepShopping))
  }

  /** A recipe delete leaves no dangling row and keeps the store valid. */
  lemma DeleteRecipeKeepsValid(db: Db, rid: int)
    requires Valid(db)
    ensures Valid(DeleteRecipe(db, rid))
    ensures rid !in RecipeIds(DeleteRecipe(db, rid).recipes)
  {
    var r := DeleteRecipe(db, rid);
    FilterKeepsUnique(db.recipes, (x: Recipe) => x.id != rid, (x: Recipe) => x.id);
    forall id | id in RecipeIds(db.recipes) && id != rid ensures id in RecipeIds(r.recipes) {
      var x :| x in db.recipes && x.id == id;
      assert x in r.recipes;
    }
  }

  /** The ids of the recipes a user wrote. */
  function AuthoredBy(recipes: seq<Recipe>, uid: int): set<int> {
    set x | x in recipes && x.author == uid :: x.id
  }

  /** Deleting a user: their follow rows (either end), their recipes with
      everything hanging off those, and their own favorite and shopping rows. */
  function DeleteUser(db: Db, uid: int): (r: Db)
    ensures forall u :: u in r.users <==> u in db.users && u.id != uid
    ensures forall f :: f in r.follows <==> f in db.follows && f.user != uid && f.author != uid
    ensures forall x :: x in r.recipes <==> x in db.recipes && x.author != uid
    ensures forall x :: x in r.tagRecipes <==> x in db.tagRecipes && x.recipe !in AuthoredBy(db.recipes, uid)
    ensures forall x :: x in r.ingredientRecipes <==>
      x in db.ingredientRecipes && x.recipe !in AuthoredBy(db.recipes, uid)
    ensures forall x :: x in r.favorites <==>
      x in db.favorites && x.user != uid && x.recipe !in AuthoredBy(db.recipes, uid)
    ensures forall x :: x in r.shopping <==>
      x in db.shopping && x.user != uid && x.recipe !in AuthoredBy(db.recipes, uid)
    ensures r.ingredients == db.ingredients && r.tags == db.tags
    // Each surviving row keeps its multiplicity: nothing else is deleted.
    ensures forall u :: multiset(r.users)[u] == if u.id != uid then multiset(db.users)[u] else 0
    ensures forall f :: (multiset(r.follows)[f] ==
      if f.user != uid && f.author != uid then multiset(db.follows)[f] else 0)
    ensures forall x :: multiset(r.recipes)[x] == if x.author != uid then multiset(db.recipes)[x] else 0
    ensures forall x :: (multiset(r.tagRecipes)[x] ==
      if x.recipe !in AuthoredBy(db.recipes, uid) then multiset(db.tagRecipes)[x] else 0)
    ensures forall x :: (multiset(r.ingredientRecipes)[x] ==
      if x.recipe !in AuthoredBy(db.recipes, uid) then multiset(db.ingredientRecipes)[x] else 0)
    ensures forall x :: (multiset(r.favorites)[x] ==
      if x.user != uid && x.recipe !in AuthoredBy(db.recipes, uid) then multiset(db.favorites)[x] else 0)
    ensures forall x :: (multiset(r.shopping)[x] ==
      if x.user != uid && x.recipe !in AuthoredBy(db.recipes, uid) then multiset(db.shopping)[x] else 0)
  {
    var gone := AuthoredBy(db.recipes, uid);
    var keepUser := (u: CustomUser) => u.id != uid;
    var keepRecipe := (x: Recipe) => x.author != uid;
    var keepTag := (x: TagRecipe) => x.recipe !in gone;
    var keepIngredient := (x: IngredientRecipe) => x.recipe !in gone;
    var keepFavorite := (x: Favorites) => x.user != uid && x.recipe !in gone;
    var keepShopping := (x: ShoppingList) => x.user != uid && x.recipe !in gone;
    FilterCounts(db.users, keepUser);
    FilterCounts(db.recipes, keepRecipe);
    FilterCounts(db.tagRecipes, keepTag);
    FilterCounts(db.ingredientRecipes, keepIngredient);
    FilterCounts(db.favorites, keepFavorite);
    FilterCounts(db.shopping, keepShopping);
    db.(users := Filter(db.users, keepUser),
        follows := FollowsAfterUserDelete(db.follows, uid),
        recipes := Filter(db.recipes, keepRecipe),
        tagRecipes := Filter(db.tagRecipes, keepTag),
        ingredientRecipes := Filter(db.ingredientRecipes, keepIngredient),
        favorites := Filter(db.favorites, keepFavorite),
        shopping := Filter(db.shopping, keepShopping))
  }

  /** After a user delete every surviving user and recipe id is still there. */
  lemma DeleteUserKeepsIds(db: Db, uid: int)
    ensures forall id :: id in UserIds(db.users) && id != uid ==> id in UserIds(DeleteUser(db, uid).users)
    ensures forall id :: id in RecipeIds(db.recipes) && id !in AuthoredBy(db.recipes, uid) ==>
      id in RecipeIds(DeleteUser(db, uid).recipes)
  {
    var r := DeleteUser(db, uid);
    forall id | id in UserIds(db.users) && id != uid ensures id in UserIds(r.users) {
      var u :| u in db.users && u.id == id;
      assert u in r.users;
    }
    forall id | id in RecipeIds(db.recipes) && id !in AuthoredBy(db.recipes, uid) ensures id in RecipeIds(r.recipes) {
      var x :| x in db.recipes && x.id == id;
      assert x in r.recipes;
    }
  }

  /** A user delete leaves no dangling row and keeps the store valid. */
  lemma DeleteUserKeepsValid(db: Db, uid: int)
    requires Valid(db)
    ensures Valid(DeleteUser(db, uid))
    ensures uid !in UserIds(DeleteUser(db, uid).users)
  {
    UserDeleteKeepsFollowsValid(db.users, db.follows, uid);
    DeleteUserKeepsRecipesValid(db, uid);
    DeleteUserKeepsRowsValid(db, uid);
  }

  lemma DeleteUserKeepsRecipesValid(db: Db, uid: int)
    requires RecipesValid(db.users, db.recipes)
    ensures RecipesValid(DeleteUser(db, uid).users, DeleteUser(db, uid).recipes)
  {
    FilterKeepsUnique(db.recipes, (x: Recipe) => x.author != uid, (x: Recipe) => x.id);
    DeleteUserKeepsIds(db, uid);
  }

  lemma DeleteUserKeepsRowsValid(db: Db, uid: int)
    requires RowsValid(db)
    ensures RowsValid(DeleteUser(db, uid))
  {
    DeleteUserKeepsIds(db, uid);
  }

  /** Deleting an ingredient deletes the recipe rows that use it. */
  function DeleteIngredient(db: Db, iid: int): (r: Db)
    ensures forall x :: x in r.ingredients <==> x in db.ingredients && x.id != iid
    ensures forall x :: x in r.ingredientRecipes <==> x in db.ingredientRecipes && x.ingredient != iid
    ensures r.(ingredients := db.ingredients, ingredientRecipes := db.ingredientRecipes) == db
    ensures forall x :: multiset(r.ingredients)[x] == if x.id != iid then multiset(db.ingredients)[x] else 0
    ensures forall x :: (multiset(r.ingredientRecipes)[x] ==
      if x.ingredient != iid then multiset(db.ingredientRecipes)[x] else 0)
  {
    var keepIngredient := (x: Ingredient) => x.id != iid;
    var keepRow := (x: IngredientRecipe) => x.ingredient != iid;
    FilterCounts(db.ingredients, keepIngredient);
    FilterCounts(db.ingredientRecipes, keepRow);
    db.(ingredients := Filter(db.ingredients, keepIngredient),
        ingredientRecipes := Filter(db.ingredientRecipes, keepRow))
  }

  lemma DeleteIngredientKeepsValid(db: Db, iid: int)
    requires Valid(db)
    ensures Valid(DeleteIngredient(db, iid))
  {
    var r := DeleteIngredient(db, iid);
    FilterKeepsUnique(db.ingredients, (x: Ingredient) => x.id != iid, (x: Ingredient) => x.id);
    forall id | id in IngredientIds(db.ingredients) && id != iid ensures id in IngredientIds(r.ingredients) {
      var x :| x in db.ingredients && x.id == id;
      assert x in r.ingredients;
    }
  }

  /** Deleting a tag deletes the recipe rows that carry it. */
  function DeleteTag(db: Db, tid: int): (r: Db)
    ensures forall x :: x in r.tags <==> x in db.tags && x.id != tid
    ensures forall x :: x in r.tagRecipes <==> x in db.tagRecipes && x.tag != tid
    ensures r.(tags := db.tags, tagRecipes := db.tagRecipes) == db
    ensures forall x :: multiset(r.tags)[x] == if x.id != tid then multiset(db.tags)[x] else 0
    ensures forall x :: multiset(r.tagRecipes)[x] == if x.tag != tid then multiset(db.tagRecipes)[x] else 0
  {
    var keepTag := (x: Tag) => x.id != tid;
    var keepRow := (x: TagRecipe) => x.tag != tid;
    FilterCounts(db.tags, keepTag);
    FilterCounts(db.tagRecipes, keepRow);
    db.(tags := Filter(db.tags, keepTag),
        tagRecipes := Filter(db.tagRecipes, keepRow))
  }

  lemma DeleteTagKeepsValid(db: Db, tid: int)
    requires Valid(db)
    ensures Valid(DeleteTag(db, tid))
  {
    var r := DeleteTag(db, tid);
    var keep := (x: Tag) => x.id != tid;
    FilterKeepsUnique(db.tags, keep, (x: Tag) => x.id);
    FilterKeepsUnique(db.tags, keep, (x: Tag) => x.name);
    FilterKeepsUnique(db.tags, keep, (x: Tag) => x.color);
    FilterKeepsUnique(db.tags, keep, (x: Tag) => x.slug);
    forall id | id in TagIds(db.tags) && id != tid ensures id in TagIds(r.tags) {
      var x :| x in db.tags && x.id == id;
      assert x in r.tags;
    }
  }

  /** A small store used as a witness below. */
  function SampleDb(): Db {
    var row := IngredientRecipe(20, 10, 0);
    var fav := Favorites(1, 10);
    Db([CustomUser(1, "a@b.c", "cook", "Ann", "Lee", false)], [],
       [Ingredient(20, "salt", "g"), Ingredient(21, "salt", "kg")], [],
       [Recipe(10, 1, "Soup", "recipes_images/soup.png", "Boil.", 5)], [],
       [row, row], [fav, fav], [])
  }

  lemma SampleUsersValid()
    ensures UsersValid(SampleDb().users) && FollowsValid(SampleDb().users, SampleDb().follows)
  {
    var u := SampleDb().users[0];
    assert forall i :: 0 <= i < |u.username| ==> UsernameChar(u.username[i]);
    assert UserFieldsValid(u);
  }

  lemma SampleTablesValid()
    ensures IngredientsValid(SampleDb().ingredients) && TagsValid(SampleDb().tags)
    ensures RecipesValid(SampleDb().users, SampleDb().recipes)
  {
    var db := SampleDb();
    assert UserIds(db.users) == {1};
    assert RecipeFieldsValid(db.recipes[0]);
  }

  lemma SampleRowsValid()
    ensures RowsValid(SampleDb())
  {
    var db := SampleDb();
    assert UserIds(db.users) == {1};
    assert RecipeIds(db.recipes) == {10};
    assert IngredientIds(db.ingredients) == {20, 21};
  }

  /** What the schema does not forbid: two ingredients with one name, the
      same (ingredient, recipe) row twice, an amount of zero, and the same
      recipe favorited twice by one user. */
  lemma DuplicatesAdmissible()
    ensures exists db :: (Valid(db)
      && |db.ingredients| == 2 && db.ingredients[0].name == db.ingredients[1].name
      && |db.ingredientRecipes| == 2 && db.ingredientRecipes[0] == db.ingredientRecipes[1]
      && db.ingredientRecipes[0].amount == 0
      && |db.favorites| == 2 && db.favorites[0] == db.favorites[1])
  {
    SampleUsersValid();
    SampleTablesValid();
    SampleRowsValid();
    assert Valid(SampleDb());
  }
}
