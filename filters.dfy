/** The recipe and ingredient filter sets. A queryset is a sequence of rows;
    filtering keeps the rows that match, in order, so a result is always a
    sub-sequence of its input. */
module Filters {
  import opened Util
  import opened Text
  import opened RecipesModels

  /** Ids of the recipes `user` has favorited: `user.favorites.values_list('recipe')`. */
  function FavoriteRecipeIds(favorites: seq<Favorites>, user: int): set<int> {
    set f | f in favorites && f.user == user :: f.recipe
  }

  /** Ids of the recipes in `user`'s shopping cart. */
  function ShoppingRecipeIds(shopping: seq<ShoppingList>, user: int): set<int> {
    set s | s in shopping && s.user == user :: s.recipe
  }

  /** `RecipeFilters.get_filter_queryset`, shared by `is_favorited`
      (field `favorites`) and `is_in_shopping_cart` (any other field name). */
  function GetFilterQueryset(queryset: seq<Recipe>, fieldName: string, value: Option<bool>, user: int,
                             favorites: seq<Favorites>, shopping: seq<ShoppingList>): (r: seq<Recipe>)
    ensures value != Some(true) ==> r == queryset
    ensures value == Some(true) && fieldName == "favorites" ==>
      forall x :: x in r <==> x in queryset && exists f :: f in favorites && f.user == user && f.recipe == x.id
    ensures value == Some(true) && fieldName != "favorites" ==>
      forall x :: x in r <==> x in queryset && exists s :: s in shopping && s.user == user && s.recipe == x.id
    ensures forall x :: x in r ==> x in queryset
  {
    if value.None? || !value.value then queryset
    else
      var ids := if fieldName == "favorites" then FavoriteRecipeIds(favorites, user)
                 else ShoppingRecipeIds(shopping, user);
      Filter(queryset, (x: Recipe) => x.id in ids)
  }

  /** The `author` number filter on `author__id`; no value, no filtering. */
  function AuthorFilter(queryset: seq<Recipe>, author: Option<int>): (r: seq<Recipe>)
    ensures author.None? ==> r == queryset
    ensures author.Some? ==> forall x :: x in r <==> x in queryset && x.author == author.value
  {
    if author.None? then queryset else Filter(queryset, (x: Recipe) => x.author == author.value)
  }

  function TagSlugs(tags: seq<Tag>): set<string> {
    set t | t in tags :: t.slug
  }

  /** Ids of the recipes carrying at least one tag whose slug is listed. */
  function RecipesWithSlugs(slugs: seq<string>, tags: seq<Tag>, tagRecipes: seq<TagRecipe>): set<int> {
    var tagIds := set t | t in tags && t.slug in slugs :: t.id;
    set x | x in tagRecipes && x.tag in tagIds :: x.recipe
  }

  datatype FilterError = InvalidChoice(slug: string)

  /** The `tags` multiple-choice filter on `tag__slug`: every listed slug
      must name a tag, and a recipe matches when any one of its tags does. */
  function TagsFilter(queryset: seq<Recipe>, slugs: seq<string>, tags: seq<Tag>, tagRecipes: seq<TagRecipe>)
    : (r: Result<seq<Recipe>, FilterError>)
    ensures r.Err? <==> exists s :: s in slugs && s !in TagSlugs(tags)
    ensures r.Ok? && slugs == [] ==> r.value == queryset
    ensures r.Ok? && slugs != [] ==> forall x :: x in r.value <==> (x in queryset &&
      exists tr, t :: tr in tagRecipes && t in tags && tr.recipe == x.id && tr.tag == t.id && t.slug in slugs)
  {
    var unknown := Filter(slugs, (s: string) => s !in TagSlugs(tags));
    if unknown != [] then
      assert unknown[0] in unknown;
      Err(InvalidChoice(unknown[0]))
    else if slugs == [] then
      Ok(queryset)
    else
      var ids := RecipesWithSlugs(slugs, tags, tagRecipes);
      Ok(Filter(queryset, (x: Recipe) => x.id in ids))
  }

  /** What a recipe query may carry. */
  datatype RecipeQuery = RecipeQuery(tags: seq<string>, author: Option<int>,
                                     isFavorited: Option<bool>, isInShoppingCart: Option<bool>)

  /** `RecipeAnonymousFilters`: only the tags of the query count. */
  function AnonymousFilter(queryset: seq<Recipe>, q: RecipeQuery, db: Db): (r: Result<seq<Recipe>, FilterError>)
    ensures r.Ok? ==> forall x :: x in r.value ==> x in queryset
  {
    TagsFilter(queryset, q.tags, db.tags, db.tagRecipes)
  }

  /** `RecipeFilters` for the caller `user`: tags, then the two flags, then the author. */
  function RecipeFilter(queryset: seq<Recipe>, q: RecipeQuery, user: int, db: Db): (r: Result<seq<Recipe>, FilterError>)
    ensures r.Err? <==> AnonymousFilter(queryset, q, db).Err?
    ensures r.Ok? ==> forall x :: x in r.value <==>
      && x in AnonymousFilter(queryset, q, db).value
      && (q.isFavorited == Some(true) ==> x.id in FavoriteRecipeIds(db.favorites, user))
      && (q.isInShoppingCart == Some(true) ==> x.id in ShoppingRecipeIds(db.shopping, user))
      && (q.author.Some? ==> x.author == q.author.value)
  {
    match TagsFilter(queryset, q.tags, db.tags, db.tagRecipes)
    case Err(e) => Err(e)
    case Ok(tagged) =>
      var favored := GetFilterQueryset(tagged, "favorites", q.isFavorited, user, db.favorites, db.shopping);
      var carted := GetFilterQueryset(favored, "shoppings", q.isInShoppingCart, user, db.favorites, db.shopping);
      Ok(AuthorFilter(carted, q.author))
  }

  /** The anonymous filter set ignores the author and both flags. */
  lemma AnonymousIgnoresCallerFields(queryset: seq<Recipe>, q: RecipeQuery, db: Db)
    ensures AnonymousFilter(queryset, q, db)
         == AnonymousFilter(queryset, RecipeQuery(q.tags, None, None, None), db)
  {
  }

  /** The `name` filter of `IngredientFilter`: case-insensitive prefix. */
  function IngredientNameFilter(ingredients: seq<Ingredient>, prefix: string): (r: seq<Ingredient>)
    ensures forall x :: x in r <==> x in ingredients && IStartsWith(x.name, prefix)
  {
    if prefix == "" then
      assert forall x: Ingredient :: IStartsWith(x.name, "");
      ingredients
    else Filter(ingredients, (x: Ingredient) => IStartsWith(x.name, prefix))
  }

  /** The `measurement_unit` filter of `IngredientFilter`: exact match. */
  function MeasurementUnitFilter(ingredients: seq<Ingredient>, unit: string): (r: seq<Ingredient>)
    ensures forall x :: x in r <==> x in ingredients && (unit == "" || x.measurementUnit == unit)
  {
    if unit == "" then ingredients else Filter(ingredients, (x: Ingredient) => x.measurementUnit == unit)
  }

  /** Lower-casing the search text does not change what the name filter finds. */
  lemma NameFilterIgnoresCase(ingredients: seq<Ingredient>, prefix: string)
    ensures forall x :: x in IngredientNameFilter(ingredients, prefix) <==>
                        x in IngredientNameFilter(ingredients, LowerAll(prefix))
  {
    var lowered := LowerAll(prefix);
    forall i | 0 <= i < |prefix| ensures LowerAll(lowered)[i] == LowerAll(prefix)[i] {
      CaseMappingsIdempotent(prefix[i]);
    }
    assert LowerAll(lowered) == LowerAll(prefix);
  }
}
