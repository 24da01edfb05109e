/** The recipe tables (tags, ingredients, recipes, the ingredient-in-recipe
    join with its amount, favourites and cart rows), the whole store as one
    value, the bounds and unique constraints the schema declares, its
    foreign-key cascades and its default orderings. */
module RecipeModels {
  import opened Seqs
  import opened Ordering
  import opened Validators
  import opened UserModels

  type TagId = nat
  type IngredientId = nat
  type RecipeId = nat

  datatype Tag = Tag(id: TagId, name: string, color: string, slug: string)

  datatype Ingredient = Ingredient(id: IngredientId, name: string, measurementUnit: string)

  /** A recipe row together with its tag set (the many-to-many tag table
      keeps each (recipe, tag) pair once, so it is a set). */
  datatype Recipe = Recipe(
    id: RecipeId, name: string, text: string, author: UserId,
    image: string, cookingTime: int, tags: set<TagId>)

  /** One row of the ingredient-in-recipe join: `amount` of `ingredient`
      in `recipe`. No unique constraint: a recipe may list an ingredient twice. */
  datatype IngredientInRecipe = IngredientInRecipe(recipe: RecipeId, ingredient: IngredientId, amount: int)

  /** A row of the favourites table or of the shopping-cart table. */
  datatype UserRecipe = UserRecipe(user: UserId, recipe: RecipeId)

  const TagNameMaxLength := 200
  const TagColorMaxLength := 7
  const TagSlugMaxLength := 200
  const IngredientFieldMaxLength := 200
  const RecipeNameMaxLength := 200
  const RecipeTextMaxLength := 1000
  const MinCookingTime := 1
  const MaxCookingTime := 10000
  const MinAmount := 1
  const MaxAmount := 50000

  predicate ValidCookingTime(t: int)
  {
    MinCookingTime <= t <= MaxCookingTime
  }

  predicate ValidAmount(a: int)
  {
    MinAmount <= a <= MaxAmount
  }

  /** The whole store. `recipeSeq` is the recipe table's id sequence: the
      next id it hands out. */
  datatype Db = Db(
    users: seq<User>,
    follows: seq<Follow>,
    tags: seq<Tag>,
    ingredients: seq<Ingredient>,
    recipes: seq<Recipe>,
    ingredientRows: seq<IngredientInRecipe>,
    favorites: seq<UserRecipe>,
    carts: seq<UserRecipe>,
    recipeSeq: nat)

  function TagIds(tags: seq<Tag>): set<TagId>
  {
    set t | t in tags :: t.id
  }

  function IngredientIds(ingredients: seq<Ingredient>): set<IngredientId>
  {
    set i | i in ingredients :: i.id
  }

  function RecipeIds(recipes: seq<Recipe>): set<RecipeId>
  {
    set r | r in recipes :: r.id
  }

  /** Ids, names, colours and slugs are each unique across tags, and every
      non-blank slug passes the slug validator. */
  ghost predicate TagsWellFormed(tags: seq<Tag>)
  {
    && (forall i, j :: 0 <= i < j < |tags| ==>
          tags[i].id != tags[j].id && tags[i].name != tags[j].name &&
          tags[i].color != tags[j].color && tags[i].slug != tags[j].slug)
    && (forall t :: t in tags ==> t.slug == "" || SlugValidation(t.slug).Ok?)
  }

  ghost predicate IngredientIdsDistinct(ingredients: seq<Ingredient>)
  {
    forall i, j :: 0 <= i < j < |ingredients| ==> ingredients[i].id != ingredients[j].id
  }

  ghost predicate RecipeIdsDistinct(recipes: seq<Recipe>)
  {
    forall i, j :: 0 <= i < j < |recipes| ==> recipes[i].id != recipes[j].id
  }

  /** What the schema guarantees of a stored state: unique keys, every
      foreign key pointing at an existing row, the validated bounds, and the
      id sequence ahead of every recipe id. Duplicate join, favourite, cart
      and follow rows are NOT excluded: no constraint forbids them. */
  ghost predicate Consistent(db: Db)
  {
    && UsersUnique(db.users)
    && TagsWellFormed(db.tags)
    && IngredientIdsDistinct(db.ingredients)
    && RecipeIdsDistinct(db.recipes)
    && (forall f :: f in db.follows ==> f.user in UserIds(db.users) && f.author in UserIds(db.users))
    && (forall r :: r in db.recipes ==>
          r.author in UserIds(db.users) && r.tags <= TagIds(db.tags) &&
          ValidCookingTime(r.cookingTime) && r.id < db.recipeSeq)
    && (forall x :: x in db.ingredientRows ==>
          x.recipe in RecipeIds(db.recipes) && x.ingredient in IngredientIds(db.ingredients) &&
          ValidAmount(x.amount))
    && (forall p :: p in db.favorites ==> p.user in UserIds(db.users) && p.recipe in RecipeIds(db.recipes))
    && (forall p :: p in db.carts ==> p.user in UserIds(db.users) && p.recipe in RecipeIds(db.recipes))
  }

  /** The empty store is consistent. */
  lemma EmptyConsistent()
    ensures Consistent(Db([], [], [], [], [], [], [], [], 1))
  {
  }

  /** A store holding every pair twice: two equal join rows, favourites,
      cart rows and follows, the follow being a user following themself. */
  const DoubledStore := Db(
    [User(1, "cook@example.org", "cook", "Ann", "Cook")],
    [Follow(1, 1), Follow(1, 1)],
    [],
    [Ingredient(1, "соль", "г")],
    [Recipe(1, "Суп", "Варить", 1, "soup.png", 30, {})],
    [IngredientInRecipe(1, 1, 5), IngredientInRecipe(1, 1, 5)],
    [UserRecipe(1, 1), UserRecipe(1, 1)],
    [UserRecipe(1, 1), UserRecipe(1, 1)],
    2)

  /** No compound unique constraint exists on the join, favourite, cart or
      follow tables: a consistent store may hold the same pair twice, and a
      user following themself. */
  lemma DuplicatePairsAreStorable()
    ensures exists db :: (Consistent(db) && |db.ingredientRows| == 2 && db.ingredientRows[0] == db.ingredientRows[1]
      && |db.favorites| == 2 && db.favorites[0] == db.favorites[1]
      && |db.carts| == 2 && db.carts[0] == db.carts[1]
      && |db.follows| == 2 && db.follows[0] == db.follows[1] && db.follows[0].user == db.follows[0].author)
  {
    DoubledStoreConsistent();
    var db := DoubledStore;
    assert Consistent(db) && db.ingredientRows[0] == db.ingredientRows[1];
  }

  lemma DoubledStoreConsistent()
    ensures Consistent(DoubledStore)
  {
    var db := DoubledStore;
    assert 1 in UserIds(db.users) by { assert db.users[0] in db.users; }
    assert 1 in IngredientIds(db.ingredients) by { assert db.ingredients[0] in db.ingredients; }
    assert 1 in RecipeIds(db.recipes) by { assert db.recipes[0] in db.recipes; }
  }

  datatype TagError =
    | NameBlank | NameTooLong | ColorTooLong | SlugTooLong | SlugInvalid
    | NameTaken | ColorTaken | SlugTaken

  /** The field errors of a tag: a blank name is refused; a blank colour or
      slug is allowed and then not validated further; a non-blank slug must
      pass `slug_validation`. */
  function TagFieldErrors(t: Tag): (errs: set<TagError>)
    ensures NameBlank in errs <==> t.name == ""
    ensures NameTooLong in errs <==> t.name != "" && |t.name| > TagNameMaxLength
    ensures ColorTooLong in errs <==> |t.color| > TagColorMaxLength
    ensures SlugTooLong in errs <==> t.slug != "" && |t.slug| > TagSlugMaxLength
    ensures SlugInvalid in errs <==> t.slug != "" && SlugValidation(t.slug).Err?
    ensures errs !! {NameTaken, ColorTaken, SlugTaken}
    ensures t.slug == "" ==> SlugTooLong !in errs && SlugInvalid !in errs
  {
    (if t.name == "" then {NameBlank} else if |t.name| > TagNameMaxLength then {NameTooLong} else {})
    + (if |t.color| > TagColorMaxLength then {ColorTooLong} else {})
    + (if t.slug != "" && |t.slug| > TagSlugMaxLength then {SlugTooLong} else {})
    + (if t.slug != "" && SlugValidation(t.slug).Err? then {SlugInvalid} else {})
  }

  predicate NameUsed(tags: seq<Tag>, name: string) { exists u :: u in tags && u.name == name }
  predicate ColorUsed(tags: seq<Tag>, color: string) { exists u :: u in tags && u.color == color }
  predicate SlugUsed(tags: seq<Tag>, slug: string) { exists u :: u in tags && u.slug == slug }

  /** The unique checks, each skipped for a field that already failed. */
  function TagUniqueErrors(tags: seq<Tag>, t: Tag, field: set<TagError>): (errs: set<TagError>)
    ensures field == {} ==>
      (errs == {} <==> !NameUsed(tags, t.name) && !ColorUsed(tags, t.color) && !SlugUsed(tags, t.slug))
    ensures SlugTaken in errs ==> SlugTooLong !in field && SlugInvalid !in field
    ensures NameTaken in errs <==> NameBlank !in field && NameTooLong !in field && NameUsed(tags, t.name)
    ensures ColorTaken in errs <==> ColorTooLong !in field && ColorUsed(tags, t.color)
    ensures SlugTaken in errs <==> SlugTooLong !in field && SlugInvalid !in field && SlugUsed(tags, t.slug)
    ensures errs <= {NameTaken, ColorTaken, SlugTaken}
  {
    (if NameBlank !in field && NameTooLong !in field && NameUsed(tags, t.name) then {NameTaken} else {})
    + (if ColorTooLong !in field && ColorUsed(tags, t.color) then {ColorTaken} else {})
    + (if SlugTooLong !in field && SlugInvalid !in field && SlugUsed(tags, t.slug) then {SlugTaken} else {})
  }

  /** Validating and inserting a tag (`full_clean`, then the insert): field
      errors first; the unique checks then run for the fields that had no
      field error. */
  function InsertTag(tags: seq<Tag>, t: Tag): (r: Result<seq<Tag>, set<TagError>>)
    requires TagsWellFormed(tags)
    requires t.id !in TagIds(tags)
    ensures r.Ok? <==>
      TagFieldErrors(t) == {} && !NameUsed(tags, t.name) && !ColorUsed(tags, t.color) && !SlugUsed(tags, t.slug)
    ensures r.Ok? ==> r.value == tags + [t] && TagsWellFormed(r.value)
    ensures r.Err? ==> r.error != {} && (SlugTaken in r.error ==> SlugTooLong !in r.error && SlugInvalid !in r.error)
    ensures r.Err? ==> r.error == TagFieldErrors(t) + TagUniqueErrors(tags, t, TagFieldErrors(t))
  {
    var field := TagFieldErrors(t);
    var errs := field + TagUniqueErrors(tags, t, field);
    if errs == {} then
      InsertTagKeepsWellFormed(tags, t);
      Ok(tags + [t])
    else Err(errs)
  }

  lemma InsertTagKeepsWellFormed(tags: seq<Tag>, t: Tag)
    requires TagsWellFormed(tags)
    requires t.id !in TagIds(tags)
    requires TagFieldErrors(t) == {}
    requires !NameUsed(tags, t.name) && !ColorUsed(tags, t.color) && !SlugUsed(tags, t.slug)
    ensures TagsWellFormed(tags + [t])
  {
    var r := tags + [t];
    forall i, j | 0 <= i < j < |r|
      ensures r[i].id != r[j].id && r[i].name != r[j].name && r[i].color != r[j].color && r[i].slug != r[j].slug
    {
      if j == |tags| {
        assert r[i] in tags && r[j] == t;
      } else {
        assert r[i] == tags[i] && r[j] == tags[j];
      }
    }
  }

  function TagIdLe(a: Tag, b: Tag): bool { a.id <= b.id }

  function IngredientNameLe(a: Ingredient, b: Ingredient): bool { StrLe(a.name, b.name) }

  function RecipeNameLe(a: Recipe, b: Recipe): bool { StrLe(a.name, b.name) }

  lemma NameOrdersAreTotalPreorders()
    ensures TotalPreorder(IngredientNameLe) && TotalPreorder(RecipeNameLe)
  {
    forall a: string, b: string ensures StrLe(a, b) || StrLe(b, a) {
      StrLeTotal(a, b);
    }
    forall a: string, b: string, c: string | StrLe(a, b) && StrLe(b, c) ensures StrLe(a, c) {
      StrLeTrans(a, b, c);
    }
  }

  /** Tags in their default order, ascending by id. */
  function OrderedTags(tags: seq<Tag>): (r: seq<Tag>)
    ensures multiset(r) == multiset(tags)
    ensures forall i, j :: 0 <= i < j < |r| ==> r[i].id <= r[j].id
  {
    assert TotalPreorder(TagIdLe);
    Sort(tags, TagIdLe)
  }

  /** Ingredients in their default order, ascending by name. */
  function OrderedIngredients(ingredients: seq<Ingredient>): (r: seq<Ingredient>)
    ensures multiset(r) == multiset(ingredients)
    ensures forall i, j :: 0 <= i < j < |r| ==> StrLe(r[i].name, r[j].name)
  {
    NameOrdersAreTotalPreorders();
    Sort(ingredients, IngredientNameLe)
  }

  /** Recipes in their default order, ascending by name. */
  function OrderedRecipes(recipes: seq<Recipe>): (r: seq<Recipe>)
    ensures multiset(r) == multiset(recipes)
    ensures forall x :: x in r <==> x in recipes
    ensures Ordered(r, RecipeNameLe)
  {
    NameOrdersAreTotalPreorders();
    var r := Sort(recipes, RecipeNameLe);
    assert forall x :: x in r <==> x in multiset(r);
    r
  }

  /** Deleting a recipe: its join rows, favourite rows and cart rows go with
      it (each of those foreign keys cascades). Every other row stays, as
      many times as it was stored. */
  function DeleteRecipe(db: Db, id: RecipeId): (d: Db)
    ensures forall r :: r in d.recipes <==> r in db.recipes && r.id != id
    ensures forall x :: x in d.ingredientRows <==> x in db.ingredientRows && x.recipe != id
    ensures forall p :: p in d.favorites <==> p in db.favorites && p.recipe != id
    ensures forall p :: p in d.carts <==> p in db.carts && p.recipe != id
    ensures forall x :: multiset(d.ingredientRows)[x] == if x.recipe != id then multiset(db.ingredientRows)[x] else 0
    ensures forall p :: multiset(d.favorites)[p] == if p.recipe != id then multiset(db.favorites)[p] else 0
    ensures forall p :: multiset(d.carts)[p] == if p.recipe != id then multiset(db.carts)[p] else 0
    ensures d.users == db.users && d.follows == db.follows && d.tags == db.tags && d.ingredients == db.ingredients
    ensures d.recipeSeq == db.recipeSeq
  {
    var keepRow := (x: IngredientInRecipe) => x.recipe != id;
    var keepPair := (p: UserRecipe) => p.recipe != id;
    FilterCounts(db.ingredientRows, keepRow);
    FilterCounts(db.favorites, keepPair);
    FilterCounts(db.carts, keepPair);
    db.(recipes := Filter(db.recipes, (r: Recipe) => r.id != id),
        ingredientRows := Filter(db.ingredientRows, keepRow),
        favorites := Filter(db.favorites, keepPair),
        carts := Filter(db.carts, keepPair))
  }

  /** Deleting ingredient catalogue rows: every join row that names one of
      them goes, in whatever recipe it sits; every other join row stays, as
      many times as it was stored. */
  function DeleteIngredients(db: Db, ids: set<IngredientId>): (d: Db)
    ensures forall i :: i in d.ingredients <==> i in db.ingredients && i.id !in ids
    ensures forall x :: x in d.ingredientRows <==> x in db.ingredientRows && x.ingredient !in ids
    ensures forall x :: multiset(d.ingredientRows)[x] == if x.ingredient !in ids then multiset(db.ingredientRows)[x] else 0
    ensures d.users == db.users && d.follows == db.follows && d.tags == db.tags && d.recipes == db.recipes
    ensures d.favorites == db.favorites && d.carts == db.carts && d.recipeSeq == db.recipeSeq
  {
    var keepRow := (x: IngredientInRecipe) => x.ingredient !in ids;
    FilterCounts(db.ingredientRows, keepRow);
    db.(ingredients := Filter(db.ingredients, (i: Ingredient) => i.id !in ids),
        ingredientRows := Filter(db.ingredientRows, keepRow))
  }

  /** The recipe with id `rid`, if any is stored, was not written by `uid`. */
  predicate RecipeNotBy(db: Db, uid: UserId, rid: RecipeId)
  {
    forall r :: r in db.recipes && r.id == rid ==> r.author != uid
  }

  /** Deleting a user: the recipes they wrote go (with those recipes' rows),
      and so do their favourite and cart rows and every follow they are in.
      Every other row stays, as many times as it was stored. */
  function DeleteUser(db: Db, uid: UserId): (d: Db)
    ensures forall r :: r in d.recipes <==> r in db.recipes && r.author != uid
    ensures forall f :: f in d.follows <==> f in db.follows && f.user != uid && f.author != uid
    ensures forall p :: p in d.favorites <==> p in db.favorites && p.user != uid && RecipeNotBy(db, uid, p.recipe)
    ensures forall p :: p in d.carts <==> p in db.carts && p.user != uid && RecipeNotBy(db, uid, p.recipe)
    ensures forall x :: x in d.ingredientRows <==> x in db.ingredientRows && RecipeNotBy(db, uid, x.recipe)
    ensures forall u :: u in d.users <==> u in db.users && u.id != uid
    ensures forall f :: multiset(d.follows)[f] == if f.user != uid && f.author != uid then multiset(db.follows)[f] else 0
    ensures forall p :: multiset(d.favorites)[p] == if p.user != uid && RecipeNotBy(db, uid, p.recipe) then multiset(db.favorites)[p] else 0
    ensures forall p :: multiset(d.carts)[p] == if p.user != uid && RecipeNotBy(db, uid, p.recipe) then multiset(db.carts)[p] else 0
    ensures forall x :: multiset(d.ingredientRows)[x] == if RecipeNotBy(db, uid, x.recipe) then multiset(db.ingredientRows)[x] else 0
    ensures d.tags == db.tags && d.ingredients == db.ingredients && d.recipeSeq == db.recipeSeq
  {
    var keepRow := (x: IngredientInRecipe) => RecipeNotBy(db, uid, x.recipe);
    var keepPair := (p: UserRecipe) => p.user != uid && RecipeNotBy(db, uid, p.recipe);
    FilterCounts(db.ingredientRows, keepRow);
    FilterCounts(db.favorites, keepPair);
    FilterCounts(db.carts, keepPair);
    db.(users := Filter(db.users, (u: User) => u.id != uid),
        follows := FollowsAfterUserDelete(db.follows, uid),
        recipes := Filter(db.recipes, (r: Recipe) => r.author != uid),
        ingredientRows := Filter(db.ingredientRows, keepRow),
        favorites := Filter(db.favorites, keepPair),
        carts := Filter(db.carts, keepPair))
  }

  /** Every cascade leaves a consistent store consistent: no row is left
      pointing at what was deleted. */
  lemma DeleteRecipeKeepsConsistent(db: Db, id: RecipeId)
    requires Consistent(db)
    ensures Consistent(DeleteRecipe(db, id))
  {
    var d := DeleteRecipe(db, id);
    SubsetKeepsRecipeIdsDistinct(db.recipes, d.recipes);
    forall x | x in d.ingredientRows ensures x.recipe in RecipeIds(d.recipes) {
      var r :| r in db.recipes && r.id == x.recipe;
      assert r in d.recipes;
    }
    forall p | p in d.favorites ensures p.recipe in RecipeIds(d.recipes) {
      var r :| r in db.recipes && r.id == p.recipe;
      assert r in d.recipes;
    }
    forall p | p in d.carts ensures p.recipe in RecipeIds(d.recipes) {
      var r :| r in db.recipes && r.id == p.recipe;
      assert r in d.recipes;
    }
  }

  lemma DeleteIngredientsKeepsConsistent(db: Db, ids: set<IngredientId>)
    requires Consistent(db)
    ensures Consistent(DeleteIngredients(db, ids))
  {
    var d := DeleteIngredients(db, ids);
    assert IngredientIdsDistinct(d.ingredients) by {
      forall i, j | 0 <= i < j < |d.ingredients| ensures d.ingredients[i].id != d.ingredients[j].id {
        SubsetDistinctPair(db.ingredients, d.ingredients, i, j);
      }
    }
    forall x | x in d.ingredientRows ensures x.ingredient in IngredientIds(d.ingredients) {
      var g :| g in db.ingredients && g.id == x.ingredient;
      assert g in d.ingredients;
    }
  }

  lemma DeleteUserKeepsConsistent(db: Db, uid: UserId)
    requires Consistent(db)
    ensures Consistent(DeleteUser(db, uid))
  {
    var d := DeleteUser(db, uid);
    assert UsersUnique(d.users) by {
      forall i, j | 0 <= i < j < |d.users|
        ensures d.users[i].id != d.users[j].id && d.users[i].email != d.users[j].email
          && d.users[i].username != d.users[j].username
      {
        SubsetUsersPair(db.users, d.users, i, j);
      }
    }
    SubsetKeepsRecipeIdsDistinct(db.recipes, d.recipes);
    DeleteUserKeepsUserRefs(db, uid);
    DeleteUserKeepsRecipeRefs(db, uid);
  }

  lemma DeleteUserKeepsUserRefs(db: Db, uid: UserId)
    requires Consistent(db)
    ensures var d := DeleteUser(db, uid);
      && (forall f :: f in d.follows ==> f.user in UserIds(d.users) && f.author in UserIds(d.users))
      && (forall r :: r in d.recipes ==> r.author in UserIds(d.users))
      && (forall p :: p in d.favorites ==> p.user in UserIds(d.users))
      && (forall p :: p in d.carts ==> p.user in UserIds(d.users))
  {
    var d := DeleteUser(db, uid);
    forall v | v in UserIds(db.users) && v != uid ensures v in UserIds(d.users) {
      var a :| a in db.users && a.id == v;
      assert a in d.users;
    }
  }

  lemma DeleteUserKeepsRecipeRefs(db: Db, uid: UserId)
    requires Consistent(db)
    ensures var d := DeleteUser(db, uid);
      && (forall x :: x in d.ingredientRows ==> x.recipe in RecipeIds(d.recipes))
      && (forall p :: p in d.favorites ==> p.recipe in RecipeIds(d.recipes))
      && (forall p :: p in d.carts ==> p.recipe in RecipeIds(d.recipes))
  {
    var d := DeleteUser(db, uid);
    forall v | v in RecipeIds(db.recipes) && RecipeNotBy(db, uid, v) ensures v in RecipeIds(d.recipes) {
      var r :| r in db.recipes && r.id == v;
      assert r in d.recipes;
    }
  }

  /** Position `k` of a distinct-ordered list: the element appears nowhere
      else. Helpers for the cascade proofs. */
  lemma {:induction false} FilterPositions<T(!new)>(s: seq<T>, p: T -> bool, i: nat, j: nat) returns (a: nat, b: nat)
    requires i < j < |Filter(s, p)|
    ensures a < b < |s| && s[a] == Filter(s, p)[i] && s[b] == Filter(s, p)[j]
  {
    var t := s[1..];
    assert s == [s[0]] + t;
    var f := Filter(t, p);
    if p(s[0]) {
      assert Filter(s, p) == [s[0]] + f;
      if i == 0 {
        assert f[j - 1] in f;
        var k :| 0 <= k < |t| && t[k] == f[j - 1];
        a, b := 0, k + 1;
      } else {
        var a', b' := FilterPositions(t, p, i - 1, j - 1);
        a, b := a' + 1, b' + 1;
      }
    } else {
      assert Filter(s, p) == f;
      var a', b' := FilterPositions(t, p, i, j);
      a, b := a' + 1, b' + 1;
    }
  }

  lemma SubsetDistinctPair(s: seq<Ingredient>, f: seq<Ingredient>, i: nat, j: nat)
    requires IngredientIdsDistinct(s)
    requires exists p :: f == Filter(s, p)
    requires i < j < |f|
    ensures f[i].id != f[j].id
  {
    var p :| f == Filter(s, p);
    var a, b := FilterPositions(s, p, i, j);
  }

  lemma SubsetUsersPair(s: seq<User>, f: seq<User>, i: nat, j: nat)
    requires UsersUnique(s)
    requires exists p :: f == Filter(s, p)
    requires i < j < |f|
    ensures f[i].id != f[j].id && f[i].email != f[j].email && f[i].username != f[j].username
  {
    var p :| f == Filter(s, p);
    var a, b := FilterPositions(s, p, i, j);
  }

  lemma SubsetKeepsRecipeIdsDistinct(s: seq<Recipe>, f: seq<Recipe>)
    requires RecipeIdsDistinct(s)
    requires exists p :: f == Filter(s, p)
    ensures RecipeIdsDistinct(f)
  {
    var p :| f == Filter(s, p);
    forall i, j | 0 <= i < j < |f| ensures f[i].id != f[j].id {
      var a, b := FilterPositions(s, p, i, j);
    }
  }
}
