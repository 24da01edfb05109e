/** The serializers' own logic: the relation flags shown with users and
    recipes, the password and follow validations, the recipes listed with a
    followed author, and recipe create and update over the store. */
module Serializers {
  import opened Seqs
  import opened Ordering
  import opened UserModels
  import opened RecipeModels
  import opened Permissions
  import opened ApiErrors
  import opened Database

  // ----- Relation flags -----

  /** `get_is_subscribed`: an anonymous requester follows nobody; a signed-in
      one follows `author` when a follow row pairs them. */
  function IsSubscribed(follows: seq<Follow>, requester: Requester, author: UserId): (b: bool)
    ensures requester.Anonymous? ==> !b
    ensures requester.Member? ==> (b <==> exists f :: f in follows && f.user == requester.id && f.author == author)
  {
    requester.Member? && Follow(requester.id, author) in follows
  }

  /** `get_is_favorited`: false for an anonymous requester, otherwise whether
      a favourite row pairs the requester with the recipe. */
  function IsFavorited(favorites: seq<UserRecipe>, requester: Requester, recipe: RecipeId): (b: bool)
    ensures requester.Anonymous? ==> !b
    ensures requester.Member? ==> (b <==> exists p :: p in favorites && p.user == requester.id && p.recipe == recipe)
  {
    requester.Member? && UserRecipe(requester.id, recipe) in favorites
  }

  /** `get_is_in_basket`: the same question asked of the cart rows. */
  function IsInBasket(carts: seq<UserRecipe>, requester: Requester, recipe: RecipeId): (b: bool)
    ensures requester.Anonymous? ==> !b
    ensures requester.Member? ==> (b <==> exists p :: p in carts && p.user == requester.id && p.recipe == recipe)
  {
    requester.Member? && UserRecipe(requester.id, recipe) in carts
  }

  // ----- Validations -----

  const SamePasswordDetail := "Поля не должны совпадать"
  const AlreadySubscribedDetail := "Вы уже подписаны на этого автора"
  const SelfSubscribeDetail := "Нельзя подпиываться на себя"

  datatype PasswordChange = PasswordChange(newPassword: string, currentPassword: string)

  /** `PasswordSerializer.validate`: the new password must differ from the
      current one; an accepted value passes through unchanged. */
  function ValidatePassword(value: PasswordChange): (r: Result<PasswordChange, ApiError>)
    ensures r.Ok? <==> value.newPassword != value.currentPassword
    ensures r.Ok? ==> r.value == value
    ensures r.Err? ==> r.error == ValidationError(SamePasswordDetail)
  {
    if value.newPassword == value.currentPassword then Err(ValidationError(SamePasswordDetail)) else Ok(value)
  }

  /** `FollowSerializer.validate` for `user` following `author`: an existing
      follow is refused, then following oneself is refused; `None` means the
      request passes. */
  function ValidateFollow(follows: seq<Follow>, user: UserId, author: UserId): (r: Option<ApiError>)
    ensures r.None? <==> Follow(user, author) !in follows && user != author
    ensures Follow(user, author) in follows ==> r == Some(ValidationError(AlreadySubscribedDetail))
    ensures Follow(user, author) !in follows && user == author ==> r == Some(ValidationError(SelfSubscribeDetail))
  {
    if Follow(user, author) in follows then Some(ValidationError(AlreadySubscribedDetail))
    else if author == user then Some(ValidationError(SelfSubscribeDetail))
    else None
  }

  /** A follow that passed validation and was stored is refused the second
      time, whoever the author is. */
  lemma {:induction false} FollowTwiceRejected(follows: seq<Follow>, user: UserId, author: UserId)
    requires ValidateFollow(follows, user, author).None?
    ensures ValidateFollow(follows + [Follow(user, author)], user, author) == Some(ValidationError(AlreadySubscribedDetail))
  {
    assert (follows + [Follow(user, author)])[|follows|] == Follow(user, author);
  }

  // ----- The author's recipes shown with a follow -----

  const ShownRecipesLimit := 6

  /** The recipe filter `author=obj`. */
  function ByAuthor(author: UserId): Recipe -> bool
  {
    (x: Recipe) => x.author == author
  }

  function AuthorRecipes(recipes: seq<Recipe>, author: UserId): (r: seq<Recipe>)
    ensures forall x :: x in r <==> x in recipes && x.author == author
  {
    Filter(recipes, ByAuthor(author))
  }

  /** `get_recipes_count`: how many recipe rows `author` wrote. */
  function GetRecipesCount(recipes: seq<Recipe>, author: UserId): (n: nat)
    ensures n <= |recipes|
    ensures n == 0 <==> forall x :: x in recipes ==> x.author != author
  {
    var f := AuthorRecipes(recipes, author);
    assert f != [] ==> f[0] in f;
    |f|
  }

  function AuthorRecipeIds(recipes: seq<Recipe>, author: UserId): set<RecipeId>
  {
    set x | x in recipes && x.author == author :: x.id
  }

  /** With recipe ids unique, the count is the number of distinct recipes
      by `author`. */
  lemma {:induction false} RecipesCountIsCardinality(recipes: seq<Recipe>, author: UserId)
    requires RecipeIdsDistinct(recipes)
    ensures GetRecipesCount(recipes, author) == |AuthorRecipeIds(recipes, author)|
  {
    if recipes != [] {
      var h, t := recipes[0], recipes[1..];
      DistinctTail(recipes);
      RecipesCountIsCardinality(t, author);
      AuthorRecipesCons(recipes, author);
      AuthorRecipeIdsCons(recipes, author);
      assert h.id !in AuthorRecipeIds(t, author);
    }
  }

  /** The author's recipe ids of a non-empty list: the head's id when it
      is theirs, then those of the tail. */
  lemma AuthorRecipeIdsCons(recipes: seq<Recipe>, author: UserId)
    requires recipes != []
    ensures AuthorRecipeIds(recipes, author) ==
      (if recipes[0].author == author then {recipes[0].id} else {}) + AuthorRecipeIds(recipes[1..], author)
  {
    assert recipes == [recipes[0]] + recipes[1..];
    assert forall x :: x in recipes <==> x == recipes[0] || x in recipes[1..];
  }

  /** The tail of a list with unique ids has unique ids, none of them the head's. */
  lemma DistinctTail(recipes: seq<Recipe>)
    requires RecipeIdsDistinct(recipes) && recipes != []
    ensures RecipeIdsDistinct(recipes[1..])
    ensures forall x :: x in recipes[1..] ==> x.id != recipes[0].id
  {
    var t := recipes[1..];
    forall i, j | 0 <= i < j < |t| ensures t[i].id != t[j].id {
      assert t[i] == recipes[i + 1] && t[j] == recipes[j + 1];
    }
    forall x | x in t ensures x.id != recipes[0].id {
      var k :| 0 <= k < |t| && t[k] == x;
      assert recipes[k + 1] == x;
    }
  }

  /** The author's recipes of a non-empty list: the head when it is theirs,
      then those of the tail. */
  lemma AuthorRecipesCons(recipes: seq<Recipe>, author: UserId)
    requires recipes != []
    ensures AuthorRecipes(recipes, author) ==
      (if recipes[0].author == author then [recipes[0]] else []) + AuthorRecipes(recipes[1..], author)
  {
  }

  /** `get_recipes`: the first six of the author's recipes in the recipes'
      default order (by name). Fewer when the author wrote fewer; never one
      whose name sorts after an author recipe left out. */
  function GetRecipes(recipes: seq<Recipe>, author: UserId): (r: seq<Recipe>)
    ensures |r| == if GetRecipesCount(recipes, author) < ShownRecipesLimit
      then GetRecipesCount(recipes, author) else ShownRecipesLimit
    ensures forall x :: x in r ==> x in recipes && x.author == author
    ensures multiset(r) <= multiset(recipes)
    ensures Ordered(r, RecipeNameLe)
    ensures forall x, y :: x in r && y in recipes && y.author == author && y !in r ==> StrLe(x.name, y.name)
  {
    var sorted := OrderedRecipes(recipes);
    var f := AuthorRecipes(sorted, author);
    var n := if |f| < ShownRecipesLimit then |f| else ShownRecipesLimit;
    FirstOfOrdered(sorted, recipes, author, n);
    ShownRowsOccurInTable(sorted, recipes, author, n);
    f[..n]
  }

  /** The first `n` of the author's recipes in name order take each table
      row at most as often as the table holds it. */
  lemma ShownRowsOccurInTable(sorted: seq<Recipe>, recipes: seq<Recipe>, author: UserId, n: nat)
    requires sorted == OrderedRecipes(recipes)
    requires n <= |AuthorRecipes(sorted, author)|
    ensures multiset(AuthorRecipes(sorted, author)[..n]) <= multiset(recipes)
  {
    var f := AuthorRecipes(sorted, author);
    assert f == f[..n] + f[n..];
    assert multiset(f) == multiset(f[..n]) + multiset(f[n..]);
    FilterSubMultiset(sorted, ByAuthor(author));
  }

  lemma FirstOfOrdered(sorted: seq<Recipe>, recipes: seq<Recipe>, author: UserId, n: nat)
    requires sorted == OrderedRecipes(recipes)
    requires n <= |AuthorRecipes(sorted, author)|
    ensures |AuthorRecipes(sorted, author)| == GetRecipesCount(recipes, author)
    ensures Ordered(AuthorRecipes(sorted, author)[..n], RecipeNameLe)
    ensures forall x, y :: (x in AuthorRecipes(sorted, author)[..n] && y in recipes && y.author == author
      && y !in AuthorRecipes(sorted, author)[..n]) ==> StrLe(x.name, y.name)
  {
    var f := AuthorRecipes(sorted, author);
    FilterPermutation(sorted, recipes, ByAuthor(author));
    FilterKeepsOrder(sorted, ByAuthor(author), RecipeNameLe);
    OrderedPrefix(f, n, RecipeNameLe);
    forall x, y | x in f[..n] && y in recipes && y.author == author && y !in f[..n] ensures StrLe(x.name, y.name) {
      assert y in f;
      PrefixBeforeRest(f, n, x, y);
    }
  }

  /** A prefix of an ordered list is ordered. */
  lemma OrderedPrefix<T>(s: seq<T>, n: nat, le: (T, T) -> bool)
    requires Ordered(s, le) && n <= |s|
    ensures Ordered(s[..n], le)
  {
    var r := s[..n];
    forall i, j | 0 <= i < j < |r| ensures le(r[i], r[j]) {
      assert r[i] == s[i] && r[j] == s[j];
    }
  }

  /** In a name-ordered list, what the first `n` hold sorts before what they miss. */
  lemma PrefixBeforeRest(f: seq<Recipe>, n: nat, x: Recipe, y: Recipe)
    requires Ordered(f, RecipeNameLe) && n <= |f|
    requires x in f[..n] && y in f && y !in f[..n]
    ensures StrLe(x.name, y.name)
  {
    var k :| 0 <= k < |f| && f[k] == y;
    var i :| 0 <= i < n && f[..n][i] == x;
    assert forall m :: 0 <= m < n ==> f[m] == f[..n][m];
    assert RecipeNameLe(f[i], f[k]);
  }

  /** The short recipe form shown with a favourite, a cart row or a follow. */
  datatype RecipeSummary = RecipeSummary(id: RecipeId, name: string, image: string, cookingTime: int)

  function Summary(r: Recipe): RecipeSummary
  {
    RecipeSummary(r.id, r.name, r.image, r.cookingTime)
  }

  /** What `FollowSerializer` shows of a followed author. */
  datatype FollowView = FollowView(
    email: string, id: UserId, username: string, firstName: string, lastName: string,
    isSubscribed: bool, recipes: seq<RecipeSummary>, recipesCount: nat)

  function FollowData(db: Db, requester: Requester, author: User): (v: FollowView)
    ensures v.id == author.id && v.email == author.email && v.username == author.username
    ensures v.firstName == author.firstName && v.lastName == author.lastName
    ensures v.isSubscribed == IsSubscribed(db.follows, requester, author.id)
    ensures v.recipesCount == GetRecipesCount(db.recipes, author.id)
    ensures |v.recipes| <= ShownRecipesLimit && |v.recipes| <= v.recipesCount
    ensures forall s :: s in v.recipes ==> exists x :: x in db.recipes && x.author == author.id && Summary(x) == s
    ensures |v.recipes| == |GetRecipes(db.recipes, author.id)|
    ensures forall i :: 0 <= i < |v.recipes| ==> v.recipes[i] == Summary(GetRecipes(db.recipes, author.id)[i])
  {
    var shown := GetRecipes(db.recipes, author.id);
    var summaries := Summaries(shown);
    assert forall s :: s in summaries ==> exists x :: x in shown && Summary(x) == s by {
      forall s | s in summaries ensures exists x :: x in shown && Summary(x) == s {
        var i :| 0 <= i < |summaries| && summaries[i] == s;
        assert shown[i] in shown;
      }
    }
    FollowView(author.email, author.id, author.username, author.firstName, author.lastName,
      IsSubscribed(db.follows, requester, author.id), summaries, GetRecipesCount(db.recipes, author.id))
  }

  /** One summary per recipe, in the same order. */
  function Summaries(rs: seq<Recipe>): (r: seq<RecipeSummary>)
    ensures |r| == |rs| && forall i :: 0 <= i < |rs| ==> r[i] == Summary(rs[i])
  {
    seq(|rs|, i requires 0 <= i < |rs| => Summary(rs[i]))
  }

  // ----- Recipe payloads -----

  /** One element of a payload's `ingredients` list. `amount` may be absent:
      the join model gives the column a default, so the field is optional. */
  datatype IngredientEntry = IngredientEntry(ingredient: IngredientId, amount: Option<int>)

  /** A create payload after validation. */
  datatype RecipePayload = RecipePayload(
    tags: seq<TagId>, ingredients: seq<IngredientEntry>,
    name: string, image: string, text: string, cookingTime: int)

  /** An update payload after validation: every key may be absent. */
  datatype RecipeUpdate = RecipeUpdate(
    tags: Option<seq<TagId>>, ingredients: Option<seq<IngredientEntry>>,
    name: Option<string>, image: Option<string>, text: Option<string>, cookingTime: Option<int>)

  /** What validation established about an ingredient list: each id names
      an existing ingredient and each amount given lies in bounds. */
  predicate EntriesValid(db: Db, entries: seq<IngredientEntry>)
  {
    forall e :: e in entries ==> e.ingredient in IngredientIds(db.ingredients) && (e.amount.Some? ==> ValidAmount(e.amount.value))
  }

  predicate TagListValid(db: Db, tags: seq<TagId>)
  {
    forall t :: t in tags ==> t in TagIds(db.tags)
  }

  predicate PayloadValid(db: Db, p: RecipePayload)
  {
    && TagListValid(db, p.tags) && EntriesValid(db, p.ingredients)
    && |p.name| <= RecipeNameMaxLength && |p.text| <= RecipeTextMaxLength && ValidCookingTime(p.cookingTime)
  }

  predicate UpdateValid(db: Db, u: RecipeUpdate)
  {
    && (u.tags.Some? ==> TagListValid(db, u.tags.value))
    && (u.ingredients.Some? ==> EntriesValid(db, u.ingredients.value))
    && (u.name.Some? ==> |u.name.value| <= RecipeNameMaxLength)
    && (u.text.Some? ==> |u.text.value| <= RecipeTextMaxLength)
    && (u.cookingTime.Some? ==> ValidCookingTime(u.cookingTime.value))
  }

  function TagSet(tags: seq<TagId>): (s: set<TagId>)
    ensures forall t :: t in s <==> t in tags
  {
    set t | t in tags
  }

  /** The join rows `bulk_create` receives for recipe `recipe`: one per
      entry, in order, with that entry's ingredient and amount; repeated
      ingredients are kept. Taking `amount` out of an entry that has none
      raises `KeyError`, before any row is written, so the column's default
      amount of 1 never applies. */
  function JoinRows(recipe: RecipeId, entries: seq<IngredientEntry>): (r: Result<seq<IngredientInRecipe>, ApiError>)
    ensures r.Ok? <==> forall e :: e in entries ==> e.amount.Some?
    ensures r.Err? ==> r.error == KeyError("amount")
    ensures r.Ok? ==> |r.value| == |entries| && forall i :: 0 <= i < |entries| ==>
      r.value[i] == IngredientInRecipe(recipe, entries[i].ingredient, entries[i].amount.value)
  {
    if entries == [] then Ok([])
    else if entries[0].amount.None? then Err(KeyError("amount"))
    else
      assert forall e :: e in entries[1..] ==> e in entries;
      match JoinRows(recipe, entries[1..])
      case Err(e) => Err(e)
      case Ok(rest) => Ok([IngredientInRecipe(recipe, entries[0].ingredient, entries[0].amount.value)] + rest)
  }

  /** Two entries for the same ingredient become two join rows. */
  lemma DuplicateEntriesKept(recipe: RecipeId, g: IngredientId, a: int, b: int)
    ensures JoinRows(recipe, [IngredientEntry(g, Some(a)), IngredientEntry(g, Some(b))])
      == Ok([IngredientInRecipe(recipe, g, a), IngredientInRecipe(recipe, g, b)])
  {
    var entries := [IngredientEntry(g, Some(a)), IngredientEntry(g, Some(b))];
    var r := JoinRows(recipe, entries);
    assert r.Ok?;
    assert r.value == [IngredientInRecipe(recipe, g, a), IngredientInRecipe(recipe, g, b)];
  }

  /** Rows built from validated entries satisfy the row part of the schema. */
  lemma JoinRowsValid(db: Db, recipe: RecipeId, entries: seq<IngredientEntry>)
    requires EntriesValid(db, entries)
    requires JoinRows(recipe, entries).Ok?
    ensures forall x :: x in JoinRows(recipe, entries).value ==>
      x.recipe == recipe && x.ingredient in IngredientIds(db.ingredients) && ValidAmount(x.amount)
  {
    var rows := JoinRows(recipe, entries).value;
    forall x | x in rows ensures x.recipe == recipe && x.ingredient in IngredientIds(db.ingredients) && ValidAmount(x.amount) {
      var i :| 0 <= i < |rows| && rows[i] == x;
      assert entries[i] in entries;
    }
  }

  // ----- Store edits shared by create and update -----

  /** `recipes` with recipe `id`'s tag set replaced (`tags.set`). */
  function WithTags(recipes: seq<Recipe>, id: RecipeId, tags: set<TagId>): (r: seq<Recipe>)
    ensures |r| == |recipes|
    ensures forall i :: 0 <= i < |r| ==> r[i] == if recipes[i].id == id then recipes[i].(tags := tags) else recipes[i]
  {
    seq(|recipes|, i requires 0 <= i < |recipes| => if recipes[i].id == id then recipes[i].(tags := tags) else recipes[i])
  }

  /** `recipes` with the row whose id is `rec.id` overwritten by `rec` (`save`). */
  function WithRecord(recipes: seq<Recipe>, rec: Recipe): (r: seq<Recipe>)
    ensures |r| == |recipes|
    ensures forall i :: 0 <= i < |r| ==> r[i] == if recipes[i].id == rec.id then rec else recipes[i]
  {
    seq(|recipes|, i requires 0 <= i < |recipes| => if recipes[i].id == rec.id then rec else recipes[i])
  }

  /** A new recipe row whose id is the next one from the sequence keeps the
      store consistent. */
  lemma AddRecipeKeepsConsistent(db: Db, rec: Recipe)
    requires Consistent(db)
    requires rec.id == db.recipeSeq
    requires rec.author in UserIds(db.users) && rec.tags <= TagIds(db.tags) && ValidCookingTime(rec.cookingTime)
    ensures Consistent(db.(recipes := db.recipes + [rec], recipeSeq := db.recipeSeq + 1))
  {
    var d := db.(recipes := db.recipes + [rec], recipeSeq := db.recipeSeq + 1);
    assert RecipeIdsDistinct(d.recipes) by {
      forall i, j | 0 <= i < j < |d.recipes| ensures d.recipes[i].id != d.recipes[j].id {
        assert d.recipes[i] == db.recipes[i] && db.recipes[i] in db.recipes;
        if j < |db.recipes| {
          assert d.recipes[j] == db.recipes[j];
        }
      }
    }
    assert RecipeIds(db.recipes) <= RecipeIds(d.recipes);
  }

  /** Appending join rows whose keys exist and whose amounts are in bounds
      keeps the store consistent. */
  lemma AppendRowsKeepsConsistent(db: Db, rows: seq<IngredientInRecipe>)
    requires Consistent(db)
    requires forall x :: x in rows ==>
      x.recipe in RecipeIds(db.recipes) && x.ingredient in IngredientIds(db.ingredients) && ValidAmount(x.amount)
    ensures Consistent(db.(ingredientRows := db.ingredientRows + rows))
  {
  }

  /** Rewriting recipe rows in place, each keeping its id and getting valid
      fields, keeps the store consistent. */
  lemma SameIdsKeepConsistent(db: Db, r: seq<Recipe>)
    requires Consistent(db)
    requires |r| == |db.recipes|
    requires forall i :: 0 <= i < |r| ==> (r[i].id == db.recipes[i].id && r[i].author in UserIds(db.users)
      && r[i].tags <= TagIds(db.tags) && ValidCookingTime(r[i].cookingTime))
    ensures RecipeIds(r) == RecipeIds(db.recipes)
    ensures Consistent(db.(recipes := r))
  {
    SameIdsSameIdSet(db.recipes, r);
    forall x | x in r
      ensures x.author in UserIds(db.users) && x.tags <= TagIds(db.tags)
      ensures ValidCookingTime(x.cookingTime) && x.id < db.recipeSeq
    {
      var i :| 0 <= i < |r| && r[i] == x;
      assert db.recipes[i] in db.recipes;
    }
  }

  /** Rows rewritten in place with their ids kept have the same id set, and
      unique ids stay unique. */
  lemma SameIdsSameIdSet(before: seq<Recipe>, after: seq<Recipe>)
    requires |after| == |before|
    requires forall i :: 0 <= i < |after| ==> after[i].id == before[i].id
    ensures RecipeIds(after) == RecipeIds(before)
    ensures RecipeIdsDistinct(before) ==> RecipeIdsDistinct(after)
  {
    forall x | x in after ensures x.id in RecipeIds(before) {
      var i :| 0 <= i < |after| && after[i] == x;
      assert before[i] in before;
    }
    forall y | y in before ensures y.id in RecipeIds(after) {
      var i :| 0 <= i < |before| && before[i] == y;
      assert after[i] in after;
    }
  }

  /** Replacing a tag set by existing tags keeps the store consistent; no
      recipe id changes. */
  lemma WithTagsKeepsConsistent(db: Db, id: RecipeId, tags: set<TagId>)
    requires Consistent(db)
    requires tags <= TagIds(db.tags)
    ensures RecipeIds(WithTags(db.recipes, id, tags)) == RecipeIds(db.recipes)
    ensures Consistent(db.(recipes := WithTags(db.recipes, id, tags)))
  {
    var r := WithTags(db.recipes, id, tags);
    forall i | 0 <= i < |r| ensures r[i].author in UserIds(db.users) && r[i].tags <= TagIds(db.tags) {
      assert db.recipes[i] in db.recipes;
    }
    SameIdsKeepConsistent(db, r);
  }

  /** Overwriting a recipe row with a valid record of the same id keeps the
      store consistent. */
  lemma WithRecordKeepsConsistent(db: Db, rec: Recipe)
    requires Consistent(db)
    requires rec.author in UserIds(db.users) && rec.tags <= TagIds(db.tags) && ValidCookingTime(rec.cookingTime)
    ensures RecipeIds(WithRecord(db.recipes, rec)) == RecipeIds(db.recipes)
    ensures Consistent(db.(recipes := WithRecord(db.recipes, rec)))
  {
    var r := WithRecord(db.recipes, rec);
    forall i | 0 <= i < |r| ensures r[i].author in UserIds(db.users) && r[i].tags <= TagIds(db.tags)
      && ValidCookingTime(r[i].cookingTime)
    {
      assert db.recipes[i] in db.recipes;
    }
    SameIdsKeepConsistent(db, r);
  }

  // ----- Create -----

  /** `CreateRecipeSerializer.create`: the recipe row is inserted with the
      next id, its tag set is set, then one join row per entry is written.
      A missing `amount` raises after the recipe and its tags are stored:
      nothing wraps the steps in a transaction. */
  method CreateRecipe(store: Store, author: UserId, p: RecipePayload) returns (r: Result<Recipe, ApiError>)
    requires store.Valid()
    requires author in UserIds(store.users)
    requires PayloadValid(store.Snapshot(), p)
    modifies store
    ensures store.Valid()
    ensures var rec := Recipe(old(store.recipeSeq), p.name, p.text, author, p.image, p.cookingTime, TagSet(p.tags));
      var rows := JoinRows(rec.id, p.ingredients);
      && store.recipes == old(store.recipes) + [rec]
      && store.recipeSeq == old(store.recipeSeq) + 1
      && (r.Ok? <==> rows.Ok?)
      && (r.Ok? ==> r.value == rec && store.ingredientRows == old(store.ingredientRows) + rows.value)
      && (r.Err? ==> r.error == KeyError("amount") && store.ingredientRows == old(store.ingredientRows))
    ensures store.users == old(store.users) && store.follows == old(store.follows) && store.tags == old(store.tags)
    ensures store.ingredients == old(store.ingredients)
    ensures store.favorites == old(store.favorites) && store.carts == old(store.carts)
  {
    ghost var db := store.Snapshot();
    var rec := Recipe(store.recipeSeq, p.name, p.text, author, p.image, p.cookingTime, {});
    store.recipes := store.recipes + [rec];
    store.recipeSeq := store.recipeSeq + 1;
    var tags := TagSet(p.tags);
    WithTagsOnNew(db.recipes, rec, tags);
    store.recipes := WithTags(store.recipes, rec.id, tags);
    rec := rec.(tags := tags);
    AddRecipeKeepsConsistent(db, rec);
    var rows := JoinRows(rec.id, p.ingredients);
    if rows.Err? {
      return Err(rows.error);
    }
    JoinRowsValid(store.Snapshot(), rec.id, p.ingredients);
    assert rec in store.recipes;
    AppendRowsKeepsConsistent(store.Snapshot(), rows.value);
    store.ingredientRows := store.ingredientRows + rows.value;
    r := Ok(rec);
  }

  /** Setting the tags of a recipe just appended, whose id no earlier row
      has, changes that row alone. */
  lemma WithTagsOnNew(recipes: seq<Recipe>, rec: Recipe, tags: set<TagId>)
    requires forall x :: x in recipes ==> x.id < rec.id
    ensures WithTags(recipes + [rec], rec.id, tags) == recipes + [rec.(tags := tags)]
  {
    var r := WithTags(recipes + [rec], rec.id, tags);
    forall i | 0 <= i < |recipes| ensures r[i] == recipes[i] {
      assert recipes[i] in recipes;
    }
  }

  // ----- Update -----

  /** `validated_data.get(key, default)`. */
  function Get<T>(o: Option<T>, default: T): T
  {
    if o.Some? then o.value else default
  }

  /** The four scalar assignments on the instance. */
  function ApplyScalars(rec: Recipe, u: RecipeUpdate): Recipe
  {
    rec.(name := Get(u.name, rec.name), text := Get(u.text, rec.text),
         cookingTime := Get(u.cookingTime, rec.cookingTime), image := Get(u.image, rec.image))
  }

  /** The ingredient catalogue rows recipe `id` reaches through its join
      rows: the set `instance.ingredients.all()` denotes. */
  function LinkedIngredients(rows: seq<IngredientInRecipe>, id: RecipeId): (s: set<IngredientId>)
    ensures forall x :: x in rows && x.recipe == id ==> x.ingredient in s
    ensures forall g :: g in s ==> exists x :: x in rows && x.recipe == id && x.ingredient == g
  {
    set x | x in rows && x.recipe == id :: x.ingredient
  }

  /** Some row names an ingredient the catalogue does not hold: the insert
      violates the foreign key. */
  predicate DanglingIngredient(db: Db, rows: seq<IngredientInRecipe>)
  {
    exists x :: x in rows && x.ingredient !in IngredientIds(db.ingredients)
  }

  /** The store after an update and what the caller gets back. */
  datatype UpdateOutcome = UpdateOutcome(db: Db, result: Result<Recipe, ApiError>)

  /** The store after one step of an update and the error that stopped it,
      if any. */
  datatype Step = Step(db: Db, error: Option<ApiError>)

  /** The ingredient step of `update` as written: delete the linked
      catalogue rows (their join rows in every recipe go with them), then
      insert the new join rows. */
  function ReplaceIngredientsAsWritten(db: Db, id: RecipeId, entries: seq<IngredientEntry>): (o: Step)
  {
    var d := DeleteIngredients(db, LinkedIngredients(db.ingredientRows, id));
    var rows := JoinRows(id, entries);
    if rows.Err? then Step(d, Some(rows.error))
    else if DanglingIngredient(d, rows.value) then Step(d, Some(IntegrityError))
    else Step(d.(ingredientRows := d.ingredientRows + rows.value), None)
  }

  /** `CreateRecipeSerializer.update` as written: ingredients are replaced
      when their key is present, then tags when theirs is; the scalar
      fields are set on the returned instance but never saved. */
  function Update(db: Db, instance: Recipe, u: RecipeUpdate): (o: UpdateOutcome)
  {
    var first := if u.ingredients.Some? then ReplaceIngredientsAsWritten(db, instance.id, u.ingredients.value)
      else Step(db, None);
    if first.error.Some? then UpdateOutcome(first.db, Err(first.error.value))
    else
      var tags := if u.tags.Some? then TagSet(u.tags.value) else instance.tags;
      var d := if u.tags.Some? then first.db.(recipes := WithTags(first.db.recipes, instance.id, tags)) else first.db;
      UpdateOutcome(d, Ok(ApplyScalars(instance.(tags := tags), u)))
  }

  /** The same update with the two evident intentions carried out: only
      this recipe's own join rows are replaced, and the instance is saved. */
  function UpdateIntended(db: Db, instance: Recipe, u: RecipeUpdate): (o: UpdateOutcome)
  {
    var own := (x: IngredientInRecipe) => x.recipe != instance.id;
    var cleared := if u.ingredients.Some? then db.(ingredientRows := Filter(db.ingredientRows, own)) else db;
    var rows := if u.ingredients.Some? then JoinRows(instance.id, u.ingredients.value) else Ok([]);
    if rows.Err? then UpdateOutcome(cleared, Err(rows.error))
    else
      var tags := if u.tags.Some? then TagSet(u.tags.value) else instance.tags;
      var rec := ApplyScalars(instance.(tags := tags), u);
      var d := cleared.(ingredientRows := cleared.ingredientRows + rows.value,
                        recipes := WithRecord(cleared.recipes, rec));
      UpdateOutcome(d, Ok(rec))
  }

  /** The ingredient step of the update method, on the store. */
  method ReplaceIngredients(store: Store, id: RecipeId, entries: seq<IngredientEntry>) returns (err: Option<ApiError>)
    requires store.Valid()
    requires id in RecipeIds(store.recipes)
    requires EntriesValid(store.Snapshot(), entries)
    modifies store
    ensures store.Valid()
    ensures Step(store.Snapshot(), err) == ReplaceIngredientsAsWritten(old(store.Snapshot()), id, entries)
  {
    ghost var db := store.Snapshot();
    var linked := LinkedIngredients(store.ingredientRows, id);
    var d := DeleteIngredients(store.Snapshot(), linked);
    DeleteIngredientsKeepsConsistent(store.Snapshot(), linked);
    store.ingredients := d.ingredients;
    store.ingredientRows := d.ingredientRows;
    assert store.Snapshot() == d;
    var rows := JoinRows(id, entries);
    if rows.Err? {
      return Some(rows.error);
    }
    if exists x :: x in rows.value && x.ingredient !in IngredientIds(store.ingredients) {
      return Some(IntegrityError);
    }
    JoinRowsValid(db, id, entries);
    AppendRowsKeepsConsistent(d, rows.value);
    store.ingredientRows := store.ingredientRows + rows.value;
    err := None;
  }

  /** The update view's call: `instance` is a stored recipe. */
  method UpdateRecipe(store: Store, instance: Recipe, u: RecipeUpdate) returns (r: Result<Recipe, ApiError>)
    requires store.Valid()
    requires instance in store.recipes
    requires UpdateValid(store.Snapshot(), u)
    modifies store
    ensures store.Valid()
    ensures UpdateOutcome(store.Snapshot(), r) == Update(old(store.Snapshot()), instance, u)
  {
    ghost var db := store.Snapshot();
    if u.ingredients.Some? {
      var err := ReplaceIngredients(store, instance.id, u.ingredients.value);
      if err.Some? {
        return Err(err.value);
      }
    }
    assert store.recipes == db.recipes && store.tags == db.tags && store.users == db.users;
    var tags := instance.tags;
    if u.tags.Some? {
      tags := TagSet(u.tags.value);
      WithTagsKeepsConsistent(store.Snapshot(), instance.id, tags);
      store.recipes := WithTags(store.recipes, instance.id, tags);
    }
    r := Ok(ApplyScalars(instance.(tags := tags), u));
  }

  // ----- What update does, as written and as intended -----

  /** The catalogue after the delete keeps exactly the ingredients not
      linked to the recipe. */
  lemma DeletedCatalogue(db: Db, id: RecipeId, g: IngredientId)
    ensures var d := DeleteIngredients(db, LinkedIngredients(db.ingredientRows, id));
      g in IngredientIds(d.ingredients) <==> g in IngredientIds(db.ingredients) && g !in LinkedIngredients(db.ingredientRows, id)
  {
    var linked := LinkedIngredients(db.ingredientRows, id);
    var d := DeleteIngredients(db, linked);
    if g in IngredientIds(db.ingredients) && g !in linked {
      var i :| i in db.ingredients && i.id == g;
      assert i in d.ingredients;
    }
  }

  /** An update that names ingredients fails on the foreign key exactly when
      one of them was already linked to the recipe: the delete took that
      catalogue row away. */
  lemma {:induction false} UpdateFailsOnKeptIngredient(db: Db, instance: Recipe, u: RecipeUpdate)
    requires UpdateValid(db, u)
    requires u.ingredients.Some? && forall e :: e in u.ingredients.value ==> e.amount.Some?
    ensures Update(db, instance, u).result == Err(IntegrityError) <==>
      exists e :: e in u.ingredients.value && e.ingredient in LinkedIngredients(db.ingredientRows, instance.id)
  {
    var entries := u.ingredients.value;
    var linked := LinkedIngredients(db.ingredientRows, instance.id);
    if exists e :: e in entries && e.ingredient in linked {
      var e :| e in entries && e.ingredient in linked;
      KeptIngredientDangles(db, instance.id, entries, e);
    } else {
      FreshIngredientsStay(db, instance.id, entries);
    }
  }

  /** A named ingredient that was linked to the recipe is gone from the
      catalogue after the delete, so its new row dangles. */
  lemma KeptIngredientDangles(db: Db, id: RecipeId, entries: seq<IngredientEntry>, e: IngredientEntry)
    requires forall x :: x in entries ==> x.amount.Some?
    requires e in entries && e.ingredient in LinkedIngredients(db.ingredientRows, id)
    ensures DanglingIngredient(DeleteIngredients(db, LinkedIngredients(db.ingredientRows, id)), JoinRows(id, entries).value)
  {
    var d := DeleteIngredients(db, LinkedIngredients(db.ingredientRows, id));
    var rows := JoinRows(id, entries).value;
    var i :| 0 <= i < |entries| && entries[i] == e;
    DeletedCatalogue(db, id, e.ingredient);
    assert rows[i] in rows && rows[i].ingredient !in IngredientIds(d.ingredients);
  }

  /** Valid ingredients none of which was linked to the recipe all survive
      the delete, so no new row dangles. */
  lemma FreshIngredientsStay(db: Db, id: RecipeId, entries: seq<IngredientEntry>)
    requires EntriesValid(db, entries)
    requires forall x :: x in entries ==> x.amount.Some?
    requires forall x :: x in entries ==> x.ingredient !in LinkedIngredients(db.ingredientRows, id)
    ensures !DanglingIngredient(DeleteIngredients(db, LinkedIngredients(db.ingredientRows, id)), JoinRows(id, entries).value)
  {
    var d := DeleteIngredients(db, LinkedIngredients(db.ingredientRows, id));
    var rows := JoinRows(id, entries).value;
    forall x | x in rows ensures x.ingredient in IngredientIds(d.ingredients) {
      var i :| 0 <= i < |rows| && rows[i] == x;
      assert entries[i] in entries;
      DeletedCatalogue(db, id, x.ingredient);
    }
  }

  /** Replacing the ingredients of one recipe also strips every other
      recipe of its rows for the ingredients the two share. */
  lemma UpdateStripsSharedRows(db: Db, instance: Recipe, u: RecipeUpdate, x: IngredientInRecipe)
    requires u.ingredients.Some?
    requires x in db.ingredientRows && x.ingredient in LinkedIngredients(db.ingredientRows, instance.id)
    ensures x !in Update(db, instance, u).db.ingredientRows
  {
    var o := Update(db, instance, u);
    var d := DeleteIngredients(db, LinkedIngredients(db.ingredientRows, instance.id));
    if o.result.Ok? {
      var rows := JoinRows(instance.id, u.ingredients.value).value;
      assert o.db.ingredientRows == d.ingredientRows + rows;
      assert !DanglingIngredient(d, rows);
    }
  }

  /** After a successful update that named ingredients, the recipe's own
      rows are exactly the new ones. */
  lemma UpdateReplacesOwnRows(db: Db, instance: Recipe, u: RecipeUpdate)
    requires u.ingredients.Some?
    requires Update(db, instance, u).result.Ok?
    ensures var rows := JoinRows(instance.id, u.ingredients.value);
      rows.Ok? && forall x :: (x in Update(db, instance, u).db.ingredientRows && x.recipe == instance.id) <==> x in rows.value
    ensures var rows := JoinRows(instance.id, u.ingredients.value);
      rows.Ok? && forall x: IngredientInRecipe :: x.recipe == instance.id ==>
        multiset(Update(db, instance, u).db.ingredientRows)[x] == multiset(rows.value)[x]
  {
    var o := Update(db, instance, u);
    var linked := LinkedIngredients(db.ingredientRows, instance.id);
    var d := DeleteIngredients(db, linked);
    var rows := JoinRows(instance.id, u.ingredients.value).value;
    assert o.db.ingredientRows == d.ingredientRows + rows;
    assert multiset(o.db.ingredientRows) == multiset(d.ingredientRows) + multiset(rows);
    forall x | x in rows ensures x.recipe == instance.id {
      var i :| 0 <= i < |rows| && rows[i] == x;
    }
    assert forall x: IngredientInRecipe :: x.recipe == instance.id ==> x !in d.ingredientRows;
  }

  /** A successful update leaves every other table alone, keeps the rows
      and catalogue when no ingredients were sent, keeps the tag sets when
      no tags were sent, and stores none of the scalar changes: the stored
      row differs from the original at most in its tag set. */
  lemma UpdateFootprint(db: Db, instance: Recipe, u: RecipeUpdate)
    requires instance in db.recipes
    requires Update(db, instance, u).result.Ok?
    ensures var o := Update(db, instance, u);
      && o.db.users == db.users && o.db.follows == db.follows && o.db.tags == db.tags
      && o.db.favorites == db.favorites && o.db.carts == db.carts && o.db.recipeSeq == db.recipeSeq
      && (u.ingredients.None? ==> o.db.ingredients == db.ingredients && o.db.ingredientRows == db.ingredientRows)
      && (u.tags.None? ==> o.db.recipes == db.recipes)
      && |o.db.recipes| == |db.recipes|
      && (forall i :: 0 <= i < |db.recipes| ==> o.db.recipes[i].(tags := db.recipes[i].tags) == db.recipes[i])
    ensures var o := Update(db, instance, u);
      && (u.tags.Some? ==> forall i :: 0 <= i < |db.recipes| && db.recipes[i].id == instance.id ==>
            o.db.recipes[i].tags == TagSet(u.tags.value))
      && (forall i :: 0 <= i < |db.recipes| && db.recipes[i].id != instance.id ==> o.db.recipes[i] == db.recipes[i])
    ensures Update(db, instance, u).result.value ==
      ApplyScalars(instance.(tags := if u.tags.Some? then TagSet(u.tags.value) else instance.tags), u)
  {
  }

  /** Update as written keeps a consistent store consistent. */
  lemma UpdateKeepsConsistent(db: Db, instance: Recipe, u: RecipeUpdate)
    requires Consistent(db)
    requires instance in db.recipes
    requires UpdateValid(db, u)
    ensures Consistent(Update(db, instance, u).db)
  {
    var first := if u.ingredients.Some? then ReplaceIngredientsAsWritten(db, instance.id, u.ingredients.value)
      else Step(db, None);
    if u.ingredients.Some? {
      var linked := LinkedIngredients(db.ingredientRows, instance.id);
      var d := DeleteIngredients(db, linked);
      DeleteIngredientsKeepsConsistent(db, linked);
      var rows := JoinRows(instance.id, u.ingredients.value);
      if rows.Ok? && !DanglingIngredient(d, rows.value) {
        JoinRowsValid(db, instance.id, u.ingredients.value);
        assert instance.id in RecipeIds(d.recipes);
        AppendRowsKeepsConsistent(d, rows.value);
      }
    }
    if first.error.None? && u.tags.Some? {
      WithTagsKeepsConsistent(first.db, instance.id, TagSet(u.tags.value));
    }
  }

  /** The intended update touches no other recipe's rows and no catalogue
      row, cannot fail on a foreign key, and stores what it returns. */
  lemma UpdateIntendedSpec(db: Db, instance: Recipe, u: RecipeUpdate)
    ensures var o := UpdateIntended(db, instance, u);
      && o.db.ingredients == db.ingredients
      && (forall x: IngredientInRecipe :: x.recipe != instance.id ==> (x in o.db.ingredientRows <==> x in db.ingredientRows))
      && o.result != Err(IntegrityError)
      && (o.result.Ok? ==> forall y :: y in o.db.recipes && y.id == instance.id ==> y == o.result.value)
      && (o.result.Ok? ==> (o.result.value ==
            ApplyScalars(instance.(tags := if u.tags.Some? then TagSet(u.tags.value) else instance.tags), u)))
      && (o.result.Ok? && u.ingredients.Some? ==>
            forall x :: (x in o.db.ingredientRows && x.recipe == instance.id) <==> x in JoinRows(instance.id, u.ingredients.value).value)
  {
    var o := UpdateIntended(db, instance, u);
    if o.result.Ok? {
      forall y | y in o.db.recipes && y.id == instance.id ensures y == o.result.value {
        var i :| 0 <= i < |o.db.recipes| && o.db.recipes[i] == y;
      }
      if u.ingredients.Some? {
        var rows := JoinRows(instance.id, u.ingredients.value).value;
        forall x | x in rows ensures x.recipe == instance.id {
          var i :| 0 <= i < |rows| && rows[i] == x;
        }
      }
    }
  }

  /** The intended update keeps a consistent store consistent. */
  lemma UpdateIntendedKeepsConsistent(db: Db, instance: Recipe, u: RecipeUpdate)
    requires Consistent(db)
    requires instance in db.recipes
    requires UpdateValid(db, u)
    ensures Consistent(UpdateIntended(db, instance, u).db)
  {
    var own := (x: IngredientInRecipe) => x.recipe != instance.id;
    var cleared := if u.ingredients.Some? then db.(ingredientRows := Filter(db.ingredientRows, own)) else db;
    assert Consistent(cleared);
    var rows := if u.ingredients.Some? then JoinRows(instance.id, u.ingredients.value) else Ok([]);
    if rows.Ok? {
      if u.ingredients.Some? {
        JoinRowsValid(db, instance.id, u.ingredients.value);
      }
      assert instance.id in RecipeIds(cleared.recipes);
      AppendRowsKeepsConsistent(cleared, rows.value);
      var tags := if u.tags.Some? then TagSet(u.tags.value) else instance.tags;
      var rec := ApplyScalars(instance.(tags := tags), u);
      WithRecordKeepsConsistent(cleared.(ingredientRows := cleared.ingredientRows + rows.value), rec);
    }
  }

  const Cook := User(1, "cook@example.org", "cook", "Ann", "Cook")
  const Flour := Ingredient(1, "мука", "г")
  const Salt := Ingredient(2, "соль", "г")
  const Pancakes := Recipe(1, "Блины", "Жарить", 1, "pancakes.png", 20, {})
  const Bread := Recipe(2, "Хлеб", "Печь", 1, "bread.png", 60, {})
  const BreadFlour := IngredientInRecipe(2, 1, 500)
  /** Two recipes listing flour. */
  const TwoRecipes := Db([Cook], [], [], [Flour, Salt], [Pancakes, Bread],
    [IngredientInRecipe(1, 1, 200), BreadFlour], [], [], 3)
  /** Rewrite the first recipe's ingredients as salt only. */
  const SaltOnly := RecipeUpdate(None, Some([IngredientEntry(2, Some(5))]), None, None, None, None)

  /** Rewriting the pancakes as salt only succeeds, yet takes the bread's
      flour row and the flour catalogue row with it. */
  lemma SharedIngredientExample()
    ensures Update(TwoRecipes, Pancakes, SaltOnly).result.Ok?
    ensures BreadFlour !in Update(TwoRecipes, Pancakes, SaltOnly).db.ingredientRows
    ensures Flour !in Update(TwoRecipes, Pancakes, SaltOnly).db.ingredients
  {
    var db := TwoRecipes;
    var linked := LinkedIngredients(db.ingredientRows, 1);
    assert db.ingredientRows[0] == IngredientInRecipe(1, 1, 200);
    assert 1 in linked;
    assert 2 !in linked;
    var d := DeleteIngredients(db, linked);
    assert Salt in db.ingredients;
    assert Salt in d.ingredients;
    var rows := JoinRows(1, SaltOnly.ingredients.value).value;
    assert SaltOnly.ingredients.value[0] == IngredientEntry(2, Some(5));
    assert rows == [IngredientInRecipe(1, 2, 5)];
    assert !DanglingIngredient(d, rows);
    UpdateStripsSharedRows(db, Pancakes, SaltOnly, BreadFlour);
  }

  /** The intended update of the same example leaves the bread's row and the
      catalogue alone. */
  lemma SharedIngredientIntendedExample()
    ensures BreadFlour in UpdateIntended(TwoRecipes, Pancakes, SaltOnly).db.ingredientRows
    ensures Flour in UpdateIntended(TwoRecipes, Pancakes, SaltOnly).db.ingredients
  {
    UpdateIntendedSpec(TwoRecipes, Pancakes, SaltOnly);
    assert BreadFlour in TwoRecipes.ingredientRows;
  }

  /** Renaming a recipe through update returns the new name while the
      stored row keeps the old one; the intended update stores it. */
  lemma RenameNotStoredExample()
    ensures var cook := User(1, "cook@example.org", "cook", "Ann", "Cook");
      var pancakes := Recipe(1, "Блины", "Жарить", 1, "pancakes.png", 20, {});
      var db := Db([cook], [], [], [], [pancakes], [], [], [], 2);
      var u := RecipeUpdate(None, None, Some("Оладьи"), None, None, None);
      && Update(db, pancakes, u).result == Ok(pancakes.(name := "Оладьи"))
      && Update(db, pancakes, u).db.recipes == [pancakes]
      && UpdateIntended(db, pancakes, u).db.recipes == [pancakes.(name := "Оладьи")]
  {
    var pancakes := Recipe(1, "Блины", "Жарить", 1, "pancakes.png", 20, {});
    var u := RecipeUpdate(None, None, Some("Оладьи"), None, None, None);
    assert WithRecord([pancakes], ApplyScalars(pancakes, u)) == [pancakes.(name := "Оладьи")];
  }
}
