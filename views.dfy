/** The view logic: the recipe list's query filter, the favourite, cart and
    follow toggles, and the shopping-list download. */
module Views {
  import opened Seqs
  import opened Ordering
  import opened UserModels
  import opened RecipeModels
  import opened Permissions
  import opened ApiErrors
  import opened Database
  import opened Serializers
  import opened ShoppingList

  // ----- Lookups -----

  /** `get_object_or_404(Recipe, pk=id)`, with `None` standing for the 404. */
  function FindRecipe(recipes: seq<Recipe>, id: RecipeId): (r: Option<Recipe>)
    ensures r.Some? ==> r.value in recipes && r.value.id == id
    ensures r.None? ==> id !in RecipeIds(recipes)
  {
    if recipes == [] then None
    else if recipes[0].id == id then Some(recipes[0])
    else FindRecipe(recipes[1..], id)
  }

  /** `get_object_or_404(User, id=id)`. */
  function FindUser(users: seq<User>, id: UserId): (r: Option<User>)
    ensures r.Some? ==> r.value in users && r.value.id == id
    ensures r.None? ==> id !in UserIds(users)
  {
    if users == [] then None
    else if users[0].id == id then Some(users[0])
    else FindUser(users[1..], id)
  }

  // ----- The recipe list -----

  /** The query parameters the list reads. `tags` is what `getlist` returns:
      the empty list when the parameter is absent. */
  datatype QueryParams = QueryParams(
    isFavorited: Option<string>, isInShoppingCart: Option<string>, tags: seq<string>, author: Option<int>)

  /** The recipes a favourite or cart table pairs with `user`. */
  function RelatedRecipes(rows: seq<UserRecipe>, user: UserId): set<RecipeId>
  {
    set p | p in rows && p.user == user :: p.recipe
  }

  /** The tags whose slug was asked for (`slug__in=tags`). */
  function TagsBySlug(tags: seq<Tag>, slugs: seq<string>): set<TagId>
  {
    set t | t in tags && t.slug in slugs :: t.id
  }

  /** One `'1'`/`'0'` flag: `'1'` keeps the related recipes, `'0'` the
      others, any other value or none keeps all. */
  predicate FlagKeeps(flag: Option<string>, related: set<RecipeId>, id: RecipeId)
  {
    (flag == Some("1") ==> id in related) && (flag == Some("0") ==> id !in related)
  }

  /** Whether recipe `x` survives the favourite, tag and author filters of
      `get_queryset` for signed-in user `user`. */
  predicate Keeps(db: Db, user: UserId, q: QueryParams, x: Recipe)
  {
    && FlagKeeps(q.isFavorited, RelatedRecipes(db.favorites, user), x.id)
    && x.tags * TagsBySlug(db.tags, q.tags) != {}
    && (q.author.Some? ==> x.author == q.author.value)
  }

  function KeepFilter(db: Db, user: UserId, q: QueryParams): Recipe -> bool
  {
    (x: Recipe) => Keeps(db, user, q, x)
  }

  /** The cart flag asks for a filter: `'1'` or `'0'`. */
  predicate CartFlagSet(q: QueryParams)
  {
    q.isInShoppingCart == Some("1") || q.isInShoppingCart == Some("0")
  }

  /** `RecipeViewSet.get_queryset` as written. An anonymous requester makes
      the favourite lookup by user raise before any filter applies. The cart
      filter names `shopping_cart`, but the cart's foreign key to the recipe
      declares no related name, so the recipe's reverse relation is
      `shoppingcart` and building either cart filter raises. The tag filter
      always applies. */
  function RecipeList(db: Db, requester: Requester, q: QueryParams): (r: Result<seq<Recipe>, ApiError>)
    ensures r.Err? <==> requester.Anonymous? || CartFlagSet(q)
    ensures requester.Anonymous? ==> r == Err(TypeError)
    ensures requester.Member? && CartFlagSet(q) ==> r == Err(FieldError)
    ensures r.Ok? ==> Ordered(r.value, RecipeNameLe)
    ensures r.Ok? ==> forall x :: x in r.value <==> x in db.recipes && Keeps(db, requester.id, q, x)
    ensures r.Ok? ==> forall x :: multiset(r.value)[x] == if Keeps(db, requester.id, q, x) then multiset(db.recipes)[x] else 0
  {
    if requester.Anonymous? then Err(TypeError)
    else if CartFlagSet(q) then Err(FieldError)
    else
      var sorted := OrderedRecipes(db.recipes);
      FilterKeepsOrder(sorted, KeepFilter(db, requester.id, q), RecipeNameLe);
      FilterCounts(sorted, KeepFilter(db, requester.id, q));
      Ok(Filter(sorted, KeepFilter(db, requester.id, q)))
  }

  /** What one flag leaves of the recipe ids `all`. */
  function FlagSet(flag: Option<string>, related: set<RecipeId>, all: set<RecipeId>): set<RecipeId>
  {
    if flag == Some("1") then all * related
    else if flag == Some("0") then all - related
    else all
  }

  function TaggedIds(recipes: seq<Recipe>, tags: set<TagId>): set<RecipeId>
  {
    set x | x in recipes && x.tags * tags != {} :: x.id
  }

  function AuthorIds(recipes: seq<Recipe>, author: Option<int>): set<RecipeId>
  {
    set x | x in recipes && (author.Some? ==> x.author == author.value) :: x.id
  }

  /** Whenever the list is built, its recipe ids are the intersection of
      one set per filter. */
  lemma RecipeListIsIntersection(db: Db, user: UserId, q: QueryParams)
    requires RecipeIdsDistinct(db.recipes)
    ensures !CartFlagSet(q) ==> var all := RecipeIds(db.recipes);
      RecipeIds(RecipeList(db, Member(user), q).value) ==
        FlagSet(q.isFavorited, RelatedRecipes(db.favorites, user), all)
        * TaggedIds(db.recipes, TagsBySlug(db.tags, q.tags))
        * AuthorIds(db.recipes, q.author)
  {
    if !CartFlagSet(q) {
      var listed := RecipeList(db, Member(user), q).value;
      forall k | k in RecipeIds(listed) ensures k in IntersectionIds(db, user, q) {
        var x :| x in listed && x.id == k;
        ListedInIntersection(db, user, q, x);
      }
      forall k | k in IntersectionIds(db, user, q) ensures k in RecipeIds(listed) {
        IntersectionListed(db, user, q, k);
      }
    }
  }

  /** The right-hand side of the intersection. */
  function IntersectionIds(db: Db, user: UserId, q: QueryParams): set<RecipeId>
  {
    var all := RecipeIds(db.recipes);
    FlagSet(q.isFavorited, RelatedRecipes(db.favorites, user), all)
      * TaggedIds(db.recipes, TagsBySlug(db.tags, q.tags))
      * AuthorIds(db.recipes, q.author)
  }

  /** A flag's set is the ids it keeps. */
  lemma FlagSetMeans(flag: Option<string>, related: set<RecipeId>, all: set<RecipeId>, k: RecipeId)
    ensures k in FlagSet(flag, related, all) <==> k in all && FlagKeeps(flag, related, k)
  {
  }

  lemma ListedInIntersection(db: Db, user: UserId, q: QueryParams, x: Recipe)
    requires !CartFlagSet(q)
    requires x in RecipeList(db, Member(user), q).value
    ensures x.id in IntersectionIds(db, user, q)
  {
    assert x in db.recipes && Keeps(db, user, q, x);
    assert x.id in RecipeIds(db.recipes);
    FlagSetMeans(q.isFavorited, RelatedRecipes(db.favorites, user), RecipeIds(db.recipes), x.id);
    assert x.id in TaggedIds(db.recipes, TagsBySlug(db.tags, q.tags));
    assert x.id in AuthorIds(db.recipes, q.author);
  }

  lemma IntersectionListed(db: Db, user: UserId, q: QueryParams, k: RecipeId)
    requires RecipeIdsDistinct(db.recipes)
    requires !CartFlagSet(q)
    requires k in IntersectionIds(db, user, q)
    ensures k in RecipeIds(RecipeList(db, Member(user), q).value)
  {
    var all := RecipeIds(db.recipes);
    var x :| x in db.recipes && x.tags * TagsBySlug(db.tags, q.tags) != {} && x.id == k;
    var y :| y in db.recipes && (q.author.Some? ==> y.author == q.author.value) && y.id == k;
    SameIdSameRecipe(db.recipes, x, y);
    FlagSetMeans(q.isFavorited, RelatedRecipes(db.favorites, user), all, k);
    assert Keeps(db, user, q, x);
    assert x in RecipeList(db, Member(user), q).value;
  }

  lemma SameIdSameRecipe(recipes: seq<Recipe>, x: Recipe, y: Recipe)
    requires RecipeIdsDistinct(recipes)
    requires x in recipes && y in recipes && x.id == y.id
    ensures x == y
  {
    var i :| 0 <= i < |recipes| && recipes[i] == x;
    var j :| 0 <= j < |recipes| && recipes[j] == y;
    assert i == j;
  }

  /** Without a `tags` parameter a signed-in user's list is empty, unless
      the cart flag made it fail first. */
  lemma NoTagsNoRecipes(db: Db, user: UserId, q: QueryParams)
    requires q.tags == []
    ensures RecipeList(db, Member(user), q) == if CartFlagSet(q) then Err(FieldError) else Ok([])
  {
    assert TagsBySlug(db.tags, q.tags) == {};
    FilterNone(OrderedRecipes(db.recipes), KeepFilter(db, user, q));
  }

  /** The list the view evidently means: an anonymous visitor has no
      favourites and no cart, and the tag filter applies only when tags were
      asked for. */
  function RecipeListIntended(db: Db, requester: Requester, q: QueryParams): (r: seq<Recipe>)
    ensures Ordered(r, RecipeNameLe)
    ensures forall x :: x in r <==> x in db.recipes && KeepsIntended(db, requester, q, x)
    ensures forall x :: multiset(r)[x] == if KeepsIntended(db, requester, q, x) then multiset(db.recipes)[x] else 0
  {
    var sorted := OrderedRecipes(db.recipes);
    var keep := (x: Recipe) => KeepsIntended(db, requester, q, x);
    FilterKeepsOrder(sorted, keep, RecipeNameLe);
    FilterCounts(sorted, keep);
    Filter(sorted, keep)
  }

  predicate KeepsIntended(db: Db, requester: Requester, q: QueryParams, x: Recipe)
  {
    var favorites := if requester.Member? then RelatedRecipes(db.favorites, requester.id) else {};
    var carts := if requester.Member? then RelatedRecipes(db.carts, requester.id) else {};
    && FlagKeeps(q.isFavorited, favorites, x.id)
    && FlagKeeps(q.isInShoppingCart, carts, x.id)
    && (q.tags != [] ==> x.tags * TagsBySlug(db.tags, q.tags) != {})
    && (q.author.Some? ==> x.author == q.author.value)
  }

  /** The intended list agrees with the list as written whenever a signed-in
      user asks for some tags and sets no cart flag; with no parameters at
      all it lists every recipe, where the list as written lists none. */
  lemma RecipeListIntendedAgrees(db: Db, requester: Requester, q: QueryParams)
    ensures requester.Member? && q.tags != [] && !CartFlagSet(q) ==>
      RecipeList(db, requester, q) == Ok(RecipeListIntended(db, requester, q))
    ensures q == QueryParams(None, None, [], None) ==> RecipeListIntended(db, requester, q) == OrderedRecipes(db.recipes)
  {
    var sorted := OrderedRecipes(db.recipes);
    if requester.Member? && q.tags != [] && !CartFlagSet(q) {
      FilterSameOnSame(sorted, KeepFilter(db, requester.id, q), (x: Recipe) => KeepsIntended(db, requester, q, x));
    }
    if q == QueryParams(None, None, [], None) {
      FilterAll(sorted, (x: Recipe) => KeepsIntended(db, requester, q, x));
    }
  }

  /** One breakfast recipe in the cart of user 1. */
  const CartStore := Db(
    [User(1, "cook@example.org", "cook", "Ann", "Cook")],
    [],
    [Tag(1, "Завтрак", "#E26C2D", "breakfast")],
    [],
    [Recipe(1, "Каша", "Варить", 1, "kasha.png", 10, {1})],
    [],
    [],
    [UserRecipe(1, 1)],
    2)

  /** Asking for the cart's breakfast recipes fails as written, where the
      corrected list returns the one recipe in the cart. */
  lemma CartFilterExample()
    ensures var q := QueryParams(None, Some("1"), ["breakfast"], None);
      && RecipeList(CartStore, Member(1), q) == Err(FieldError)
      && RecipeListIntended(CartStore, Member(1), q) == CartStore.recipes
  {
    var db := CartStore;
    var q := QueryParams(None, Some("1"), ["breakfast"], None);
    var x := db.recipes[0];
    assert OrderedRecipes(db.recipes) == [x] by {
      var o := OrderedRecipes(db.recipes);
      assert |o| == |multiset(o)| == 1;
      assert o[0] in multiset(o);
    }
    assert 1 in RelatedRecipes(db.carts, 1) by { assert db.carts[0] in db.carts; }
    assert 1 in TagsBySlug(db.tags, q.tags) by { assert db.tags[0] in db.tags && db.tags[0].slug in q.tags; }
    assert 1 in x.tags * TagsBySlug(db.tags, q.tags);
    assert KeepsIntended(db, Member(1), q, x);
    assert Filter([x], (y: Recipe) => KeepsIntended(db, Member(1), q, y)) == [x];
  }

  lemma {:induction false} FilterSameOnSame<T(!new)>(s: seq<T>, p: T -> bool, p': T -> bool)
    requires forall x :: x in s ==> p(x) == p'(x)
    ensures Filter(s, p) == Filter(s, p')
  {
    if s != [] {
      assert s[0] in s;
      assert forall x :: x in s[1..] ==> x in s;
      FilterSameOnSame(s[1..], p, p');
    }
  }

  lemma {:induction false} FilterNone<T(!new)>(s: seq<T>, p: T -> bool)
    requires forall x :: x in s ==> !p(x)
    ensures Filter(s, p) == []
  {
    if s != [] {
      assert s[0] in s;
      assert forall x :: x in s[1..] ==> x in s;
      FilterNone(s[1..], p);
    }
  }

  lemma {:induction false} FilterAll<T(!new)>(s: seq<T>, p: T -> bool)
    requires forall x :: x in s ==> p(x)
    ensures Filter(s, p) == s
  {
    if s != [] {
      assert s[0] in s;
      assert forall x :: x in s[1..] ==> x in s;
      FilterAll(s[1..], p);
      assert [s[0]] + s[1..] == s;
    }
  }

  // ----- Toggles -----

  /** Why a toggle refused: the pair is there already (add), is not there
      (remove), or is there more than once so `.get()` raised (remove). */
  datatype ToggleError = AlreadyPresent | Absent | Ambiguous

  /** Adding a pair after the `exists()` check. */
  function AddPair<T(==)>(rows: seq<T>, x: T): (r: Result<seq<T>, ToggleError>)
    ensures r.Ok? <==> x !in rows
    ensures r.Ok? ==> r.value == rows + [x]
    ensures r.Err? ==> r.error == AlreadyPresent
  {
    if x in rows then Err(AlreadyPresent) else Ok(rows + [x])
  }

  /** Removing a pair: the `exists()` check, then `.get()`, which raises
      unless exactly one row matches, then `delete()` of that row. */
  function RemovePair<T(==)>(rows: seq<T>, x: T): (r: Result<seq<T>, ToggleError>)
    ensures r.Ok? <==> multiset(rows)[x] == 1
    ensures x !in rows ==> r == Err(Absent)
    ensures multiset(rows)[x] > 1 ==> r == Err(Ambiguous)
    ensures r.Ok? ==> x !in r.value && multiset(r.value) == multiset(rows) - multiset{x}
  {
    if x !in rows then Err(Absent)
    else if multiset(rows)[x] > 1 then Err(Ambiguous)
    else
      RemoveSingle(rows, x);
      Ok(RemoveFirst(rows, x))
  }

  function Toggle<T(==)>(rows: seq<T>, x: T, verb: HttpMethod): Result<seq<T>, ToggleError>
  {
    if verb == POST then AddPair(rows, x) else RemovePair(rows, x)
  }

  /** Removing right after adding gives the table back as it was. */
  lemma AddThenRemoveRestores<T>(rows: seq<T>, x: T)
    requires AddPair(rows, x).Ok?
    ensures RemovePair(AddPair(rows, x).value, x) == Ok(rows)
  {
    var added := rows + [x];
    assert AddPair(rows, x).value == added && x !in rows;
    assert multiset(added)[x] == 1 by {
      assert multiset(rows)[x] == 0;
      assert multiset(added) == multiset(rows) + multiset{x};
    }
    RemoveAfterAppend(rows, x);
    assert RemovePair(added, x) == Ok(RemoveFirst(added, x));
  }

  /** Adding the same pair twice is refused the second time, and removing
      after a removal finds nothing. */
  lemma ToggleTwiceRefused<T>(rows: seq<T>, x: T)
    ensures AddPair(rows, x).Ok? ==> AddPair(AddPair(rows, x).value, x) == Err(AlreadyPresent)
    ensures RemovePair(rows, x).Ok? ==> RemovePair(RemovePair(rows, x).value, x) == Err(Absent)
  {
    if AddPair(rows, x).Ok? {
      assert (rows + [x])[|rows|] == x;
    }
  }

  /** A table without repeated rows. */
  ghost predicate NoDuplicates<T>(rows: seq<T>)
  {
    forall i, j :: 0 <= i < j < |rows| ==> rows[i] != rows[j]
  }

  /** The toggles keep a table free of repeated rows, and on such a table a
      removal never finds two rows. */
  lemma TogglesKeepNoDuplicates<T>(rows: seq<T>, x: T, verb: HttpMethod)
    requires NoDuplicates(rows)
    ensures Toggle(rows, x, verb).Ok? ==> NoDuplicates(Toggle(rows, x, verb).value)
    ensures RemovePair(rows, x) != Err(Ambiguous)
  {
    NoDuplicatesCounts(rows);
    var t := Toggle(rows, x, verb);
    if t.Ok? {
      var r := t.value;
      forall y ensures multiset(r)[y] <= 1 {
        if verb == POST {
          assert multiset(r) == multiset(rows) + multiset{x};
        }
      }
      CountsNoDuplicates(r);
    }
  }

  lemma NoDuplicatesCounts<T>(rows: seq<T>)
    requires NoDuplicates(rows)
    ensures forall y :: multiset(rows)[y] <= 1
  {
    if rows != [] {
      var t := rows[1..];
      assert rows == [rows[0]] + t;
      assert NoDuplicates(t) by {
        forall i, j | 0 <= i < j < |t| ensures t[i] != t[j] {
          assert t[i] == rows[i + 1] && t[j] == rows[j + 1];
        }
      }
      NoDuplicatesCounts(t);
      assert rows[0] !in t by {
        forall k | 0 <= k < |t| ensures t[k] != rows[0] {
          assert t[k] == rows[k + 1];
        }
      }
    }
  }

  lemma CountsNoDuplicates<T>(rows: seq<T>)
    requires forall y :: multiset(rows)[y] <= 1
    ensures NoDuplicates(rows)
  {
    forall i, j | 0 <= i < j < |rows| ensures rows[i] != rows[j] {
      TwoPositionsCount(rows, i, j);
    }
  }

  /** Equal elements at two positions occur at least twice. */
  lemma TwoPositionsCount<T>(rows: seq<T>, i: nat, j: nat)
    requires i < j < |rows|
    ensures rows[i] == rows[j] ==> multiset(rows)[rows[i]] >= 2
  {
    var x := rows[i];
    assert rows == rows[..i] + [x] + rows[i + 1..j] + [rows[j]] + rows[j + 1..];
    assert multiset(rows) == multiset(rows[..i]) + multiset{x} + multiset(rows[i + 1..j]) + multiset{rows[j]} + multiset(rows[j + 1..]);
  }

  /** The flags the recipe and user serializers show follow the toggles: on
      after an add, off after a removal. */
  lemma FlagsFollowToggles(store: Db, user: UserId, recipe: RecipeId, author: UserId)
    ensures var p := UserRecipe(user, recipe);
      && (AddPair(store.favorites, p).Ok? ==> IsFavorited(AddPair(store.favorites, p).value, Member(user), recipe))
      && (RemovePair(store.favorites, p).Ok? ==> !IsFavorited(RemovePair(store.favorites, p).value, Member(user), recipe))
      && (AddPair(store.carts, p).Ok? ==> IsInBasket(AddPair(store.carts, p).value, Member(user), recipe))
      && (RemovePair(store.carts, p).Ok? ==> !IsInBasket(RemovePair(store.carts, p).value, Member(user), recipe))
    ensures var f := Follow(user, author);
      && (AddPair(store.follows, f).Ok? ==> IsSubscribed(AddPair(store.follows, f).value, Member(user), author))
      && (RemovePair(store.follows, f).Ok? ==> !IsSubscribed(RemovePair(store.follows, f).value, Member(user), author))
  {
    var p := UserRecipe(user, recipe);
    var f := Follow(user, author);
    assert (store.favorites + [p])[|store.favorites|] == p;
    assert (store.carts + [p])[|store.carts|] == p;
    assert (store.follows + [f])[|store.follows|] == f;
  }

  const FavoriteExists := "Рецепт уже добавлен в избранное"
  const FavoriteMissing := "Рецепт не был добавлен в избранное"
  const CartExists := "Рецепт уже добавлен в список покупок"
  const CartMissing := "Рецепт не был добавлен в список покупок"

  /** The error response a recipe toggle sends for a refusal. */
  function RecipeToggleFailure(e: ToggleError, exists_: string, missing: string): ApiError
  {
    match e
    case AlreadyPresent => ErrorResponse(exists_)
    case Absent => ErrorResponse(missing)
    case Ambiguous => MultipleObjectsReturned
  }

  /** What a toggle view sends back on success. */
  datatype Reply = RecipeAdded(recipe: RecipeSummary) | Followed(author: FollowView) | Removed

  /** What is left after a removal was all there before. */
  lemma SubsetMembers<T>(rest: seq<T>, rows: seq<T>, x: T)
    requires multiset(rest) == multiset(rows) - multiset{x}
    ensures forall y :: y in rest ==> y in rows
  {
    forall y | y in rest ensures y in rows {
      assert y in multiset(rest);
      assert multiset(rest) <= multiset(rows);
    }
  }

  /** The rows a favourite or cart table may hold in a consistent store. */
  lemma PairsKeepConsistent(db: Db, favorites: seq<UserRecipe>, carts: seq<UserRecipe>)
    requires Consistent(db)
    requires forall p :: p in favorites ==> p.user in UserIds(db.users) && p.recipe in RecipeIds(db.recipes)
    requires forall p :: p in carts ==> p.user in UserIds(db.users) && p.recipe in RecipeIds(db.recipes)
    ensures Consistent(db.(favorites := favorites, carts := carts))
  {
  }

  /** `favorite`: POST adds the (user, recipe) favourite unless it is there;
      DELETE removes it when it is there exactly once. Nothing but the
      favourite table changes. */
  method Favorite(store: Store, user: UserId, recipeId: RecipeId, verb: HttpMethod) returns (r: Result<Reply, ApiError>)
    requires verb == POST || verb == DELETE
    requires store.Valid()
    requires user in UserIds(store.users)
    modifies store
    ensures store.Valid()
    ensures store.Snapshot() == old(store.Snapshot()).(favorites := store.favorites)
    ensures FindRecipe(old(store.recipes), recipeId).None? ==> r == Err(NotFound) && store.favorites == old(store.favorites)
    ensures FindRecipe(old(store.recipes), recipeId).Some? ==>
      var t := Toggle(old(store.favorites), UserRecipe(user, recipeId), verb);
      && (t.Ok? ==> (store.favorites == t.value
            && r == Ok(if verb == POST then RecipeAdded(Summary(FindRecipe(old(store.recipes), recipeId).value)) else Removed)))
      && (t.Err? ==> (store.favorites == old(store.favorites)
            && r == Err(RecipeToggleFailure(t.error, FavoriteExists, FavoriteMissing))))
  {
    var recipe := FindRecipe(store.recipes, recipeId);
    if recipe.None? {
      return Err(NotFound);
    }
    var pair := UserRecipe(user, recipeId);
    if verb == POST {
      if pair in store.favorites {
        return Err(ErrorResponse(FavoriteExists));
      }
      PairsKeepConsistent(store.Snapshot(), store.favorites + [pair], store.carts);
      store.favorites := store.favorites + [pair];
      return Ok(RecipeAdded(Summary(recipe.value)));
    }
    if pair in store.favorites {
      if multiset(store.favorites)[pair] > 1 {
        return Err(MultipleObjectsReturned);
      }
      var rest := RemoveFirst(store.favorites, pair);
      SubsetMembers(rest, store.favorites, pair);
      PairsKeepConsistent(store.Snapshot(), rest, store.carts);
      store.favorites := rest;
      return Ok(Removed);
    }
    return Err(ErrorResponse(FavoriteMissing));
  }

  /** `shopping_card`: the same toggle over the cart table. Nothing but the
      cart table changes; in particular the favourites stay as they were. */
  method ShoppingCard(store: Store, user: UserId, recipeId: RecipeId, verb: HttpMethod) returns (r: Result<Reply, ApiError>)
    requires verb == POST || verb == DELETE
    requires store.Valid()
    requires user in UserIds(store.users)
    modifies store
    ensures store.Valid()
    ensures store.Snapshot() == old(store.Snapshot()).(carts := store.carts)
    ensures FindRecipe(old(store.recipes), recipeId).None? ==> r == Err(NotFound) && store.carts == old(store.carts)
    ensures FindRecipe(old(store.recipes), recipeId).Some? ==>
      var t := Toggle(old(store.carts), UserRecipe(user, recipeId), verb);
      && (t.Ok? ==> (store.carts == t.value
            && r == Ok(if verb == POST then RecipeAdded(Summary(FindRecipe(old(store.recipes), recipeId).value)) else Removed)))
      && (t.Err? ==> (store.carts == old(store.carts)
            && r == Err(RecipeToggleFailure(t.error, CartExists, CartMissing))))
  {
    var recipe := FindRecipe(store.recipes, recipeId);
    if recipe.None? {
      return Err(NotFound);
    }
    var pair := UserRecipe(user, recipeId);
    if verb == POST {
      if pair in store.carts {
        return Err(ErrorResponse(CartExists));
      }
      PairsKeepConsistent(store.Snapshot(), store.favorites, store.carts + [pair]);
      store.carts := store.carts + [pair];
      return Ok(RecipeAdded(Summary(recipe.value)));
    }
    if pair in store.carts {
      if multiset(store.carts)[pair] > 1 {
        return Err(MultipleObjectsReturned);
      }
      var rest := RemoveFirst(store.carts, pair);
      SubsetMembers(rest, store.carts, pair);
      PairsKeepConsistent(store.Snapshot(), store.favorites, rest);
      store.carts := rest;
      return Ok(Removed);
    }
    return Err(ErrorResponse(CartMissing));
  }

  /** The follow rows a consistent store may hold. */
  lemma FollowsKeepConsistent(db: Db, follows: seq<Follow>)
    requires Consistent(db)
    requires forall f :: f in follows ==> f.user in UserIds(db.users) && f.author in UserIds(db.users)
    ensures Consistent(db.(follows := follows))
  {
  }

  /** `subscribe`: POST validates, stores the follow and answers with the
      author as `FollowSerializer` shows it, read after the insert; DELETE
      looks the follow up with `get_object_or_404` and deletes it. Nothing
      but the follow table changes. */
  method Subscribe(store: Store, user: UserId, authorId: UserId, verb: HttpMethod) returns (r: Result<Reply, ApiError>)
    requires verb == POST || verb == DELETE
    requires store.Valid()
    requires user in UserIds(store.users)
    modifies store
    ensures store.Valid()
    ensures store.Snapshot() == old(store.Snapshot()).(follows := store.follows)
    ensures FindUser(old(store.users), authorId).None? ==> r == Err(NotFound) && store.follows == old(store.follows)
    ensures FindUser(old(store.users), authorId).Some? && verb == POST ==>
      var refusal := ValidateFollow(old(store.follows), user, authorId);
      && (refusal.Some? ==> r == Err(refusal.value) && store.follows == old(store.follows))
      && (refusal.None? ==> (store.follows == old(store.follows) + [Follow(user, authorId)]
            && r == Ok(Followed(FollowData(store.Snapshot(), Member(user), FindUser(old(store.users), authorId).value)))))
    ensures FindUser(old(store.users), authorId).Some? && verb == DELETE ==>
      var t := RemovePair(old(store.follows), Follow(user, authorId));
      && (t.Ok? ==> store.follows == t.value && r == Ok(Removed))
      && (t.Err? ==> (store.follows == old(store.follows)
            && r == Err(if t.error == Absent then NotFound else MultipleObjectsReturned)))
  {
    var author := FindUser(store.users, authorId);
    if author.None? {
      return Err(NotFound);
    }
    var follow := Follow(user, authorId);
    if verb == POST {
      var refusal := ValidateFollow(store.follows, user, authorId);
      if refusal.Some? {
        return Err(refusal.value);
      }
      FollowsKeepConsistent(store.Snapshot(), store.follows + [follow]);
      store.follows := store.follows + [follow];
      return Ok(Followed(FollowData(store.Snapshot(), Member(user), author.value)));
    }
    if follow !in store.follows {
      return Err(NotFound);
    }
    if multiset(store.follows)[follow] > 1 {
      return Err(MultipleObjectsReturned);
    }
    var rest := RemoveFirst(store.follows, follow);
    SubsetMembers(rest, store.follows, follow);
    FollowsKeepConsistent(store.Snapshot(), rest);
    store.follows := rest;
    r := Ok(Removed);
  }

  /** The answer to a successful subscribe shows the author as subscribed. */
  lemma SubscribeAnswerShowsSubscribed(db: Db, user: UserId, author: User)
    requires ValidateFollow(db.follows, user, author.id).None?
    ensures FollowData(db.(follows := db.follows + [Follow(user, author.id)]), Member(user), author).isSubscribed
  {
    assert (db.follows + [Follow(user, author.id)])[|db.follows|] == Follow(user, author.id);
  }

  // ----- The shopping list download -----

  /** `download_shopping_cart`: the query's rows are rendered one line each
      after the header and the pieces joined into the response body. A cart
      recipe without ingredients yields a row whose name is NULL, and
      capitalizing it raises. */
  method DownloadShoppingCart(store: Store, user: UserId) returns (r: Result<string, ApiError>)
    ensures r.Err? <==> HasBareCartRecipe(store.Snapshot(), user)
    ensures r.Err? ==> r.error == AttributeError
    ensures r.Ok? ==> r.value == ShoppingListText(ShoppingGroups(store.Snapshot(), user))
  {
    if HasBareCartRecipe(store.Snapshot(), user) {
      return Err(AttributeError);
    }
    var text := RenderShoppingList(ShoppingGroups(store.Snapshot(), user));
    return Ok(text);
  }

  /** The loop of `download_shopping_cart`: the header, then one line
      appended per group, joined into one text. */
  method RenderShoppingList(groups: seq<Group>) returns (text: string)
    ensures text == ShoppingListText(groups)
  {
    var shoppingList := [Header];
    for i := 0 to |groups|
      invariant Concat(shoppingList) == ShoppingListText(groups[..i])
    {
      RenderStep(shoppingList, groups, i);
      shoppingList := shoppingList + [Line(groups[i])];
    }
    assert groups[..|groups|] == groups;
    text := Concat(shoppingList);
  }

  /** One turn of that loop keeps the joined pieces equal to the document
      for the groups seen so far. */
  lemma RenderStep(pieces: seq<string>, groups: seq<Group>, i: nat)
    requires i < |groups|
    requires Concat(pieces) == ShoppingListText(groups[..i])
    ensures Concat(pieces + [Line(groups[i])]) == ShoppingListText(groups[..i + 1])
  {
    var seen, g := groups[..i], groups[i];
    assert groups[..i + 1] == seen + [g];
    ShoppingListTextAppend(seen, g);
    ConcatAppend(pieces, Line(g));
  }

  /** A user whose cart is empty downloads the header alone. */
  lemma EmptyCartDocument(db: Db, user: UserId)
    requires forall p :: p in db.carts ==> p.user != user
    ensures !HasBareCartRecipe(db, user)
    ensures ShoppingListText(ShoppingGroups(db, user)) == Header
  {
    EmptyCartNoGroups(db, user);
    ShoppingListTextShape([]);
  }
}
