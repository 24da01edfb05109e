/** The store the ORM persists to, as one object whose fields are the
    tables. The API's operations change these fields in place. */
module Database {
  import opened RecipeModels
  import opened UserModels

  class Store {
    var users: seq<User>
    var follows: seq<Follow>
    var tags: seq<Tag>
    var ingredients: seq<Ingredient>
    var recipes: seq<Recipe>
    var ingredientRows: seq<IngredientInRecipe>
    var favorites: seq<UserRecipe>
    var carts: seq<UserRecipe>
    var recipeSeq: nat

    /** The current contents of every table. */
    function Snapshot(): Db
      reads this
    {
      Db(users, follows, tags, ingredients, recipes, ingredientRows, favorites, carts, recipeSeq)
    }

    ghost predicate Valid()
      reads this
    {
      Consistent(Snapshot())
    }

    /** An empty database whose recipe ids start at 1. */
    constructor ()
      ensures Valid()
      ensures Snapshot() == Db([], [], [], [], [], [], [], [], 1)
    {
      users, follows, tags, ingredients := [], [], [], [];
      recipes, ingredientRows, favorites, carts := [], [], [], [];
      recipeSeq := 1;
    }
  }
}
