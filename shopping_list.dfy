/** What the shopping-cart query computes: every ingredient row of every
    cart recipe of a user, grouped by (ingredient name, measurement unit)
    with the amounts summed, ordered by name; and the text document the
    view renders from those groups. */
module ShoppingList {
  import opened Seqs
  import opened Ordering
  import opened Text
  import opened UserModels
  import opened RecipeModels

  /** One contributing row: an ingredient's name and unit with the amount
      one recipe lists. */
  datatype Item = Item(name: string, unit: string, amount: int)

  /** One output row of the query: a (name, unit) key and its summed amount. */
  datatype Group = Group(name: string, unit: string, total: int)

  function FindIngredient(ingredients: seq<Ingredient>, id: IngredientId): (r: Option<Ingredient>)
    ensures r.Some? ==> r.value in ingredients && r.value.id == id
    ensures r.None? ==> id !in IngredientIds(ingredients)
  {
    if ingredients == [] then None
    else if ingredients[0].id == id then Some(ingredients[0])
    else FindIngredient(ingredients[1..], id)
  }

  /** The items one join row list contributes for recipe `recipe`. */
  function RowItems(ingredients: seq<Ingredient>, rows: seq<IngredientInRecipe>, recipe: RecipeId): seq<Item>
  {
    if rows == [] then []
    else
      var x := rows[0];
      var rest := RowItems(ingredients, rows[1..], recipe);
      if x.recipe == recipe then
        match FindIngredient(ingredients, x.ingredient)
        case Some(i) => [Item(i.name, i.measurementUnit, x.amount)] + rest
        case None => rest
      else rest
  }

  /** The items of the cart rows `carts` that belong to `user`, one block of
      recipe items per cart row (a recipe in the cart twice counts twice). */
  function CartRowItems(db: Db, carts: seq<UserRecipe>, user: UserId): seq<Item>
  {
    if carts == [] then []
    else
      var here := if carts[0].user == user then RowItems(db.ingredients, db.ingredientRows, carts[0].recipe) else [];
      here + CartRowItems(db, carts[1..], user)
  }

  function CartItems(db: Db, user: UserId): seq<Item>
  {
    CartRowItems(db, db.carts, user)
  }

  /** Some cart recipe of `user` has no ingredient at all: the outer join
      then yields a group whose name is NULL. */
  predicate HasBareCartRecipe(db: Db, user: UserId)
  {
    exists p :: p in db.carts && p.user == user && RowItems(db.ingredients, db.ingredientRows, p.recipe) == []
  }

  /** Strict order on (name, unit) keys: by name, then by unit. */
  predicate KeyLt(n1: string, u1: string, n2: string, u2: string)
  {
    StrLt(n1, n2) || (n1 == n2 && StrLt(u1, u2))
  }

  lemma StrLtTrans(a: string, b: string, c: string)
    requires StrLt(a, b) && StrLt(b, c)
    ensures StrLt(a, c)
  {
    StrLeTrans(a, b, c);
    if a == c { StrLeAntisym(a, b); }
  }

  lemma KeyLtTrans(g: Group, h: Group, k: Group)
    requires KeyLt(g.name, g.unit, h.name, h.unit) && KeyLt(h.name, h.unit, k.name, k.unit)
    ensures KeyLt(g.name, g.unit, k.name, k.unit)
  {
    if StrLt(g.name, h.name) && StrLt(h.name, k.name) { StrLtTrans(g.name, h.name, k.name); }
    if g.name == h.name && StrLt(g.unit, h.unit) && h.name == k.name { StrLtTrans(g.unit, h.unit, k.unit); }
  }

  lemma KeyTrichotomy(n1: string, u1: string, n2: string, u2: string)
    ensures KeyLt(n1, u1, n2, u2) || KeyLt(n2, u2, n1, u1) || (n1 == n2 && u1 == u2)
  {
    StrLeTotal(n1, n2);
    StrLeTotal(u1, u2);
  }

  /** Groups with strictly increasing keys, hence distinct keys. */
  ghost predicate StrictlySorted(gs: seq<Group>)
  {
    forall i, j :: 0 <= i < j < |gs| ==> KeyLt(gs[i].name, gs[i].unit, gs[j].name, gs[j].unit)
  }

  function Keys(gs: seq<Group>): set<(string, string)>
  {
    set g | g in gs :: (g.name, g.unit)
  }

  function ItemKeys(items: seq<Item>): set<(string, string)>
  {
    set x | x in items :: (x.name, x.unit)
  }

  /** The total listed under key (name, unit); 0 when there is no such group. */
  function TotalFor(gs: seq<Group>, name: string, unit: string): int
  {
    if gs == [] then 0
    else (if gs[0].name == name && gs[0].unit == unit then gs[0].total else 0) + TotalFor(gs[1..], name, unit)
  }

  /** The sum of the amounts of the items with key (name, unit). */
  function SumFor(items: seq<Item>, name: string, unit: string): int
  {
    if items == [] then 0
    else
      var last := items[|items| - 1];
      SumFor(items[..|items| - 1], name, unit) + (if last.name == name && last.unit == unit then last.amount else 0)
  }

  /** Adds one item into sorted groups: into the group of its key, or as a
      new group at its place. */
  function AddItem(gs: seq<Group>, x: Item): seq<Group>
  {
    if gs == [] then [Group(x.name, x.unit, x.amount)]
    else if gs[0].name == x.name && gs[0].unit == x.unit then [gs[0].(total := gs[0].total + x.amount)] + gs[1..]
    else if KeyLt(x.name, x.unit, gs[0].name, gs[0].unit) then [Group(x.name, x.unit, x.amount)] + gs
    else [gs[0]] + AddItem(gs[1..], x)
  }

  /** GROUP BY (name, unit) with SUM(amount), ordered by key. */
  function Aggregate(items: seq<Item>): seq<Group>
  {
    if items == [] then [] else AddItem(Aggregate(items[..|items| - 1]), items[|items| - 1])
  }

  lemma StrictlySortedTail(gs: seq<Group>)
    requires StrictlySorted(gs) && gs != []
    ensures StrictlySorted(gs[1..])
  {
    var t := gs[1..];
    forall i, j | 0 <= i < j < |t| ensures KeyLt(t[i].name, t[i].unit, t[j].name, t[j].unit) {
      assert t[i] == gs[i + 1] && t[j] == gs[j + 1];
    }
  }

  lemma StrictlySortedCons(g: Group, gs: seq<Group>)
    requires StrictlySorted(gs)
    requires forall h :: h in gs ==> KeyLt(g.name, g.unit, h.name, h.unit)
    ensures StrictlySorted([g] + gs)
  {
    var r := [g] + gs;
    forall i, j | 0 <= i < j < |r| ensures KeyLt(r[i].name, r[i].unit, r[j].name, r[j].unit) {
      assert r[j] == gs[j - 1];
      if i > 0 { assert r[i] == gs[i - 1]; }
    }
  }

  lemma {:induction false} TotalForAbsent(gs: seq<Group>, name: string, unit: string)
    requires (name, unit) !in Keys(gs)
    ensures TotalFor(gs, name, unit) == 0
  {
    if gs != [] {
      assert gs[0] in gs;
      assert Keys(gs[1..]) <= Keys(gs) by {
        forall k | k in Keys(gs[1..]) ensures k in Keys(gs) {
          var g :| g in gs[1..] && k == (g.name, g.unit);
          assert g in gs;
        }
      }
      TotalForAbsent(gs[1..], name, unit);
    }
  }

  lemma KeysCons(g: Group, gs: seq<Group>)
    ensures Keys([g] + gs) == {(g.name, g.unit)} + Keys(gs)
  {
    var r := [g] + gs;
    forall k | k in Keys(r) ensures k in {(g.name, g.unit)} + Keys(gs) {
      var h :| h in r && k == (h.name, h.unit);
      if h != g { assert h in gs; }
    }
    forall k | k in Keys(gs) ensures k in Keys(r) {
      var h :| h in gs && k == (h.name, h.unit);
      assert h in r;
    }
  }

  /** Adding an item adds its key and no other. */
  lemma {:induction false} AddItemKeys(gs: seq<Group>, x: Item)
    ensures Keys(AddItem(gs, x)) == Keys(gs) + {(x.name, x.unit)}
  {
    var gx := Group(x.name, x.unit, x.amount);
    if gs == [] {
      KeysCons(gx, []);
    } else {
      assert gs == [gs[0]] + gs[1..];
      KeysCons(gs[0], gs[1..]);
      if gs[0].name == x.name && gs[0].unit == x.unit {
        KeysCons(gs[0].(total := gs[0].total + x.amount), gs[1..]);
      } else if KeyLt(x.name, x.unit, gs[0].name, gs[0].unit) {
        KeysCons(gx, gs);
      } else {
        AddItemKeys(gs[1..], x);
        KeysCons(gs[0], AddItem(gs[1..], x));
      }
    }
  }

  /** Adding an item raises the total of its key alone, by its amount. */
  lemma {:induction false} AddItemTotals(gs: seq<Group>, x: Item, n: string, u: string)
    ensures TotalFor(AddItem(gs, x), n, u) == TotalFor(gs, n, u) + (if n == x.name && u == x.unit then x.amount else 0)
  {
    if gs != [] && !(gs[0].name == x.name && gs[0].unit == x.unit) && !KeyLt(x.name, x.unit, gs[0].name, gs[0].unit) {
      AddItemTotals(gs[1..], x, n, u);
      assert AddItem(gs, x)[1..] == AddItem(gs[1..], x);
    } else if gs != [] && gs[0].name == x.name && gs[0].unit == x.unit {
      assert AddItem(gs, x)[1..] == gs[1..];
    } else if gs != [] {
      assert AddItem(gs, x)[1..] == gs;
    }
  }

  /** Adding an item keeps the groups strictly sorted. */
  lemma {:induction false} AddItemSorted(gs: seq<Group>, x: Item)
    requires StrictlySorted(gs)
    ensures StrictlySorted(AddItem(gs, x))
  {
    if gs == [] {
    } else if gs[0].name == x.name && gs[0].unit == x.unit {
      MergeSorted(gs, x);
    } else if KeyLt(x.name, x.unit, gs[0].name, gs[0].unit) {
      FrontSorted(gs, x);
    } else {
      KeyTrichotomy(x.name, x.unit, gs[0].name, gs[0].unit);
      StrictlySortedTail(gs);
      AddItemSorted(gs[1..], x);
      LaterSorted(gs, x);
    }
  }

  /** The item joins the first group, whose key it shares. */
  lemma MergeSorted(gs: seq<Group>, x: Item)
    requires StrictlySorted(gs) && gs != []
    requires gs[0].name == x.name && gs[0].unit == x.unit
    ensures StrictlySorted(AddItem(gs, x))
  {
    var g0 := gs[0].(total := gs[0].total + x.amount);
    StrictlySortedTail(gs);
    forall h | h in gs[1..] ensures KeyLt(g0.name, g0.unit, h.name, h.unit) {
      var k :| 0 <= k < |gs[1..]| && gs[1..][k] == h;
      assert gs[k + 1] == h;
    }
    StrictlySortedCons(g0, gs[1..]);
  }

  /** The item's key comes before every group's key: a new first group. */
  lemma FrontSorted(gs: seq<Group>, x: Item)
    requires StrictlySorted(gs) && gs != []
    requires KeyLt(x.name, x.unit, gs[0].name, gs[0].unit)
    ensures StrictlySorted(AddItem(gs, x))
  {
    var gx := Group(x.name, x.unit, x.amount);
    forall h | h in gs ensures KeyLt(gx.name, gx.unit, h.name, h.unit) {
      var k :| 0 <= k < |gs| && gs[k] == h;
      if k > 0 { KeyLtTrans(gx, gs[0], h); }
    }
    StrictlySortedCons(gx, gs);
  }

  /** The item goes after the first group, which stays in front. */
  lemma LaterSorted(gs: seq<Group>, x: Item)
    requires StrictlySorted(gs) && gs != []
    requires KeyLt(gs[0].name, gs[0].unit, x.name, x.unit)
    requires StrictlySorted(AddItem(gs[1..], x))
    ensures StrictlySorted(AddItem(gs, x))
  {
    var t := gs[1..];
    var rest := AddItem(t, x);
    AddItemKeys(t, x);
    forall h | h in rest ensures KeyLt(gs[0].name, gs[0].unit, h.name, h.unit) {
      assert (h.name, h.unit) in Keys(rest);
      if (h.name, h.unit) != (x.name, x.unit) {
        var h' :| h' in t && (h.name, h.unit) == (h'.name, h'.unit);
        var k :| 0 <= k < |t| && t[k] == h';
        assert gs[k + 1] == h';
      }
    }
    assert !(gs[0].name == x.name && gs[0].unit == x.unit);
    assert !KeyLt(x.name, x.unit, gs[0].name, gs[0].unit) by {
      if KeyLt(x.name, x.unit, gs[0].name, gs[0].unit) {
        KeyLtAsym(x.name, x.unit, gs[0].name, gs[0].unit);
      }
    }
    StrictlySortedCons(gs[0], rest);
  }

  lemma KeyLtAsym(n1: string, u1: string, n2: string, u2: string)
    requires KeyLt(n1, u1, n2, u2)
    ensures !KeyLt(n2, u2, n1, u1)
  {
    if KeyLt(n2, u2, n1, u1) {
      if StrLt(n1, n2) && StrLt(n2, n1) { StrLeAntisym(n1, n2); }
      if n1 == n2 && StrLt(u1, u2) && StrLt(u2, u1) { StrLeAntisym(u1, u2); }
    }
  }

  /** The grouping is exact: groups are strictly ordered by key, there is a
      group for exactly the keys that occur, and each group's total is the
      sum of the amounts that carry its key. */
  lemma {:induction false} AggregateCorrect(items: seq<Item>)
    ensures StrictlySorted(Aggregate(items))
    ensures Keys(Aggregate(items)) == ItemKeys(items)
    ensures forall n, u :: TotalFor(Aggregate(items), n, u) == SumFor(items, n, u)
  {
    if items != [] {
      var front := items[..|items| - 1];
      var last := items[|items| - 1];
      AggregateCorrect(front);
      AddItemSorted(Aggregate(front), last);
      AddItemKeys(Aggregate(front), last);
      forall n, u ensures TotalFor(Aggregate(items), n, u) == SumFor(items, n, u) {
        AddItemTotals(Aggregate(front), last, n, u);
      }
      ItemKeysSnoc(items);
    }
  }

  /** The keys of a non-empty item list: those before the last item and its own. */
  lemma ItemKeysSnoc(items: seq<Item>)
    requires items != []
    ensures ItemKeys(items) == ItemKeys(items[..|items| - 1]) + {(items[|items| - 1].name, items[|items| - 1].unit)}
  {
    var front := items[..|items| - 1];
    var last := items[|items| - 1];
    assert items == front + [last];
    forall k | k in ItemKeys(items) ensures k in ItemKeys(front) + {(last.name, last.unit)} {
      var y :| y in items && k == (y.name, y.unit);
      if y != last { assert y in front; }
    }
    forall k | k in ItemKeys(front) ensures k in ItemKeys(items) {
      var y :| y in front && k == (y.name, y.unit);
      assert y in items;
    }
  }

  /** In strictly sorted groups a key's total is the total of its one group. */
  lemma {:induction false} TotalOfGroup(gs: seq<Group>, i: nat)
    requires StrictlySorted(gs) && i < |gs|
    ensures TotalFor(gs, gs[i].name, gs[i].unit) == gs[i].total
  {
    StrictlySortedTail(gs);
    if i == 0 {
      assert (gs[0].name, gs[0].unit) !in Keys(gs[1..]) by {
        forall h | h in gs[1..] ensures (h.name, h.unit) != (gs[0].name, gs[0].unit) {
          var k :| 0 <= k < |gs[1..]| && gs[1..][k] == h;
          assert KeyLt(gs[0].name, gs[0].unit, gs[k + 1].name, gs[k + 1].unit);
        }
      }
      TotalForAbsent(gs[1..], gs[0].name, gs[0].unit);
    } else {
      assert gs[1..][i - 1] == gs[i];
      TotalOfGroup(gs[1..], i - 1);
      assert KeyLt(gs[0].name, gs[0].unit, gs[i].name, gs[i].unit);
      assert !(gs[0].name == gs[i].name && gs[0].unit == gs[i].unit);
    }
  }

  /** The rows `download_shopping_cart` iterates over. */
  function ShoppingGroups(db: Db, user: UserId): seq<Group>
  {
    Aggregate(CartItems(db, user))
  }

  /** The grouping stated per group: each group's key occurs among the
      items and its total is the sum for that key; every item key has a
      group; no key twice; names ascending. */
  lemma AggregateSpec(items: seq<Item>)
    ensures var gs := Aggregate(items);
      && (forall i :: 0 <= i < |gs| ==>
            (gs[i].name, gs[i].unit) in ItemKeys(items) && gs[i].total == SumFor(items, gs[i].name, gs[i].unit))
      && (forall k :: k in ItemKeys(items) ==> k in Keys(gs))
      && (forall i, j :: 0 <= i < j < |gs| ==> (gs[i].name, gs[i].unit) != (gs[j].name, gs[j].unit))
      && (forall i, j :: 0 <= i < j < |gs| ==> StrLe(gs[i].name, gs[j].name))
  {
    var gs := Aggregate(items);
    AggregateCorrect(items);
    forall i | 0 <= i < |gs|
      ensures (gs[i].name, gs[i].unit) in ItemKeys(items) && gs[i].total == SumFor(items, gs[i].name, gs[i].unit)
    {
      assert gs[i] in gs;
      assert (gs[i].name, gs[i].unit) in Keys(gs);
      TotalOfGroup(gs, i);
    }
    forall i, j | 0 <= i < j < |gs|
      ensures (gs[i].name, gs[i].unit) != (gs[j].name, gs[j].unit) && StrLe(gs[i].name, gs[j].name)
    {
      assert KeyLt(gs[i].name, gs[i].unit, gs[j].name, gs[j].unit);
      StrLeRefl(gs[i].name);
    }
  }

  /** The shopping list's groups: one per (name, unit) drawn from the user's
      cart recipes, none twice, each carrying the sum of the amounts with
      that key, in ascending name order. */
  lemma ShoppingGroupsSpec(db: Db, user: UserId)
    ensures var items := CartItems(db, user);
      var gs := ShoppingGroups(db, user);
      && (forall i :: 0 <= i < |gs| ==>
            (gs[i].name, gs[i].unit) in ItemKeys(items) && gs[i].total == SumFor(items, gs[i].name, gs[i].unit))
      && (forall k :: k in ItemKeys(items) ==> k in Keys(gs))
      && (forall i, j :: 0 <= i < j < |gs| ==> (gs[i].name, gs[i].unit) != (gs[j].name, gs[j].unit))
      && (forall i, j :: 0 <= i < j < |gs| ==> StrLe(gs[i].name, gs[j].name))
  {
    assert ShoppingGroups(db, user) == Aggregate(CartItems(db, user));
    AggregateSpec(CartItems(db, user));
  }

  /** A user with no cart rows gets no groups. */
  lemma {:induction false} EmptyCartNoGroups(db: Db, user: UserId)
    requires forall p :: p in db.carts ==> p.user != user
    ensures ShoppingGroups(db, user) == []
  {
    NoOwnCartRowsNoItems(db, db.carts, user);
  }

  lemma {:induction false} NoOwnCartRowsNoItems(db: Db, carts: seq<UserRecipe>, user: UserId)
    requires forall p :: p in carts ==> p.user != user
    ensures CartRowItems(db, carts, user) == []
  {
    if carts != [] {
      assert carts[0] in carts;
      NoOwnCartRowsNoItems(db, carts[1..], user);
    }
  }

  const Header: string := "Список покупок:\n\n"

  /** A decimal integer as an f-string writes it. */
  function IntText(n: int): (s: string)
    ensures n >= 0 ==> s == Decimal(n)
    ensures n < 0 ==> s == "-" + Decimal(-n)
  {
    if n < 0 then "-" + Decimal(-n) else Decimal(n)
  }

  /** `f'{name} ({measurement_unit}) — {amount};\n'` with the name
      capitalized. */
  function Line(g: Group): string
  {
    Capitalize(g.name) + " (" + g.unit + ") — " + IntText(g.total) + ";\n"
  }

  /** The document: the header followed by one line per group. */
  function ShoppingListText(gs: seq<Group>): string
  {
    Concat([Header] + seq(|gs|, i requires 0 <= i < |gs| => Line(gs[i])))
  }

  /** The document starts with the header, has exactly the header when
      there are no groups, and otherwise continues with the first group's
      line. */
  lemma ShoppingListTextShape(gs: seq<Group>)
    ensures ShoppingListText(gs)[..|Header|] == Header
    ensures gs == [] ==> ShoppingListText(gs) == Header
    ensures gs != [] ==> ShoppingListText(gs)[|Header|..][..|Line(gs[0])|] == Line(gs[0])
  {
    var lines := seq(|gs|, i requires 0 <= i < |gs| => Line(gs[i]));
    assert ([Header] + lines)[1..] == lines;
    if gs == [] {
      assert ShoppingListText(gs) == Header + Concat([]);
    } else {
      assert Concat([Header] + lines) == Header + Concat(lines);
      assert lines[0] == Line(gs[0]);
    }
  }

  /** The document for one more group is the document so far followed by
      that group's line. */
  lemma ShoppingListTextAppend(gs: seq<Group>, g: Group)
    ensures ShoppingListText(gs + [g]) == ShoppingListText(gs) + Line(g)
  {
    var lines := seq(|gs|, i requires 0 <= i < |gs| => Line(gs[i]));
    var lines' := seq(|gs + [g]|, i requires 0 <= i < |gs + [g]| => Line((gs + [g])[i]));
    assert lines' == lines + [Line(g)];
    assert [Header] + lines' == ([Header] + lines) + [Line(g)];
    ConcatAppend([Header] + lines, Line(g));
  }

  /** The example of two cart recipes listing 200 g and 100 g of flour: one
      group with their sum. */
  lemma FlourExample()
    ensures Aggregate([Item("flour", "g", 200), Item("flour", "g", 100)]) == [Group("flour", "g", 300)]
  {
    var items := [Item("flour", "g", 200), Item("flour", "g", 100)];
    assert items[..1] == [Item("flour", "g", 200)];
    assert items[..1][..0] == [];
    assert Aggregate(items[..1]) == [Group("flour", "g", 200)];
  }

  /** That group's line: the name capitalized, the unit in brackets, the sum. */
  lemma FlourLineExample()
    ensures Line(Group("flour", "g", 300)) == "Flour (g) — 300;\n"
  {
    FlourWords();
    assert IntText(300) == "300";
  }

  lemma FlourWords()
    ensures Decimal(300) == "300"
    ensures Capitalize("flour") == "Flour"
  {
    assert Decimal(3) == "3";
    assert Decimal(30) == "30";
    assert Lowered("r") == "r";
    assert Lowered("ur") == "ur";
    assert Lowered("our") == "our";
    assert Lowered("lour") == "lour";
  }
}
