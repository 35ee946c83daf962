/**
 * The write side of `RecipeSetSerializer` (backend/api/serializers.py):
 * `validate`, `create`, `update` and the ingredient-row loop
 * `get_ingredient`, over the tables they touch.
 *
 * The serializer checks nothing beyond the two emptiness tests of
 * `validate`: amounts are not bounded, repeated ingredients or tags are not
 * refused, and nothing is wrapped in a transaction, so rows written before a
 * failing lookup stay written.
 */
module RecipeWrite {
  import opened Common

  /** One item of the `ingredients` payload: `{"id": ..., "amount": ...}`. */
  datatype Entry = Entry(id: IngredientId, amount: int)

  /**
   * The two keys of the raw request body that `validate` inspects; `None`
   * stands for a missing key.
   */
  datatype RawPayload = RawPayload(ingredients: Option<seq<Entry>>, tags: Option<seq<TagId>>)

  datatype WriteError =
    | NoIngredient                              // 'Должен быть хотя бы один ингридиент!'
    | NoTag                                     // 'Должен быть хотя бы один тег!'
    | IngredientNotFound(id: IngredientId)      // `Ingredient.DoesNotExist` from `Ingredient.objects.get`

  /** Python falsiness of a list-valued key: missing, or present and empty. */
  predicate Falsy<T>(o: Option<seq<T>>)
  {
    o.None? || o.value == []
  }

  /** `RecipeSetSerializer.validate`: ingredients are checked before tags; `data` passes through unchanged. */
  function Validate<D>(initial: RawPayload, data: D): (r: Result<D, WriteError>)
    ensures r == Err(NoIngredient) <==> Falsy(initial.ingredients)
    ensures r == Err(NoTag) <==> !Falsy(initial.ingredients) && Falsy(initial.tags)
    ensures r.Ok? <==> !Falsy(initial.ingredients) && !Falsy(initial.tags)
    ensures r.Ok? ==> r.value == data
  {
    if Falsy(initial.ingredients) then Err(NoIngredient)
    else if Falsy(initial.tags) then Err(NoTag)
    else Ok(data)
  }

  /** The rows `get_ingredient` writes for `recipe`: one per entry, in payload order. */
  function RowsFor(recipe: RecipeId, entries: seq<Entry>): (rows: seq<IngredientRow>)
    ensures |rows| == |entries|
    ensures forall i :: 0 <= i < |entries| ==>
              rows[i] == IngredientRow(entries[i].id, recipe, entries[i].amount)
  {
    if entries == [] then []
    else [IngredientRow(entries[0].id, recipe, entries[0].amount)] + RowsFor(recipe, entries[1..])
  }

  /** The index of the first entry naming no stored ingredient, if any. */
  function FirstMissing(catalog: map<IngredientId, Ingredient>, entries: seq<Entry>): (r: Option<nat>)
    ensures r.Some? ==> r.value < |entries| && entries[r.value].id !in catalog
    ensures r.Some? ==> forall j :: 0 <= j < r.value ==> entries[j].id in catalog
    ensures r.None? <==> forall j :: 0 <= j < |entries| ==> entries[j].id in catalog
  {
    if entries == [] then None
    else if entries[0].id !in catalog then Some(0)
    else match FirstMissing(catalog, entries[1..])
      case None => None
      case Some(k) => Some(k + 1)
  }

  /** The rows of the table that belong to `recipe` (`recipe.ingredients` through the join table). */
  function RowsOf(rows: seq<IngredientRow>, recipe: RecipeId): (r: seq<IngredientRow>)
    ensures forall x :: x in r <==> x in rows && x.recipe == recipe
  {
    if rows == [] then []
    else
      assert forall x :: x in rows <==> x == rows[0] || x in rows[1..];
      (if rows[0].recipe == recipe then [rows[0]] else []) + RowsOf(rows[1..], recipe)
  }

  /** `IngredientRecipe.objects.filter(recipe=recipe).delete()`: the rows that remain. */
  function Without(rows: seq<IngredientRow>, recipe: RecipeId): (r: seq<IngredientRow>)
    ensures forall x :: x in r <==> x in rows && x.recipe != recipe
  {
    if rows == [] then []
    else
      assert forall x :: x in rows <==> x == rows[0] || x in rows[1..];
      (if rows[0].recipe != recipe then [rows[0]] else []) + Without(rows[1..], recipe)
  }

  lemma {:induction false} RowsOfAppend(a: seq<IngredientRow>, b: seq<IngredientRow>, recipe: RecipeId)
    ensures RowsOf(a + b, recipe) == RowsOf(a, recipe) + RowsOf(b, recipe)
  {
    if a == [] {
      assert a + b == b;
    } else {
      assert (a + b)[0] == a[0];
      assert (a + b)[1..] == a[1..] + b;
      RowsOfAppend(a[1..], b, recipe);
    }
  }

  lemma {:induction false} RowsOfRowsFor(recipe: RecipeId, entries: seq<Entry>, other: RecipeId)
    ensures RowsOf(RowsFor(recipe, entries), other) == if other == recipe then RowsFor(recipe, entries) else []
  {
    if entries != [] {
      RowsOfRowsFor(recipe, entries[1..], other);
      var rows := RowsFor(recipe, entries);
      assert rows[1..] == RowsFor(recipe, entries[1..]);
    }
  }

  lemma {:induction false} RowsOfWithout(rows: seq<IngredientRow>, recipe: RecipeId, other: RecipeId)
    ensures RowsOf(Without(rows, recipe), other) == if other == recipe then [] else RowsOf(rows, other)
  {
    if rows != [] {
      RowsOfWithout(rows[1..], recipe, other);
      var head := if rows[0].recipe != recipe then [rows[0]] else [];
      RowsOfAppend(head, Without(rows[1..], recipe), other);
    }
  }

  /**
   * After `update` the recipe's rows are exactly the payload's, and every
   * other recipe keeps the rows it had.
   */
  lemma UpdateReplacesRows(rows: seq<IngredientRow>, recipe: RecipeId, entries: seq<Entry>, other: RecipeId)
    ensures RowsOf(Without(rows, recipe) + RowsFor(recipe, entries), recipe) == RowsFor(recipe, entries)
    ensures other != recipe ==>
              RowsOf(Without(rows, recipe) + RowsFor(recipe, entries), other) == RowsOf(rows, other)
  {
    RowsOfAppend(Without(rows, recipe), RowsFor(recipe, entries), recipe);
    RowsOfAppend(Without(rows, recipe), RowsFor(recipe, entries), other);
    RowsOfWithout(rows, recipe, recipe);
    RowsOfWithout(rows, recipe, other);
    RowsOfRowsFor(recipe, entries, recipe);
    RowsOfRowsFor(recipe, entries, other);
  }

  /**
   * After `create` of a recipe no row referred to before, the recipe's rows
   * are exactly the payload's, and every other recipe keeps its rows.
   */
  lemma CreateAddsRows(rows: seq<IngredientRow>, recipe: RecipeId, entries: seq<Entry>, other: RecipeId)
    requires forall x :: x in rows ==> x.recipe != recipe
    ensures RowsOf(rows + RowsFor(recipe, entries), recipe) == RowsFor(recipe, entries)
    ensures other != recipe ==> RowsOf(rows + RowsFor(recipe, entries), other) == RowsOf(rows, other)
  {
    RowsOfAppend(rows, RowsFor(recipe, entries), recipe);
    RowsOfAppend(rows, RowsFor(recipe, entries), other);
    RowsOfRowsFor(recipe, entries, recipe);
    RowsOfRowsFor(recipe, entries, other);
    RowsOfAbsent(rows, recipe);
  }

  lemma {:induction false} RowsOfAbsent(rows: seq<IngredientRow>, recipe: RecipeId)
    requires forall x :: x in rows ==> x.recipe != recipe
    ensures RowsOf(rows, recipe) == []
  {
    if rows != [] {
      assert rows[0] in rows;
      assert forall x :: x in rows[1..] ==> x in rows;
      RowsOfAbsent(rows[1..], recipe);
    }
  }

  /** The `Recipe`, recipe-tag, `IngredientRecipe` and `Ingredient` tables. */
  class RecipeStore {
    var recipes: map<RecipeId, Recipe>
    var tags: map<RecipeId, set<TagId>>
    var rows: seq<IngredientRow>
    var catalog: map<IngredientId, Ingredient>
    var nextId: RecipeId

    /** Primary keys are handed out above every stored one; join rows refer to stored rows. */
    predicate Valid()
      reads this
    {
      (forall id :: id in recipes ==> id < nextId) &&
      (forall x :: x in rows ==> x.recipe in recipes && x.ingredient in catalog)
    }

    constructor (catalog: map<IngredientId, Ingredient>)
      ensures Valid()
      ensures this.catalog == catalog && recipes == map[] && tags == map[] && rows == []
    {
      this.catalog := catalog;
      recipes, tags, rows := map[], map[], [];
      nextId := 1;
    }

    /**
     * `get_ingredient`: look each entry's ingredient up and write its row.
     * The first unknown id stops the loop; rows written before it remain.
     */
    method AttachIngredients(recipe: RecipeId, entries: seq<Entry>) returns (r: Result<(), WriteError>)
      requires Valid() && recipe in recipes
      modifies this`rows
      ensures Valid()
      ensures FirstMissing(catalog, entries).None? ==>
                r.Ok? && rows == old(rows) + RowsFor(recipe, entries)
      ensures FirstMissing(catalog, entries).Some? ==>
                var k := FirstMissing(catalog, entries).value;
                r == Err(IngredientNotFound(entries[k].id)) &&
                rows == old(rows) + RowsFor(recipe, entries[..k])
    {
      for i := 0 to |entries|
        invariant Valid()
        invariant forall j :: 0 <= j < i ==> entries[j].id in catalog
        invariant rows == old(rows) + RowsFor(recipe, entries[..i])
      {
        var ingredient := entries[i];
        if ingredient.id !in catalog {
          return Err(IngredientNotFound(ingredient.id));
        }
        assert entries[..i + 1] == entries[..i] + [ingredient];
        RowsForSnoc(recipe, entries[..i], ingredient);
        rows := rows + [IngredientRow(ingredient.id, recipe, ingredient.amount)];
      }
      assert entries[..|entries|] == entries;
      return Ok(());
    }

    /**
     * `create`: insert the recipe, set its tags, then write its ingredient
     * rows. A failing lookup leaves the recipe, its tags and the rows written
     * so far in place.
     */
    method Create(author: UserId, fields: RecipeFields, tagIds: seq<TagId>, entries: seq<Entry>)
      returns (id: RecipeId, r: Result<(), WriteError>)
      requires Valid()
      modifies this
      ensures Valid()
      ensures id !in old(recipes) && recipes == old(recipes)[id := Recipe(author, fields)]
      ensures tags == old(tags)[id := set t | t in tagIds]
      ensures catalog == old(catalog)
      ensures FirstMissing(catalog, entries).None? ==>
                r.Ok? && rows == old(rows) + RowsFor(id, entries)
      ensures FirstMissing(catalog, entries).Some? ==>
                var k := FirstMissing(catalog, entries).value;
                r == Err(IngredientNotFound(entries[k].id)) &&
                rows == old(rows) + RowsFor(id, entries[..k])
      ensures r.Ok? ==> RowsOf(rows, id) == RowsFor(id, entries)
      ensures forall other :: other != id ==> RowsOf(rows, other) == RowsOf(old(rows), other)
    {
      id := nextId;
      nextId := nextId + 1;
      recipes := recipes[id := Recipe(author, fields)];
      tags := tags[id := set t | t in tagIds];
      ghost var before := rows;
      assert forall x :: x in before ==> x.recipe != id;
      r := AttachIngredients(id, entries);
      ghost var written := if r.Ok? then entries else entries[..FirstMissing(catalog, entries).value];
      assert rows == before + RowsFor(id, written);
      forall other | other != id
        ensures RowsOf(rows, other) == RowsOf(before, other)
      {
        CreateAddsRows(before, id, written, other);
      }
      if r.Ok? {
        CreateAddsRows(before, id, entries, id);
      }
    }

    /**
     * `update`: delete every row of the recipe, replace its tags, write the
     * new rows, and only then store the plain fields and, when the payload
     * names one, the author (`super().update` sets every validated field).
     */
    method Update(id: RecipeId, author: Option<UserId>, fields: RecipeFields, tagIds: seq<TagId>, entries: seq<Entry>)
      returns (r: Result<(), WriteError>)
      requires Valid() && id in recipes
      modifies this
      ensures Valid()
      ensures tags == old(tags)[id := set t | t in tagIds]
      ensures catalog == old(catalog) && nextId == old(nextId)
      ensures FirstMissing(catalog, entries).None? ==>
                r.Ok? && rows == Without(old(rows), id) + RowsFor(id, entries) &&
                recipes == old(recipes)[id := Recipe(Stored(old(recipes)[id].author, author), fields)]
      ensures FirstMissing(catalog, entries).Some? ==>
                var k := FirstMissing(catalog, entries).value;
                r == Err(IngredientNotFound(entries[k].id)) &&
                rows == Without(old(rows), id) + RowsFor(id, entries[..k]) &&
                recipes == old(recipes)
      ensures r.Ok? ==> RowsOf(rows, id) == RowsFor(id, entries)
      ensures forall other :: other != id ==> RowsOf(rows, other) == RowsOf(old(rows), other)
    {
      ghost var before := rows;
      rows := Without(rows, id);
      tags := tags[id := set t | t in tagIds];
      r := AttachIngredients(id, entries);
      ghost var written := if r.Ok? then entries else entries[..FirstMissing(catalog, entries).value];
      assert rows == Without(before, id) + RowsFor(id, written);
      forall other | other != id
        ensures RowsOf(rows, other) == RowsOf(before, other)
      {
        UpdateReplacesRows(before, id, written, other);
      }
      if r.Ok? {
        UpdateReplacesRows(before, id, entries, id);
      }
      if r.Ok? {
        recipes := recipes[id := Recipe(Stored(recipes[id].author, author), fields)];
      }
    }
  }

  /** The value a column takes on update: the payload's when it carries one, the stored one otherwise. */
  function Stored<T>(current: T, given: Option<T>): (v: T)
    ensures given.Some? ==> v == given.value
    ensures given.None? ==> v == current
  {
    if given.Some? then given.value else current
  }

  lemma RowsForSnoc(recipe: RecipeId, entries: seq<Entry>, e: Entry)
    ensures RowsFor(recipe, entries + [e]) == RowsFor(recipe, entries) + [IngredientRow(e.id, recipe, e.amount)]
  {
  }
}
