/**
 * The effective `download_shopping_cart` of backend/api/views.py: select the
 * ingredient rows of every recipe in the user's cart, group them by
 * (ingredient name, measurement unit) summing the amounts, and write the
 * groups out as one text.
 *
 * The query has no `order_by`, so the database may return the groups in any
 * order. `GroupSum` yields them in order of first appearance; everything it
 * promises is stated without reference to that order, and the rendering is
 * specified for any sequence of groups.
 */
module ShoppingList {
  import opened Common
  import opened Strings

  /** An amount of an ingredient, named and measured: a joined row before grouping, or a group after. */
  datatype Line = Line(name: string, unit: string, amount: int)

  type Key = (string, string)

  function KeyOf(l: Line): Key { (l.name, l.unit) }

  /** The rows whose recipe is in `user`'s cart (`filter(recipe__shopping_cart__user=user)`), in table order. */
  function CartRows(rows: seq<IngredientRow>, cart: set<(UserId, RecipeId)>, user: UserId): (r: seq<IngredientRow>)
    ensures |r| <= |rows|
    ensures forall x :: x in r <==> x in rows && (user, x.recipe) in cart
  {
    if rows == [] then []
    else
      var rest := CartRows(rows[1..], cart, user);
      assert forall x :: x in rows <==> x == rows[0] || x in rows[1..];
      if (user, rows[0].recipe) in cart then [rows[0]] + rest else rest
  }

  /** A row joined with its ingredient: (`ingredient__name`, `ingredient__measurement_unit`, `amount`). */
  function LineOf(catalog: map<IngredientId, Ingredient>, row: IngredientRow): (l: Line)
    requires row.ingredient in catalog
    ensures l.amount == row.amount
    ensures l.name == catalog[row.ingredient].name && l.unit == catalog[row.ingredient].unit
  {
    Line(catalog[row.ingredient].name, catalog[row.ingredient].unit, row.amount)
  }

  /** Joins every row with its ingredient, keeping the order. */
  function Lines(catalog: map<IngredientId, Ingredient>, rows: seq<IngredientRow>): (lines: seq<Line>)
    requires forall x :: x in rows ==> x.ingredient in catalog
    ensures |lines| == |rows|
    ensures forall i :: 0 <= i < |rows| ==> lines[i] == LineOf(catalog, rows[i])
  {
    if rows == [] then [] else [LineOf(catalog, rows[0])] + Lines(catalog, rows[1..])
  }

  /** The joined cart rows that the aggregation groups. */
  function CartLines(rows: seq<IngredientRow>, catalog: map<IngredientId, Ingredient>,
                     cart: set<(UserId, RecipeId)>, user: UserId): seq<Line>
    requires forall x :: x in rows ==> x.ingredient in catalog
  {
    Lines(catalog, CartRows(rows, cart, user))
  }

  /** Reference definition: the sum of the amounts of the lines with key `k`. */
  function SumOf(lines: seq<Line>, k: Key): int
  {
    if lines == [] then 0
    else (if KeyOf(lines[0]) == k then lines[0].amount else 0) + SumOf(lines[1..], k)
  }

  function KeySet(lines: seq<Line>): set<Key>
  {
    set i | 0 <= i < |lines| :: KeyOf(lines[i])
  }

  predicate DistinctKeys(lines: seq<Line>)
  {
    forall i, j :: 0 <= i < j < |lines| ==> KeyOf(lines[i]) != KeyOf(lines[j])
  }

  lemma {:induction false} SumOfAppend(a: seq<Line>, b: seq<Line>, k: Key)
    ensures SumOf(a + b, k) == SumOf(a, k) + SumOf(b, k)
  {
    if a != [] {
      assert (a + b)[0] == a[0];
      assert (a + b)[1..] == a[1..] + b;
      SumOfAppend(a[1..], b, k);
    } else {
      assert a + b == b;
    }
  }

  lemma {:induction false} SumOfAbsent(lines: seq<Line>, k: Key)
    requires k !in KeySet(lines)
    ensures SumOf(lines, k) == 0
  {
    if lines != [] {
      assert KeySet(lines[1..]) <= KeySet(lines) by {
        forall i | 0 <= i < |lines[1..]| ensures KeyOf(lines[1..][i]) in KeySet(lines) {
          assert lines[1..][i] == lines[i + 1];
        }
      }
      assert KeyOf(lines[0]) in KeySet(lines);
      SumOfAbsent(lines[1..], k);
    }
  }

  /** In a sequence of groups with distinct keys, a group's amount is the sum for its key. */
  lemma {:induction false} GroupAmountIsSum(groups: seq<Line>, j: nat)
    requires DistinctKeys(groups) && j < |groups|
    ensures SumOf(groups, KeyOf(groups[j])) == groups[j].amount
  {
    var k := KeyOf(groups[j]);
    var tail := groups[1..];
    if j == 0 {
      assert k !in KeySet(tail) by {
        forall i | 0 <= i < |tail| ensures KeyOf(tail[i]) != k {
          assert tail[i] == groups[i + 1];
        }
      }
      SumOfAbsent(tail, k);
    } else {
      assert DistinctKeys(tail) by {
        forall a, b | 0 <= a < b < |tail| ensures KeyOf(tail[a]) != KeyOf(tail[b]) {
          assert tail[a] == groups[a + 1] && tail[b] == groups[b + 1];
        }
      }
      assert tail[j - 1] == groups[j];
      GroupAmountIsSum(tail, j - 1);
    }
  }

  lemma KeySetCons(x: Line, s: seq<Line>)
    ensures KeySet([x] + s) == {KeyOf(x)} + KeySet(s)
  {
    var t := [x] + s;
    forall k | k in KeySet(t) ensures k in {KeyOf(x)} + KeySet(s) {
      var i :| 0 <= i < |t| && KeyOf(t[i]) == k;
      if i > 0 { assert t[i] == s[i - 1]; }
    }
    forall k | k in KeySet(s) ensures k in KeySet(t) {
      var i :| 0 <= i < |s| && KeyOf(s[i]) == k;
      assert t[i + 1] == s[i];
    }
    assert t[0] == x;
  }

  lemma DistinctCons(x: Line, s: seq<Line>)
    ensures DistinctKeys([x] + s) <==> KeyOf(x) !in KeySet(s) && DistinctKeys(s)
  {
    var t := [x] + s;
    if DistinctKeys(t) {
      forall a, b | 0 <= a < b < |s| ensures KeyOf(s[a]) != KeyOf(s[b]) {
        assert t[a + 1] == s[a] && t[b + 1] == s[b];
      }
      forall i | 0 <= i < |s| ensures KeyOf(s[i]) != KeyOf(x) {
        assert t[0] == x && t[i + 1] == s[i];
        assert KeyOf(t[0]) != KeyOf(t[i + 1]);
      }
    }
    if KeyOf(x) !in KeySet(s) && DistinctKeys(s) {
      forall a, b | 0 <= a < b < |t| ensures KeyOf(t[a]) != KeyOf(t[b]) {
        assert t[b] == s[b - 1];
        if a > 0 { assert t[a] == s[a - 1]; }
      }
    }
  }

  /** Adds one line to the groups: into the group with its key, or as a new last group. */
  function Merge(groups: seq<Line>, l: Line): (r: seq<Line>)
    ensures KeySet(r) == KeySet(groups) + {KeyOf(l)}
    ensures DistinctKeys(groups) ==> DistinctKeys(r)
    ensures forall k :: SumOf(r, k) == SumOf(groups, k) + SumOf([l], k)
  {
    if groups == [] then
      KeySetCons(l, []);
      assert [l] + [] == [l];
      [l]
    else if KeyOf(groups[0]) == KeyOf(l) then
      var g := groups[0].(amount := groups[0].amount + l.amount);
      KeySetCons(g, groups[1..]);
      KeySetCons(groups[0], groups[1..]);
      DistinctCons(g, groups[1..]);
      DistinctCons(groups[0], groups[1..]);
      assert groups == [groups[0]] + groups[1..];
      [g] + groups[1..]
    else
      var rest := Merge(groups[1..], l);
      KeySetCons(groups[0], rest);
      KeySetCons(groups[0], groups[1..]);
      DistinctCons(groups[0], rest);
      DistinctCons(groups[0], groups[1..]);
      assert groups == [groups[0]] + groups[1..];
      [groups[0]] + rest
  }

  /**
   * `.values('ingredient__name', 'ingredient__measurement_unit').annotate(amount=Sum('amount'))`:
   * one group per key present, carrying the total amount of that key.
   */
  function GroupSum(lines: seq<Line>): (groups: seq<Line>)
    ensures DistinctKeys(groups)
    ensures KeySet(groups) == KeySet(lines)
    ensures forall k :: SumOf(groups, k) == SumOf(lines, k)
  {
    if lines == [] then []
    else
      var init := lines[..|lines| - 1];
      var last := lines[|lines| - 1];
      assert lines == init + [last];
      var r := Merge(GroupSum(init), last);
      assert forall k :: SumOf(r, k) == SumOf(lines, k) by {
        forall k ensures SumOf(r, k) == SumOf(lines, k) {
          SumOfAppend(init, [last], k);
        }
      }
      assert KeySet(lines) == KeySet(init) + {KeyOf(last)} by {
        forall k | k in KeySet(lines) ensures k in KeySet(init) + {KeyOf(last)} {
          var i :| 0 <= i < |lines| && KeyOf(lines[i]) == k;
          if i < |init| { assert lines[i] == init[i]; }
        }
        forall k | k in KeySet(init) ensures k in KeySet(lines) {
          var i :| 0 <= i < |init| && KeyOf(init[i]) == k;
          assert lines[i] == init[i];
        }
        assert KeyOf(lines[|lines| - 1]) in KeySet(lines);
      }
      r
  }

  /** Each group's amount is the total of its key over all the lines. */
  lemma GroupSumTotals(lines: seq<Line>, j: nat)
    requires j < |GroupSum(lines)|
    ensures GroupSum(lines)[j].amount == SumOf(lines, KeyOf(GroupSum(lines)[j]))
  {
    GroupAmountIsSum(GroupSum(lines), j);
  }

  /** A key has a group exactly when some line carries it, and then exactly one group. */
  lemma GroupSumOnePerKey(lines: seq<Line>, k: Key)
    ensures k in KeySet(lines) <==> exists j :: 0 <= j < |GroupSum(lines)| && KeyOf(GroupSum(lines)[j]) == k
    ensures forall i, j :: (0 <= i < |GroupSum(lines)| && 0 <= j < |GroupSum(lines)| &&
              KeyOf(GroupSum(lines)[i]) == k && KeyOf(GroupSum(lines)[j]) == k) ==> i == j
  {
    var g := GroupSum(lines);
    assert KeySet(g) == KeySet(lines);
    if k in KeySet(lines) {
      var j :| 0 <= j < |g| && KeyOf(g[j]) == k;
      assert 0 <= j < |GroupSum(lines)| && KeyOf(GroupSum(lines)[j]) == k;
    } else {
      forall j | 0 <= j < |g|
        ensures KeyOf(g[j]) != k
      {
        assert KeyOf(g[j]) in KeySet(g);
      }
    }
  }

  /** A sequence with distinct keys has one key per element. */
  lemma {:induction false} DistinctKeyCount(groups: seq<Line>)
    requires DistinctKeys(groups)
    ensures |KeySet(groups)| == |groups|
  {
    if groups != [] {
      assert groups == [groups[0]] + groups[1..];
      DistinctCons(groups[0], groups[1..]);
      KeySetCons(groups[0], groups[1..]);
      DistinctKeyCount(groups[1..]);
    }
  }

  /** In a sequence with distinct keys, the group with key `k` is the line `k` with the key's total. */
  lemma GroupIsDeterminedByKey(groups: seq<Line>, x: Line)
    requires DistinctKeys(groups) && x in groups
    ensures x == Line(KeyOf(x).0, KeyOf(x).1, SumOf(groups, KeyOf(x)))
  {
    var j :| 0 <= j < |groups| && groups[j] == x;
    GroupAmountIsSum(groups, j);
  }

  /**
   * The grouping is unique up to order: any sequence of groups with
   * distinct keys, the same keys as the lines and the same total per key
   * holds exactly the groups of `GroupSum`, each once. Whatever order the
   * database returns the groups in, it returns these groups.
   */
  lemma GroupsUniqueUpToOrder(lines: seq<Line>, groups: seq<Line>)
    requires DistinctKeys(groups) && KeySet(groups) == KeySet(lines)
    requires forall k :: SumOf(groups, k) == SumOf(lines, k)
    ensures |groups| == |GroupSum(lines)|
    ensures forall x :: x in groups <==> x in GroupSum(lines)
  {
    var g := GroupSum(lines);
    DistinctKeyCount(groups);
    DistinctKeyCount(g);
    forall x | x in groups
      ensures x in g
    {
      GroupIsDeterminedByKey(groups, x);
      var k := KeyOf(x);
      assert k in KeySet(groups);
      var j :| 0 <= j < |g| && KeyOf(g[j]) == k;
      GroupIsDeterminedByKey(g, g[j]);
    }
    forall x | x in g
      ensures x in groups
    {
      GroupIsDeterminedByKey(g, x);
      var k := KeyOf(x);
      assert k in KeySet(g);
      var j :| 0 <= j < |groups| && KeyOf(groups[j]) == k;
      GroupIsDeterminedByKey(groups, groups[j]);
    }
  }

  /**
   * Reference definition over the table itself: the total amount, over the
   * rows of recipes in `user`'s cart, of the ingredients named and measured `k`.
   */
  function CartTotal(rows: seq<IngredientRow>, catalog: map<IngredientId, Ingredient>,
                     cart: set<(UserId, RecipeId)>, user: UserId, k: Key): (total: int)
    requires forall x :: x in rows ==> x.ingredient in catalog
    ensures (forall x :: x in rows ==> (user, x.recipe) !in cart) ==> total == 0
  {
    if rows == [] then 0
    else
      var r := rows[0];
      (if (user, r.recipe) in cart && (catalog[r.ingredient].name, catalog[r.ingredient].unit) == k
       then r.amount else 0)
      + CartTotal(rows[1..], catalog, cart, user, k)
  }

  lemma {:induction false} CartLinesSum(rows: seq<IngredientRow>, catalog: map<IngredientId, Ingredient>,
                                        cart: set<(UserId, RecipeId)>, user: UserId, k: Key)
    requires forall x :: x in rows ==> x.ingredient in catalog
    ensures SumOf(CartLines(rows, catalog, cart, user), k) == CartTotal(rows, catalog, cart, user, k)
  {
    if rows != [] {
      assert forall x :: x in rows[1..] ==> x in rows;
      CartLinesSum(rows[1..], catalog, cart, user, k);
      var rest := CartRows(rows[1..], cart, user);
      if (user, rows[0].recipe) in cart {
        assert CartRows(rows, cart, user) == [rows[0]] + rest;
        var ls := CartLines(rows, catalog, cart, user);
        assert ls[0] == LineOf(catalog, rows[0]);
        assert ls[1..] == CartLines(rows[1..], catalog, cart, user);
      } else {
        assert CartRows(rows, cart, user) == rest;
      }
    }
  }

  /**
   * The aggregated shopping list: one group per (name, unit) found in the
   * cart, and each group's amount is the total of that key over the cart's rows.
   */
  lemma ShoppingListTotals(rows: seq<IngredientRow>, catalog: map<IngredientId, Ingredient>,
                           cart: set<(UserId, RecipeId)>, user: UserId)
    requires forall x :: x in rows ==> x.ingredient in catalog
    ensures var groups := GroupSum(CartLines(rows, catalog, cart, user));
            DistinctKeys(groups) &&
            KeySet(groups) == KeySet(CartLines(rows, catalog, cart, user)) &&
            forall j :: 0 <= j < |groups| ==>
              groups[j].amount == CartTotal(rows, catalog, cart, user, KeyOf(groups[j]))
  {
    var lines := CartLines(rows, catalog, cart, user);
    var groups := GroupSum(lines);
    forall j | 0 <= j < |groups|
      ensures groups[j].amount == CartTotal(rows, catalog, cart, user, KeyOf(groups[j]))
    {
      GroupSumTotals(lines, j);
      CartLinesSum(rows, catalog, cart, user, KeyOf(groups[j]));
    }
  }

  /** The first line of the text. */
  const Header: string := "Cписок покупок:"

  /** The text written for one group: `"\n{name} - {amount} {unit}"`. */
  function Segment(g: Line): (s: string)
    ensures var n := |IntToString(g.amount)|;
            |s| == |g.name| + n + |g.unit| + 5 && s[0] == '\n' &&
            s[1..|g.name| + 1] == g.name && s[|g.name| + 1..|g.name| + 4] == " - " &&
            s[|g.name| + 4 + n] == ' ' && s[|s| - |g.unit|..] == g.unit
    ensures var n := |IntToString(g.amount)|;
            var digits := s[|g.name| + 4..|g.name| + 4 + n];
            |digits| > 0 &&
            (if digits[0] == '-' then AllDigits(digits[1..]) else AllDigits(digits)) &&
            IntValue(digits) == g.amount
  {
    var s := "\n" + g.name + " - " + IntToString(g.amount) + " " + g.unit;
    assert s[|g.name| + 4..|g.name| + 4 + |IntToString(g.amount)|] == IntToString(g.amount);
    IntToStringRoundTrip(g.amount);
    s
  }

  function Segments(groups: seq<Line>): (r: seq<string>)
    ensures |r| == |groups| && forall i :: 0 <= i < |groups| ==> r[i] == Segment(groups[i])
  {
    seq(|groups|, i requires 0 <= i < |groups| => Segment(groups[i]))
  }

  /** Specification of the text: the header, then the segments separated by `", "`. */
  function Render(groups: seq<Line>): string
  {
    Header + Join(Segments(groups), ", ")
  }

  /** The text begins with the header and, when there are no groups, is the header alone. */
  lemma RenderHeader(groups: seq<Line>)
    ensures StartsWith(Render(groups), Header)
    ensures groups == [] <==> Render(groups) == Header
  {
    var r := Render(groups);
    assert r[..|Header|] == Header;
    if groups != [] {
      assert |Segments(groups)[0]| > 0;
      if |groups| > 1 {
        JoinLength(Segments(groups), ", ");
      }
      assert |Join(Segments(groups), ", ")| > 0;
    }
  }

  /** The downloaded text is the header alone exactly when no recipe in the cart has an ingredient row. */
  lemma HeaderOnlyIffNoCartRows(rows: seq<IngredientRow>, catalog: map<IngredientId, Ingredient>,
                                cart: set<(UserId, RecipeId)>, user: UserId)
    requires forall x :: x in rows ==> x.ingredient in catalog
    ensures Render(GroupSum(CartLines(rows, catalog, cart, user))) == Header <==>
            forall x :: x in rows ==> (user, x.recipe) !in cart
  {
    var lines := CartLines(rows, catalog, cart, user);
    var groups := GroupSum(lines);
    RenderHeader(groups);
    assert groups == [] <==> lines == [] by {
      if lines != [] {
        assert KeyOf(lines[0]) in KeySet(lines);
      }
    }
    assert lines == [] <==> CartRows(rows, cart, user) == [];
    assert CartRows(rows, cart, user) == [] <==> forall x :: x in rows ==> (user, x.recipe) !in cart by {
      if CartRows(rows, cart, user) != [] {
        assert CartRows(rows, cart, user)[0] in CartRows(rows, cart, user);
      }
    }
  }

  /** An empty cart downloads as the header alone. */
  lemma EmptyCartRendersHeader(rows: seq<IngredientRow>, catalog: map<IngredientId, Ingredient>, user: UserId)
    requires forall x :: x in rows ==> x.ingredient in catalog
    ensures Render(GroupSum(CartLines(rows, catalog, {}, user))) == Header
  {
    HeaderOnlyIffNoCartRows(rows, catalog, {}, user);
  }

  /** Besides the header and the segments, the text holds exactly n - 1 separators. */
  lemma RenderLength(groups: seq<Line>)
    requires |groups| > 0
    ensures |Render(groups)| == |Header| + TotalLength(Segments(groups)) + 2 * (|groups| - 1)
  {
    JoinLength(Segments(groups), ", ");
  }

  /** The separator still owed after `num` segments of `n`: written as soon as another segment follows. */
  function Pending(num: nat, n: nat): string
  {
    if 0 < num < n then ", " else ""
  }

  /** One step of the rendering loop, as a fact about `Join`. */
  lemma RenderStep(groups: seq<Line>, num: nat)
    requires num < |groups|
    ensures Join(Segments(groups[..num + 1]), ", ") ==
            Join(Segments(groups[..num]), ", ") + Pending(num, |groups|) + Segment(groups[num])
  {
    assert Segments(groups[..num + 1]) == Segments(groups[..num]) + [Segment(groups[num])];
    if num > 0 {
      JoinSnoc(Segments(groups[..num]), Segment(groups[num]), ", ");
    } else {
      assert Segments(groups[..1]) == [Segment(groups[0])];
    }
  }

  /**
   * The loop of the endpoint: append each group's segment and, after every
   * segment but the last, a separator.
   */
  method WriteShoppingList(ingredients: seq<Line>) returns (text: string)
    ensures text == Render(ingredients)
  {
    text := Header;
    for num := 0 to |ingredients|
      invariant text == Header + Join(Segments(ingredients[..num]), ", ") + Pending(num, |ingredients|)
    {
      var i := ingredients[num];
      var segment := "\n" + i.name + " - " + IntToString(i.amount) + " " + i.unit;
      ghost var done := Join(Segments(ingredients[..num]), ", ");
      RenderStep(ingredients, num);
      assert segment == Segment(i);
      ConcatAssoc(Header, done, Pending(num, |ingredients|), segment);
      text := text + segment;
      if num < |ingredients| - 1 {
        text := text + ", ";
      }
    }
    assert ingredients[..|ingredients|] == ingredients;
  }

  /** The endpoint: aggregate the user's cart, then write the groups out. */
  method DownloadShoppingCart(user: UserId, rows: seq<IngredientRow>, catalog: map<IngredientId, Ingredient>,
                              cart: set<(UserId, RecipeId)>) returns (text: string)
    requires forall x :: x in rows ==> x.ingredient in catalog
    ensures text == Render(GroupSum(CartLines(rows, catalog, cart, user)))
  {
    var ingredients := GroupSum(CartLines(rows, catalog, cart, user));
    text := WriteShoppingList(ingredients);
  }
}
