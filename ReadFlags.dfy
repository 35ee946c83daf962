/**
 * The computed read-side fields of backend/api/serializers.py:
 * `UserSerializer.get_is_subscribed`, `RecipeGetSerializer.get_is_favorited`
 * and `get_is_in_shopping_cart`, `FollowSerializer.get_is_subscribed` and
 * `get_recipes_count`, and the query behind `users/subscriptions/`.
 */
module ReadFlags {
  import opened Common
  import Interactions

  /** `UserSerializer.get_is_subscribed`: does the viewer follow `obj`? */
  function IsSubscribed(viewer: RequestUser, obj: UserId, follows: set<(UserId, UserId)>): (r: bool)
    ensures viewer.Anonymous? ==> !r
    ensures viewer.Is(obj) ==> !r
    ensures viewer.Member? && viewer.id != obj ==> (r <==> (viewer.id, obj) in follows)
  {
    if viewer.Anonymous? || viewer.Is(obj) then false
    else (viewer.id, obj) in follows
  }

  /** `RecipeGetSerializer.get_is_favorited` */
  function IsFavorited(viewer: RequestUser, recipe: RecipeId, favorites: set<(UserId, RecipeId)>): (r: bool)
    ensures r <==> viewer.Member? && (viewer.id, recipe) in favorites
  {
    if viewer.Anonymous? then false else (viewer.id, recipe) in favorites
  }

  /** `RecipeGetSerializer.get_is_in_shopping_cart` */
  function IsInShoppingCart(viewer: RequestUser, recipe: RecipeId, cart: set<(UserId, RecipeId)>): (r: bool)
    ensures r <==> viewer.Member? && (viewer.id, recipe) in cart
  {
    if viewer.Anonymous? then false else (viewer.id, recipe) in cart
  }

  /** `FollowSerializer.get_is_subscribed`: reported true whoever `obj` is. */
  function FollowIsSubscribed(obj: UserId): (r: bool)
    ensures r
  {
    true
  }

  /** The recipes whose author is `author` (`obj.recipes`). */
  function AuthoredBy(recipes: map<RecipeId, Recipe>, author: UserId): (ids: set<RecipeId>)
    ensures ids <= recipes.Keys
    ensures forall id :: id in ids <==> id in recipes && recipes[id].author == author
  {
    set id | id in recipes && recipes[id].author == author
  }

  /** `FollowSerializer.get_recipes_count`: `obj.recipes.count()`. */
  function RecipesCount(recipes: map<RecipeId, Recipe>, author: UserId): (n: nat)
    ensures n == |AuthoredBy(recipes, author)|
    ensures n <= |recipes|
  {
    CardinalityOfSubset(AuthoredBy(recipes, author), recipes.Keys);
    |AuthoredBy(recipes, author)|
  }

  lemma {:induction false} CardinalityOfSubset<T>(a: set<T>, b: set<T>)
    requires a <= b
    ensures |a| <= |b|
    decreases |b|
  {
    if a != {} {
      var x :| x in a;
      CardinalityOfSubset(a - {x}, b - {x});
    }
  }

  /** A new recipe adds one to its author's count and leaves every other author's count alone. */
  lemma RecipesCountAfterCreate(recipes: map<RecipeId, Recipe>, id: RecipeId, recipe: Recipe, author: UserId)
    requires id !in recipes
    ensures RecipesCount(recipes[id := recipe], author) ==
            RecipesCount(recipes, author) + (if recipe.author == author then 1 else 0)
  {
    var before := AuthoredBy(recipes, author);
    var after := AuthoredBy(recipes[id := recipe], author);
    if recipe.author == author {
      assert after == before + {id};
    } else {
      assert after == before;
    }
  }

  /** `User.objects.filter(following__user=user)`: the users `user` follows. */
  function Subscriptions(follows: set<(UserId, UserId)>, user: UserId): (r: set<UserId>)
    ensures forall u :: u in r <==> (user, u) in follows
  {
    set p | p in follows && p.0 == user :: p.1
  }

  /**
   * On the subscriptions listing the constant `true` of `FollowSerializer`
   * agrees with `UserSerializer`'s real test, because nobody follows themself.
   */
  lemma SubscriptionListingAgrees(follows: set<(UserId, UserId)>, viewer: RequestUser, obj: UserId)
    requires Interactions.NoSelfFollow(follows)
    requires viewer.Member? && obj in Subscriptions(follows, viewer.id)
    ensures IsSubscribed(viewer, obj, follows) == FollowIsSubscribed(obj)
  {
    assert (viewer.id, obj) in follows;
  }

  /** A successful subscribe makes `is_subscribed` true; a successful unsubscribe makes it false. */
  lemma SubscribeSetsFlag(verb: Interactions.Verb, follows: set<(UserId, UserId)>, viewer: RequestUser, obj: UserId)
    requires viewer.Member?
    ensures var s := Interactions.SubscribeStepAsWritten(verb, follows, viewer.id, obj);
            s.outcome == Interactions.Created ==> IsSubscribed(viewer, obj, s.rel)
    ensures var s := Interactions.SubscribeStepAsWritten(verb, follows, viewer.id, obj);
            s.outcome == Interactions.Deleted ==> !IsSubscribed(viewer, obj, s.rel)
  {
  }

  /** A favorite or cart POST (created or refused as a duplicate) leaves the flag true; a DELETE leaves it false. */
  lemma RecipeToggleSetsFlag(verb: Interactions.Verb, rel: set<(UserId, RecipeId)>, viewer: RequestUser, recipe: RecipeId,
                             duplicate: Interactions.ToggleError, missing: Interactions.ToggleError)
    requires viewer.Member?
    ensures var s := Interactions.RecipeToggleStep(verb, rel, viewer.id, recipe, duplicate, missing);
            IsFavorited(viewer, recipe, s.rel) == (verb == Interactions.Post) &&
            IsInShoppingCart(viewer, recipe, s.rel) == (verb == Interactions.Post)
  {
  }
}
