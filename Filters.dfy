/**
 * The two filter methods of `RecipeFilters` (backend/api/filters.py). The
 * recipe queryset is modelled as the set of recipe ids it holds.
 */
module Filters {
  import opened Common
  import ReadFlags

  /**
   * Keep the recipes `user` has related to `recipe` through `rel`, when the
   * filter value is true and the user is signed in; otherwise keep all.
   */
  function FilterByRelation(queryset: set<RecipeId>, value: bool, user: RequestUser,
                            rel: set<(UserId, RecipeId)>): (r: set<RecipeId>)
    ensures r <= queryset
    ensures !value || user.Anonymous? ==> r == queryset
    ensures value && user.Member? ==>
              forall x :: x in r <==> x in queryset && (user.id, x) in rel
  {
    if value && !user.Anonymous? then set x | x in queryset && (user.id, x) in rel
    else queryset
  }

  /** `filter_is_favorited` */
  function FilterIsFavorited(queryset: set<RecipeId>, value: bool, user: RequestUser,
                             favorites: set<(UserId, RecipeId)>): (r: set<RecipeId>)
    ensures r <= queryset
    ensures !value || user.Anonymous? ==> r == queryset
    ensures value && user.Member? ==>
              forall x :: x in r <==> x in queryset && ReadFlags.IsFavorited(user, x, favorites)
  {
    FilterByRelation(queryset, value, user, favorites)
  }

  /** `filter_is_in_shopping_cart` */
  function FilterIsInShoppingCart(queryset: set<RecipeId>, value: bool, user: RequestUser,
                                  cart: set<(UserId, RecipeId)>): (r: set<RecipeId>)
    ensures r <= queryset
    ensures !value || user.Anonymous? ==> r == queryset
    ensures value && user.Member? ==>
              forall x :: x in r <==> x in queryset && ReadFlags.IsInShoppingCart(user, x, cart)
  {
    FilterByRelation(queryset, value, user, cart)
  }

  /** Filtering twice is filtering once. */
  lemma FilterIdempotent(queryset: set<RecipeId>, value: bool, user: RequestUser, rel: set<(UserId, RecipeId)>)
    ensures var once := FilterByRelation(queryset, value, user, rel);
            FilterByRelation(once, value, user, rel) == once
  {
  }

  /** The two filters can be applied in either order. */
  lemma FiltersCommute(queryset: set<RecipeId>, favorited: bool, inCart: bool, user: RequestUser,
                       favorites: set<(UserId, RecipeId)>, cart: set<(UserId, RecipeId)>)
    ensures FilterIsInShoppingCart(FilterIsFavorited(queryset, favorited, user, favorites), inCart, user, cart) ==
            FilterIsFavorited(FilterIsInShoppingCart(queryset, inCart, user, cart), favorited, user, favorites)
  {
  }
}
