/**
 * The three add/remove actions of backend/api/views.py: `subscribe` on the
 * user viewset, `favorite` and `shopping_cart` on the recipe viewset. Each
 * action works on one relation table (`Follow`, `FavoriteRecipe`,
 * `BuyRecipe`), modelled as a set of (user, target) pairs; a set cannot hold
 * a pair twice, which is the unique constraint the tables declare.
 */
module Interactions {
  import opened Common

  /** The HTTP method an action was called with; the actions accept only these two. */
  datatype Verb = Post | Delete

  /** The error messages of `DICT_ERRORS` in backend/api/views.py that the actions use. */
  datatype ToggleError =
    | SubscribeToMyself   // 'subscribe_to_myself'
    | ReSubscription      // 're-subscription'
    | NotSubscription     // 'not_subscription'
    | ReFavorite          // 're-favorite'
    | NotFavorite         // 'not_favorite'
    | ReBuyRecipe         // 're-buy_recipe'
    | NotBuyRecipe        // 'not_buy_recipe'

  /** What an action reports: a row was created, a row was deleted, or a 400 error. */
  datatype Outcome = Created | Deleted | Rejected(error: ToggleError)

  /** An outcome together with the relation it leaves behind. */
  datatype Step<X> = Step(outcome: Outcome, rel: set<X>)

  /** POST: create the pair unless it already exists (the `.exists()` pre-check). */
  function AddPair<X>(rel: set<X>, p: X, duplicate: ToggleError): (r: Step<X>)
    ensures p in r.rel
    ensures r.outcome == Created <==> p !in rel
    ensures r.outcome != Created ==> r.outcome == Rejected(duplicate)
    ensures r.rel - {p} == rel - {p}
    ensures |r.rel| == if r.outcome == Created then |rel| + 1 else |rel|
  {
    if p in rel then Step(Rejected(duplicate), rel)
    else Step(Created, rel + {p})
  }

  /** DELETE: delete the pair when it exists, otherwise report it missing. */
  function RemovePair<X>(rel: set<X>, p: X, missing: ToggleError): (r: Step<X>)
    ensures p !in r.rel
    ensures r.outcome == Deleted <==> p in rel
    ensures r.outcome != Deleted ==> r.outcome == Rejected(missing)
    ensures r.rel - {p} == rel - {p}
    ensures |r.rel| == if r.outcome == Deleted then |rel| - 1 else |rel|
  {
    if p in rel then Step(Deleted, rel - {p})
    else Step(Rejected(missing), rel)
  }

  /**
   * `UserViewSet.subscribe` as written: POST refuses following oneself
   * before it looks for an existing pair; DELETE of a missing pair answers
   * with the 're-subscription' message ("already subscribed").
   */
  function SubscribeStepAsWritten(verb: Verb, follows: set<(UserId, UserId)>, user: UserId, following: UserId)
    : (r: Step<(UserId, UserId)>)
    ensures user == following && verb == Post ==> r == Step(Rejected(SubscribeToMyself), follows)
    ensures user != following && verb == Post ==> r == AddPair(follows, (user, following), ReSubscription)
    ensures verb == Delete ==> r == RemovePair(follows, (user, following), ReSubscription)
  {
    match verb
    case Post =>
      if user == following then Step(Rejected(SubscribeToMyself), follows)
      else AddPair(follows, (user, following), ReSubscription)
    case Delete => RemovePair(follows, (user, following), ReSubscription)
  }

  /**
   * `UserViewSet.subscribe` with the message the dictionary provides for a
   * missing subscription, 'not_subscription': the evidently intended behaviour.
   */
  function SubscribeStep(verb: Verb, follows: set<(UserId, UserId)>, user: UserId, following: UserId): (r: Step<(UserId, UserId)>)
    ensures user == following && verb == Post ==> r == Step(Rejected(SubscribeToMyself), follows)
    ensures user != following && verb == Post ==> r == AddPair(follows, (user, following), ReSubscription)
    ensures verb == Delete ==> r == RemovePair(follows, (user, following), NotSubscription)
  {
    match verb
    case Post =>
      if user == following then Step(Rejected(SubscribeToMyself), follows)
      else AddPair(follows, (user, following), ReSubscription)
    case Delete => RemovePair(follows, (user, following), NotSubscription)
  }

  /** `RecipesViewSet.favorite` and `RecipesViewSet.shopping_cart` share this shape. */
  function RecipeToggleStep(verb: Verb, rel: set<(UserId, RecipeId)>, user: UserId, recipe: RecipeId,
                            duplicate: ToggleError, missing: ToggleError): (r: Step<(UserId, RecipeId)>)
    ensures verb == Post ==> r == AddPair(rel, (user, recipe), duplicate)
    ensures verb == Delete ==> r == RemovePair(rel, (user, recipe), missing)
  {
    match verb
    case Post => AddPair(rel, (user, recipe), duplicate)
    case Delete => RemovePair(rel, (user, recipe), missing)
  }

  /** No stored follow pair has a user following themself. */
  predicate NoSelfFollow(follows: set<(UserId, UserId)>)
  {
    forall p :: p in follows ==> p.0 != p.1
  }

  /** The three relation tables the actions change. */
  class Relations {
    var follows: set<(UserId, UserId)>
    var favorites: set<(UserId, RecipeId)>
    var cart: set<(UserId, RecipeId)>

    predicate Valid()
      reads this
    {
      NoSelfFollow(follows)
    }

    constructor ()
      ensures Valid()
      ensures follows == {} && favorites == {} && cart == {}
    {
      follows, favorites, cart := {}, {}, {};
    }

    /** users/{id}/subscribe/ */
    method Subscribe(verb: Verb, user: UserId, following: UserId) returns (o: Outcome)
      requires Valid()
      modifies this
      ensures Valid()
      ensures Step(o, follows) == SubscribeStepAsWritten(verb, old(follows), user, following)
      ensures favorites == old(favorites) && cart == old(cart)
    {
      if verb == Post {
        if user == following {
          return Rejected(SubscribeToMyself);
        }
        if (user, following) in follows {
          return Rejected(ReSubscription);
        }
        follows := follows + {(user, following)};
        return Created;
      }
      if (user, following) in follows {
        follows := follows - {(user, following)};
        return Deleted;
      }
      return Rejected(ReSubscription);
    }

    /** recipes/{id}/favorite/ */
    method Favorite(verb: Verb, user: UserId, recipe: RecipeId) returns (o: Outcome)
      requires Valid()
      modifies this
      ensures Valid()
      ensures Step(o, favorites) == RecipeToggleStep(verb, old(favorites), user, recipe, ReFavorite, NotFavorite)
      ensures follows == old(follows) && cart == old(cart)
    {
      if verb == Post {
        if (user, recipe) in favorites {
          return Rejected(ReFavorite);
        }
        favorites := favorites + {(user, recipe)};
        return Created;
      }
      if (user, recipe) in favorites {
        favorites := favorites - {(user, recipe)};
        return Deleted;
      }
      return Rejected(NotFavorite);
    }

    /** recipes/{id}/shopping_cart/ */
    method ShoppingCart(verb: Verb, user: UserId, recipe: RecipeId) returns (o: Outcome)
      requires Valid()
      modifies this
      ensures Valid()
      ensures Step(o, cart) == RecipeToggleStep(verb, old(cart), user, recipe, ReBuyRecipe, NotBuyRecipe)
      ensures follows == old(follows) && favorites == old(favorites)
    {
      if verb == Post {
        if (user, recipe) in cart {
          return Rejected(ReBuyRecipe);
        }
        cart := cart + {(user, recipe)};
        return Created;
      }
      if (user, recipe) in cart {
        cart := cart - {(user, recipe)};
        return Deleted;
      }
      return Rejected(NotBuyRecipe);
    }
  }

  /** A successful add followed by a successful remove of the same pair restores the relation. */
  lemma AddThenRemoveRestores<X>(rel: set<X>, p: X, duplicate: ToggleError, missing: ToggleError)
    requires AddPair(rel, p, duplicate).outcome == Created
    ensures RemovePair(AddPair(rel, p, duplicate).rel, p, missing) == Step(Deleted, rel)
  {
    assert (rel + {p}) - {p} == rel;
  }

  /** A successful remove followed by a successful add of the same pair restores the relation. */
  lemma RemoveThenAddRestores<X>(rel: set<X>, p: X, duplicate: ToggleError, missing: ToggleError)
    requires RemovePair(rel, p, missing).outcome == Deleted
    ensures AddPair(RemovePair(rel, p, missing).rel, p, duplicate) == Step(Created, rel)
  {
    assert (rel - {p}) + {p} == rel;
  }

  /** Repeating a POST or a DELETE is rejected and changes nothing. */
  lemma RepeatedRequestRejected<X>(rel: set<X>, p: X, duplicate: ToggleError, missing: ToggleError)
    ensures var once := AddPair(rel, p, duplicate).rel;
            AddPair(once, p, duplicate) == Step(Rejected(duplicate), once)
    ensures var once := RemovePair(rel, p, missing).rel;
            RemovePair(once, p, missing) == Step(Rejected(missing), once)
  {
  }

  /**
   * The self-subscription check runs first: it wins even over a pair that
   * is already present, and whatever the relation holds.
   */
  lemma SelfSubscribeRejectedFirst(follows: set<(UserId, UserId)>, u: UserId)
    ensures SubscribeStepAsWritten(Post, follows, u, u).outcome == Rejected(SubscribeToMyself)
    ensures SubscribeStepAsWritten(Post, follows, u, u).rel == follows
    ensures SubscribeStep(Post, follows, u, u).outcome == Rejected(SubscribeToMyself)
    ensures SubscribeStep(Post, follows, u, u).rel == follows
  {
  }

  /** Every subscribe step keeps the relation free of self-follows. */
  lemma SubscribeKeepsNoSelfFollow(verb: Verb, follows: set<(UserId, UserId)>, user: UserId, following: UserId)
    requires NoSelfFollow(follows)
    ensures NoSelfFollow(SubscribeStepAsWritten(verb, follows, user, following).rel)
    ensures NoSelfFollow(SubscribeStep(verb, follows, user, following).rel)
  {
    var r := SubscribeStepAsWritten(verb, follows, user, following).rel;
    forall p | p in r
      ensures p.0 != p.1
    {
      if p != (user, following) {
        assert p in r - {(user, following)};
      }
    }
  }

  /**
   * As written, a DELETE by a user who does not follow `following` is told
   * they are already subscribed: the 're-subscription' message is reported
   * although the pair is absent.
   */
  lemma UnsubscribeMissingAsWritten(follows: set<(UserId, UserId)>, user: UserId, following: UserId)
    requires (user, following) !in follows
    ensures SubscribeStepAsWritten(Delete, follows, user, following) == Step(Rejected(ReSubscription), follows)
  {
  }

  /** The smallest case: nobody follows anybody, and user 1 unsubscribes from user 2. */
  lemma UnsubscribeMissingExample()
    ensures SubscribeStepAsWritten(Delete, {}, 1, 2).outcome == Rejected(ReSubscription)
    ensures (1, 2) !in SubscribeStepAsWritten(Delete, {}, 1, 2).rel
  {
  }

  /**
   * With the correction every refusal names its cause: 're-subscription'
   * exactly for a POST on a pair already present, 'not_subscription' exactly
   * for a DELETE on a pair that is absent.
   */
  lemma SubscribeRejectionsMatchCause(verb: Verb, follows: set<(UserId, UserId)>, user: UserId, following: UserId)
    ensures var o := SubscribeStep(verb, follows, user, following).outcome;
            o == Rejected(ReSubscription) <==> verb == Post && user != following && (user, following) in follows
    ensures var o := SubscribeStep(verb, follows, user, following).outcome;
            o == Rejected(NotSubscription) <==> verb == Delete && (user, following) !in follows
    ensures var o := SubscribeStep(verb, follows, user, following).outcome;
            o == Rejected(SubscribeToMyself) <==> verb == Post && user == following
  {
  }

  /** The correction changes only that one message: the relation and every other outcome are as written. */
  lemma SubscribeCorrectionOnlyChangesMessage(verb: Verb, follows: set<(UserId, UserId)>, user: UserId, following: UserId)
    ensures SubscribeStep(verb, follows, user, following).rel == SubscribeStepAsWritten(verb, follows, user, following).rel
    ensures !(verb == Delete && (user, following) !in follows) ==>
              SubscribeStep(verb, follows, user, following) == SubscribeStepAsWritten(verb, follows, user, following)
  {
  }
}
